/** What `tts` guarantees: the result has one entry per distinct stripped
    word; a cached word is taken from the cache and never synthesized; every
    other word is synthesized once, at its first occurrence, with its own
    part's words as context, and the answer is stored under the same key in
    the result and in the cache. */
module SpeechFacts {
  import opened Util
  import opened Speech

  /** `(p2, i2)` comes before `(p, i)` in the loops' order. */
  predicate Before(p2: int, i2: int, p: int, i: int) {
    p2 < p || (p2 == p && i2 < i)
  }

  /** The stripped words of the positions before `(p, i)`. */
  ghost function Seen(texts: seq<seq<string>>, p: nat, i: nat): set<string> {
    set p2, i2 | 0 <= p2 < |texts| && 0 <= i2 < |texts[p2]| && Before(p2, i2, p, i) :: StripWord(texts[p2][i2])
  }

  /** Every stripped word of every part. */
  ghost function AllWords(texts: seq<seq<string>>): set<string> {
    Seen(texts, |texts|, 0)
  }

  /** No earlier word strips to the same word as word `i` of part `p`. */
  ghost predicate FirstOccurrence(texts: seq<seq<string>>, p: nat, i: nat)
    requires At(texts, p, i)
  {
    forall p2, i2 :: At(texts, p2, i2) && Before(p2, i2, p, i) ==> StripWord(texts[p2][i2]) != StripWord(texts[p][i])
  }

  ghost function LogWords(log: seq<Request>): set<string> {
    set n | 0 <= n < |log| :: log[n].text
  }

  /** Request `n` is the request for the first occurrence of its word. */
  ghost predicate FromFirst(texts: seq<seq<string>>, req: Request) {
    exists p, i :: At(texts, p, i) && FirstOccurrence(texts, p, i) && req == RequestFor(texts[p], i)
  }

  // ---------------------------------------------------------------------
  // The loop invariant, in parts
  // ---------------------------------------------------------------------

  /** The words looked at so far, and they alone, are resolved; each
      resolved word is in the cache with the same entry. */
  ghost predicate Resolved(texts: seq<seq<string>>, st: TtsState, p: nat, i: nat) {
    st.found.Keys == Seen(texts, p, i) &&
    forall w :: w in st.found ==> w in st.disk && st.disk[w] == st.found[w]
  }

  /** The cache only gains the synthesized words, and keeps what it had. */
  ghost predicate CacheGrows(disk0: map<string, WordInfo>, st: TtsState) {
    (forall w :: w in disk0 ==> w in st.disk && st.disk[w] == disk0[w]) &&
    (forall w :: w in st.disk ==> w in disk0 || w in LogWords(st.log))
  }

  /** Each request is for a word not cached at the start, no word twice,
      from its first occurrence, and its answer is what was resolved. */
  ghost predicate Requests(respond: Request -> Result<WordInfo>, disk0: map<string, WordInfo>, texts: seq<seq<string>>, st: TtsState) {
    (forall n :: 0 <= n < |st.log| ==> st.log[n].text !in disk0) &&
    (forall n, m :: 0 <= n < m < |st.log| ==> st.log[n].text != st.log[m].text) &&
    (forall n :: 0 <= n < |st.log| ==> FromFirst(texts, st.log[n])) &&
    (forall n :: 0 <= n < |st.log| ==>
       respond(st.log[n]).Success? && st.log[n].text in st.found && st.found[st.log[n].text] == respond(st.log[n]).value)
  }

  ghost predicate TtsInv(respond: Request -> Result<WordInfo>, disk0: map<string, WordInfo>, texts: seq<seq<string>>,
                   st: TtsState, p: nat, i: nat) {
    Resolved(texts, st, p, i) && CacheGrows(disk0, st) && Requests(respond, disk0, texts, st)
  }

  // ---------------------------------------------------------------------
  // Facts about the positions
  // ---------------------------------------------------------------------

  lemma SeenStep(texts: seq<seq<string>>, p: nat, i: nat)
    requires At(texts, p, i)
    ensures Seen(texts, p, i + 1) == Seen(texts, p, i) + {StripWord(texts[p][i])}
  {
    var w := StripWord(texts[p][i]);
    forall x | x in Seen(texts, p, i + 1) ensures x in Seen(texts, p, i) + {w} {
      var p2, i2 :| At(texts, p2, i2) && Before(p2, i2, p, i + 1) && x == StripWord(texts[p2][i2]);
      assert At(texts, p2, i2);
      if Before(p2, i2, p, i) {
        assert x in Seen(texts, p, i);
      }
    }
    assert w in Seen(texts, p, i + 1);
  }

  lemma SeenNextPart(texts: seq<seq<string>>, p: nat)
    requires p < |texts|
    ensures Seen(texts, p, |texts[p]|) == Seen(texts, p + 1, 0)
  {
    forall x | x in Seen(texts, p + 1, 0) ensures x in Seen(texts, p, |texts[p]|) {
      var p2, i2 :| At(texts, p2, i2) && Before(p2, i2, p + 1, 0) && x == StripWord(texts[p2][i2]);
      assert At(texts, p2, i2);
      assert Before(p2, i2, p, |texts[p]|);
    }
  }

  lemma UnseenIsFirst(texts: seq<seq<string>>, p: nat, i: nat)
    requires At(texts, p, i) && StripWord(texts[p][i]) !in Seen(texts, p, i)
    ensures FirstOccurrence(texts, p, i)
  {
    forall p2, i2 | At(texts, p2, i2) && Before(p2, i2, p, i)
      ensures StripWord(texts[p2][i2]) != StripWord(texts[p][i])
    {
      assert StripWord(texts[p2][i2]) in Seen(texts, p, i);
    }
  }

  // ---------------------------------------------------------------------
  // One word, case by case
  // ---------------------------------------------------------------------

  lemma SkipKeeps(respond: Request -> Result<WordInfo>, disk0: map<string, WordInfo>, texts: seq<seq<string>>,
                  st: TtsState, p: nat, i: nat)
    requires At(texts, p, i) && TtsInv(respond, disk0, texts, st, p, i) && StripWord(texts[p][i]) in st.found
    ensures TtsInv(respond, disk0, texts, st, p, i + 1)
  {
    SeenStep(texts, p, i);
  }

  lemma HitKeeps(respond: Request -> Result<WordInfo>, disk0: map<string, WordInfo>, texts: seq<seq<string>>,
                 st: TtsState, p: nat, i: nat)
    requires At(texts, p, i) && TtsInv(respond, disk0, texts, st, p, i)
    requires StripWord(texts[p][i]) !in st.found && StripWord(texts[p][i]) in st.disk
    ensures TtsInv(respond, disk0, texts, WordStep(respond, st, texts[p], i).value, p, i + 1)
  {
    SeenStep(texts, p, i);
    var w := StripWord(texts[p][i]);
    var r := WordStep(respond, st, texts[p], i).value;
    assert r == st.(found := st.found[w := st.disk[w]]);
    assert Requests(respond, disk0, texts, r) by {
      forall n | 0 <= n < |r.log| ensures r.log[n].text in r.found && r.found[r.log[n].text] == respond(r.log[n]).value {
        assert r.log[n].text != w;
      }
    }
  }

  lemma CallResolves(respond: Request -> Result<WordInfo>, disk0: map<string, WordInfo>, texts: seq<seq<string>>,
                     st: TtsState, p: nat, i: nat)
    requires At(texts, p, i) && Resolved(texts, st, p, i)
    requires StripWord(texts[p][i]) !in st.found && StripWord(texts[p][i]) !in st.disk
    requires WordStep(respond, st, texts[p], i).Success?
    ensures Resolved(texts, WordStep(respond, st, texts[p], i).value, p, i + 1)
  {
    SeenStep(texts, p, i);
  }

  lemma CallCaches(respond: Request -> Result<WordInfo>, disk0: map<string, WordInfo>, texts: seq<seq<string>>,
                   st: TtsState, p: nat, i: nat)
    requires At(texts, p, i) && CacheGrows(disk0, st)
    requires StripWord(texts[p][i]) !in st.found && StripWord(texts[p][i]) !in st.disk
    requires WordStep(respond, st, texts[p], i).Success?
    ensures CacheGrows(disk0, WordStep(respond, st, texts[p], i).value)
  {
    var req := RequestFor(texts[p], i);
    var r := WordStep(respond, st, texts[p], i).value;
    assert r.log[|st.log|] == req;
    assert forall n :: 0 <= n < |st.log| ==> r.log[n] == st.log[n];
    assert LogWords(r.log) == LogWords(st.log) + {req.text};
  }

  lemma CallRequests(respond: Request -> Result<WordInfo>, disk0: map<string, WordInfo>, texts: seq<seq<string>>,
                     st: TtsState, p: nat, i: nat)
    requires At(texts, p, i) && TtsInv(respond, disk0, texts, st, p, i)
    requires StripWord(texts[p][i]) !in st.found && StripWord(texts[p][i]) !in st.disk
    requires WordStep(respond, st, texts[p], i).Success?
    ensures Requests(respond, disk0, texts, WordStep(respond, st, texts[p], i).value)
  {
    var w := StripWord(texts[p][i]);
    var req := RequestFor(texts[p], i);
    var r := WordStep(respond, st, texts[p], i).value;
    UnseenIsFirst(texts, p, i);
    assert FromFirst(texts, req);
    forall n | 0 <= n < |r.log|
      ensures r.log[n].text !in disk0 && FromFirst(texts, r.log[n]) &&
              respond(r.log[n]).Success? && r.log[n].text in r.found && r.found[r.log[n].text] == respond(r.log[n]).value
    {
      if n < |st.log| {
        assert r.log[n] == st.log[n];
        assert st.log[n].text in st.found;
      }
    }
    forall n, m | 0 <= n < m < |r.log| ensures r.log[n].text != r.log[m].text {
      if m == |st.log| {
        assert r.log[n] == st.log[n];
        assert st.log[n].text in st.found;
      } else {
        assert r.log[n] == st.log[n] && r.log[m] == st.log[m];
      }
    }
  }

  lemma WordKeeps(respond: Request -> Result<WordInfo>, disk0: map<string, WordInfo>, texts: seq<seq<string>>,
                  st: TtsState, p: nat, i: nat)
    requires At(texts, p, i) && TtsInv(respond, disk0, texts, st, p, i)
    requires WordStep(respond, st, texts[p], i).Success?
    ensures TtsInv(respond, disk0, texts, WordStep(respond, st, texts[p], i).value, p, i + 1)
  {
    var w := StripWord(texts[p][i]);
    if w in st.found {
      SkipKeeps(respond, disk0, texts, st, p, i);
    } else if w in st.disk {
      HitKeeps(respond, disk0, texts, st, p, i);
    } else {
      CallResolves(respond, disk0, texts, st, p, i);
      CallCaches(respond, disk0, texts, st, p, i);
      CallRequests(respond, disk0, texts, st, p, i);
    }
  }

  /** A property of the state and the position that every word keeps, and
      that moving to the next part keeps, holds at the end of the loops. */
  lemma {:induction false} FromKeeps(P: (TtsState, nat, nat) -> bool, respond: Request -> Result<WordInfo>,
                                     texts: seq<seq<string>>, st: TtsState, p: nat, i: nat)
    requires Resumable(texts, p, i) && P(st, p, i)
    requires forall s: TtsState, q: nat, j: nat {:trigger P(s, q, j)} ::
      At(texts, q, j) && P(s, q, j) && WordStep(respond, s, texts[q], j).Success? ==>
        P(WordStep(respond, s, texts[q], j).value, q, j + 1)
    requires forall s: TtsState, q: nat :: q < |texts| && P(s, q, |texts[q]|) ==> P(s, q + 1, 0)
    ensures var r := From(respond, st, texts, p, i);
      r.Success? ==> P(r.value, |texts|, 0)
    decreases |texts| - p, if p < |texts| then |texts[p]| - i else 0
  {
    if p < |texts| {
      if i == |texts[p]| {
        FromKeeps(P, respond, texts, st, p + 1, 0);
      } else {
        var s := WordStep(respond, st, texts[p], i);
        if s.Success? {
          assert At(texts, p, i);
          FromKeeps(P, respond, texts, s.value, p, i + 1);
        }
      }
    }
  }

  /** The invariant holds at the end of a successful `tts`. */
  lemma TtsEnd(respond: Request -> Result<WordInfo>, disk0: map<string, WordInfo>, texts: seq<seq<string>>)
    ensures var r := TtsSpec(respond, disk0, texts);
      r.Success? ==> TtsInv(respond, disk0, texts, r.value, |texts|, 0)
  {
    var P := (s: TtsState, q: nat, j: nat) => TtsInv(respond, disk0, texts, s, q, j);
    forall s: TtsState, q: nat, j: nat |
      At(texts, q, j) && P(s, q, j) && WordStep(respond, s, texts[q], j).Success?
      ensures P(WordStep(respond, s, texts[q], j).value, q, j + 1)
    {
      WordKeeps(respond, disk0, texts, s, q, j);
    }
    forall s: TtsState, q: nat | q < |texts| && P(s, q, |texts[q]|) ensures P(s, q + 1, 0) {
      SeenNextPart(texts, q);
    }
    assert Seen(texts, 0, 0) == {};
    FromKeeps(P, respond, texts, TtsState(map[], disk0, []), 0, 0);
  }

  /** A request for the first occurrence of a word is for one of the words. */
  lemma RequestedWord(texts: seq<seq<string>>, req: Request)
    requires FromFirst(texts, req)
    ensures req.text in AllWords(texts)
  {
    var p, i :| At(texts, p, i) && FirstOccurrence(texts, p, i) && req == RequestFor(texts[p], i);
    assert Before(p, i, |texts|, 0);
  }

  lemma {:induction false} DistinctCount(log: seq<Request>)
    requires forall n, m :: 0 <= n < m < |log| ==> log[n].text != log[m].text
    ensures |LogWords(log)| == |log|
  {
    if log != [] {
      var init := log[..|log| - 1];
      DistinctCount(init);
      assert LogWords(log) == LogWords(init) + {log[|log| - 1].text};
      assert log[|log| - 1].text !in LogWords(init);
    }
  }

  lemma {:induction false} SubsetCard<T>(a: set<T>, b: set<T>)
    requires a <= b
    ensures |a| <= |b|
    decreases |b|
  {
    if a != {} {
      var x :| x in a;
      SubsetCard(a - {x}, b - {x});
    }
  }

  /** No word is requested twice, so there are no more requests than words. */
  lemma RequestBound(texts: seq<seq<string>>, log: seq<Request>)
    requires forall n, m :: 0 <= n < m < |log| ==> log[n].text != log[m].text
    requires LogWords(log) <= AllWords(texts)
    ensures |log| <= |AllWords(texts)|
  {
    DistinctCount(log);
    SubsetCard(LogWords(log), AllWords(texts));
  }

  // ---------------------------------------------------------------------
  // What tts guarantees
  // ---------------------------------------------------------------------

  /** After a successful `tts`:
      - the result's keys are exactly the stripped words of every part;
      - a word that was cached is taken from the cache, and no request is
        ever sent for it;
      - no word is requested twice, so there are at most as many requests
        as distinct stripped words;
      - every request is for the first occurrence of its word, across parts
        in order, with that word's own part as context;
      - the answer to each request is the result's entry for its word, and
        the cache's: the cache gains exactly the requested words and keeps
        everything it had. */
  lemma TtsFacts(respond: Request -> Result<WordInfo>, disk0: map<string, WordInfo>, texts: seq<seq<string>>)
    ensures var r := TtsSpec(respond, disk0, texts);
      r.Success? ==>
        var s := r.value;
        s.found.Keys == AllWords(texts) &&
        (forall w :: w in s.found && w in disk0 ==> s.found[w] == disk0[w]) &&
        (forall n :: 0 <= n < |s.log| ==> s.log[n].text !in disk0) &&
        (forall n, m :: 0 <= n < m < |s.log| ==> s.log[n].text != s.log[m].text) &&
        |s.log| <= |AllWords(texts)| &&
        (forall n :: 0 <= n < |s.log| ==> FromFirst(texts, s.log[n])) &&
        (forall n :: 0 <= n < |s.log| ==>
           respond(s.log[n]).Success? && s.log[n].text in s.found && s.log[n].text in s.disk &&
           s.found[s.log[n].text] == s.disk[s.log[n].text] == respond(s.log[n]).value) &&
        (forall w :: w in disk0 ==> w in s.disk && s.disk[w] == disk0[w]) &&
        s.disk.Keys == disk0.Keys + LogWords(s.log)
  {
    TtsEnd(respond, disk0, texts);
    var r := TtsSpec(respond, disk0, texts);
    if r.Success? {
      var s := r.value;
      forall w | w in LogWords(s.log) ensures w in AllWords(texts) && w in s.disk {
        var n :| 0 <= n < |s.log| && w == s.log[n].text;
        RequestedWord(texts, s.log[n]);
      }
      RequestBound(texts, s.log);
    }
  }
}
