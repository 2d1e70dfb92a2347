/** `lyric_word` and the shape of a part's syllables. A part whose syllables
    form whole words (a begin, any middles, an end; or a single), with rests
    anywhere, is joined without failure, and every syllable ends up carrying
    the word it belongs to. The back-fill on an end writes that word onto
    every event from the word's begin to the end, rests included, and onto
    nothing else. */
module LyricRuns {
  import opened Util
  import opened Score
  import opened Lyrics
  import opened LyricsFacts

  /** Where the syllables so far leave the current word: closed, open since
      the begin at `start`, or broken (a middle or end outside a word, or a
      begin or single inside one). */
  datatype RunPhase = Closed | Open(start: nat) | Broken

  function RunStep(ph: RunPhase, e: Event, k: nat): RunPhase {
    if !IsSyllable(e) then ph
    else if e.lyricPos.value == 0 then (if ph.Closed? then Open(k) else Broken)
    else if e.lyricPos.value == 3 then (if ph.Closed? then Closed else Broken)
    else if e.lyricPos.value == 1 then (if ph.Open? then ph else Broken)
    else (if ph.Open? then Closed else Broken)
  }

  /** The phase after `evs[..i]`. */
  function Phase(evs: seq<Event>, i: nat): RunPhase
    requires i <= |evs|
  {
    if i == 0 then Closed else RunStep(Phase(evs, i - 1), evs[i - 1], i - 1)
  }

  /** The syllables form whole words. */
  predicate WholeWords(evs: seq<Event>) {
    Phase(evs, |evs|) == Closed
  }

  lemma {:induction false} BrokenStays(evs: seq<Event>, i: nat, j: nat)
    requires i <= j <= |evs| && Phase(evs, i) == Broken
    ensures Phase(evs, j) == Broken
    decreases j - i
  {
    if i < j {
      BrokenStays(evs, i, j - 1);
    }
  }

  /** The word written onto an event: a pitch's `lyric_word`, or the
      attribute the back-fill adds to a rest. */
  function WrittenWord(e: Event): Option<string> {
    if e.Pitch? then Some(e.lyricWord) else e.strayWord
  }

  /** An end syllable writes the completed (last) word onto every event from
      the current word's start to itself, rests included; every other event
      is left as it was. */
  lemma EndBackfill(st: JoinState, i: nat)
    requires i < |st.evs| && st.wordStart <= i && st.prev <= i
    requires st.evs[i].Pitch? && st.evs[i].lyric.Some? && st.evs[i].lyricPos == Some(2)
    requires JoinStep(st, i).Success?
    ensures var r := JoinStep(st, i).value;
      Filled(st, r, i) && r.words[|r.words| - 1] == st.words[|st.words| - 1] + StripWord(st.evs[i].lyric.value)
  {
  }

  /** `r` is `st` after an end at `i`: the earlier words are unchanged, and
      the last word is written onto the events from the word start to `i`,
      and nothing else changes. */
  predicate Filled(st: JoinState, r: JoinState, i: nat) {
    st.words != [] && |r.words| == |st.words| && |r.evs| == |st.evs| &&
    (forall j :: 0 <= j < |st.words| - 1 ==> r.words[j] == st.words[j]) &&
    (forall k :: 0 <= k < |st.evs| ==>
       if st.wordStart <= k <= i then
         WrittenWord(r.evs[k]) == Some(r.words[|r.words| - 1]) && (r.evs[k].Pitch? <==> st.evs[k].Pitch?)
       else r.evs[k] == st.evs[k])
  }

  // ---------------------------------------------------------------------
  // The invariant
  // ---------------------------------------------------------------------

  /** Every syllable before `lo` carries the word it belongs to. */
  predicate Labelled(evs0: seq<Event>, st: JoinState, lo: nat)
    requires lo <= |evs0| && |st.evs| == |evs0|
  {
    forall k {:trigger IsSyllable(evs0[k])} :: 0 <= k < lo && IsSyllable(evs0[k]) ==>
      st.evs[k].Pitch? && 0 <= WordOf(evs0, k) < |st.words| && st.evs[k].lyricWord == st.words[WordOf(evs0, k)]
  }

  /** A word open since the begin at `s`: it is the state's word start, and
      no word has begun since. */
  predicate OpenAt(evs0: seq<Event>, st: JoinState, i: nat, s: nat)
    requires i <= |evs0|
  {
    s == st.wordStart && s < i && IsSyllable(evs0[s]) && evs0[s].lyricPos == Some(0) &&
    Openers(evs0, i) == Openers(evs0, s + 1)
  }

  /** The syllables so far are not broken; if a word is open, every syllable
      before its begin carries its word, otherwise every syllable does. */
  predicate RunInv(evs0: seq<Event>, st: JoinState, i: nat) {
    i <= |evs0| && |st.evs| == |evs0| &&
    match Phase(evs0, i)
    case Closed => Labelled(evs0, st, i)
    case Open(s) => OpenAt(evs0, st, i, s) && Labelled(evs0, st, s)
    case Broken => false
  }

  // ---------------------------------------------------------------------
  // One step, case by case
  // ---------------------------------------------------------------------

  lemma RestRun(evs0: seq<Event>, st: JoinState, i: nat)
    requires Frame(evs0, st, i) && RunInv(evs0, st, i) && i < |evs0| && !evs0[i].Pitch?
    ensures JoinStep(st, i) == Success(st)
    ensures RunInv(evs0, st, i + 1)
  {
    assert Tag(st.evs[i]) == Tag(evs0[i]);
  }

  lemma BeginRun(evs0: seq<Event>, st: JoinState, i: nat)
    requires Frame(evs0, st, i) && RunInv(evs0, st, i) && i < |evs0|
    requires IsSyllable(evs0[i]) && evs0[i].lyricPos == Some(0) && Phase(evs0, i) == Closed
    ensures JoinStep(st, i).Success? && RunInv(evs0, JoinStep(st, i).value, i + 1)
  {
    assert Tag(st.evs[i]) == Tag(evs0[i]);
    var r := JoinStep(st, i).value;
    assert r.words == st.words + [Syl(evs0[i])];
    assert r.wordStart == i;
    forall k | 0 <= k < i && IsSyllable(evs0[k])
      ensures r.evs[k].Pitch? && 0 <= WordOf(evs0, k) < |r.words| && r.evs[k].lyricWord == r.words[WordOf(evs0, k)]
    {
      assert r.evs[k] == st.evs[k];
      assert r.words[WordOf(evs0, k)] == st.words[WordOf(evs0, k)];
    }
    assert Labelled(evs0, r, i);
  }

  lemma SingleRun(evs0: seq<Event>, st: JoinState, i: nat)
    requires Frame(evs0, st, i) && RunInv(evs0, st, i) && i < |evs0|
    requires IsSyllable(evs0[i]) && evs0[i].lyricPos == Some(3) && Phase(evs0, i) == Closed
    ensures JoinStep(st, i).Success? && RunInv(evs0, JoinStep(st, i).value, i + 1)
  {
    assert Tag(st.evs[i]) == Tag(evs0[i]);
    var r := JoinStep(st, i).value;
    assert r.words == st.words + [Syl(evs0[i])];
    forall k | 0 <= k < i + 1 && IsSyllable(evs0[k])
      ensures r.evs[k].Pitch? && 0 <= WordOf(evs0, k) < |r.words| && r.evs[k].lyricWord == r.words[WordOf(evs0, k)]
    {
      if k < i {
        assert r.evs[k] == st.evs[k];
        assert r.words[WordOf(evs0, k)] == st.words[WordOf(evs0, k)];
      } else {
        assert WordOf(evs0, i) == |st.words|;
      }
    }
    assert Labelled(evs0, r, i + 1);
  }

  /** Before an open word's begin, every syllable belongs to an earlier word. */
  lemma BeforeOpen(evs0: seq<Event>, st: JoinState, i: nat, s: nat, k: nat)
    requires Frame(evs0, st, i) && OpenAt(evs0, st, i, s) && k < s
    ensures WordOf(evs0, k) < |st.words| - 1
  {
    OpenersMonotone(evs0, k + 1, s);
  }

  /** From an open word's begin on, every syllable belongs to the last word. */
  lemma InOpen(evs0: seq<Event>, st: JoinState, i: nat, s: nat, k: nat)
    requires Frame(evs0, st, i) && OpenAt(evs0, st, i, s) && s <= k < i
    ensures WordOf(evs0, k) == |st.words| - 1
  {
    OpenersMonotone(evs0, s + 1, k + 1);
    OpenersMonotone(evs0, k + 1, i);
  }

  lemma MiddleRun(evs0: seq<Event>, st: JoinState, i: nat, s: nat)
    requires Frame(evs0, st, i) && RunInv(evs0, st, i) && i < |evs0|
    requires IsSyllable(evs0[i]) && evs0[i].lyricPos == Some(1) && Phase(evs0, i) == Open(s)
    ensures JoinStep(st, i).Success? && RunInv(evs0, JoinStep(st, i).value, i + 1)
  {
    assert Tag(st.evs[i]) == Tag(evs0[i]);
    assert st.words != [];
    var r := JoinStep(st, i).value;
    var n := |st.words|;
    assert r.words == st.words[..n - 1] + [st.words[n - 1] + Syl(evs0[i])];
    forall k | 0 <= k < s && IsSyllable(evs0[k])
      ensures r.evs[k].Pitch? && 0 <= WordOf(evs0, k) < |r.words| && r.evs[k].lyricWord == r.words[WordOf(evs0, k)]
    {
      BeforeOpen(evs0, st, i, s, k);
      assert r.evs[k] == st.evs[k];
      assert r.words[WordOf(evs0, k)] == st.words[WordOf(evs0, k)];
    }
    assert Labelled(evs0, r, s);
    assert OpenAt(evs0, r, i + 1, s);
  }

  lemma EndBefore(evs0: seq<Event>, st: JoinState, r: JoinState, i: nat, s: nat, k: nat)
    requires Frame(evs0, st, i) && i < |evs0| && OpenAt(evs0, st, i, s) && Labelled(evs0, st, s) && Filled(st, r, i)
    requires k < s && IsSyllable(evs0[k])
    ensures r.evs[k].Pitch? && 0 <= WordOf(evs0, k) < |r.words| && r.evs[k].lyricWord == r.words[WordOf(evs0, k)]
  {
    BeforeOpen(evs0, st, i, s, k);
    assert r.evs[k] == st.evs[k];
    assert r.words[WordOf(evs0, k)] == st.words[WordOf(evs0, k)];
  }

  lemma EndInside(evs0: seq<Event>, st: JoinState, r: JoinState, i: nat, s: nat, k: nat)
    requires Frame(evs0, st, i) && i < |evs0| && OpenAt(evs0, st, i, s) && Filled(st, r, i)
    requires IsSyllable(evs0[i]) && evs0[i].lyricPos == Some(2)
    requires s <= k <= i && IsSyllable(evs0[k])
    ensures r.evs[k].Pitch? && 0 <= WordOf(evs0, k) < |r.words| && r.evs[k].lyricWord == r.words[WordOf(evs0, k)]
  {
    assert Tag(st.evs[k]) == Tag(evs0[k]);
    if k < i {
      InOpen(evs0, st, i, s, k);
    } else {
      assert WordOf(evs0, i) == |st.words| - 1;
    }
  }

  lemma EndRun(evs0: seq<Event>, st: JoinState, i: nat, s: nat)
    requires Frame(evs0, st, i) && RunInv(evs0, st, i) && i < |evs0|
    requires IsSyllable(evs0[i]) && evs0[i].lyricPos == Some(2) && Phase(evs0, i) == Open(s)
    ensures JoinStep(st, i).Success? && RunInv(evs0, JoinStep(st, i).value, i + 1)
  {
    assert Tag(st.evs[i]) == Tag(evs0[i]);
    assert st.words != [];
    var r := JoinStep(st, i).value;
    EndBackfill(st, i);
    forall k | 0 <= k < i + 1 && IsSyllable(evs0[k])
      ensures r.evs[k].Pitch? && 0 <= WordOf(evs0, k) < |r.words| && r.evs[k].lyricWord == r.words[WordOf(evs0, k)]
    {
      if k < s {
        EndBefore(evs0, st, r, i, s, k);
      } else {
        EndInside(evs0, st, r, i, s, k);
      }
    }
    assert Labelled(evs0, r, i + 1);
  }

  lemma RunStepInv(evs0: seq<Event>, st: JoinState, i: nat)
    requires Tagged(evs0) && Inv(evs0, st, i) && RunInv(evs0, st, i) && i < |evs0|
    requires Phase(evs0, i + 1) != Broken
    ensures JoinStep(st, i).Success?
    ensures Inv(evs0, JoinStep(st, i).value, i + 1) && RunInv(evs0, JoinStep(st, i).value, i + 1)
  {
    var e := evs0[i];
    if !e.Pitch? {
      RestRun(evs0, st, i);
    } else if e.lyricPos == Some(0) {
      BeginRun(evs0, st, i);
    } else if e.lyricPos == Some(3) {
      SingleRun(evs0, st, i);
    } else if e.lyricPos == Some(1) {
      MiddleRun(evs0, st, i, Phase(evs0, i).start);
    } else {
      EndRun(evs0, st, i, Phase(evs0, i).start);
    }
    StepInv(evs0, st, i);
  }

  // ---------------------------------------------------------------------
  // The whole pass
  // ---------------------------------------------------------------------

  /** A property of the loop state that every step keeps, and under which
      every step succeeds, holds after a pass that succeeds. */
  lemma {:induction false} JoinFromTotal(P: (JoinState, nat) -> bool, st: JoinState, i: nat)
    requires i <= |st.evs| && st.wordStart <= i && st.prev <= i && P(st, i)
    requires forall s: JoinState, k: nat ::
      k < |s.evs| && s.wordStart <= k && s.prev <= k && P(s, k) ==>
        JoinStep(s, k).Success? && P(JoinStep(s, k).value, k + 1)
    ensures JoinFrom(st, i).Success? && P(JoinFrom(st, i).value, |st.evs|)
    decreases |st.evs| - i
  {
    if i < |st.evs| {
      var r := JoinStep(st, i).value;
      assert JoinFrom(st, i) == JoinFrom(r, i + 1);
      JoinFromTotal(P, r, i + 1);
    }
  }

  /** A part whose syllables form whole words is joined without failure,
      and every syllable carries the word it belongs to. */
  lemma WholeWordsJoin(evs: seq<Event>)
    requires Tagged(evs) && WholeWords(evs)
    ensures var r := JoinLyricsSpec(evs);
      r.Success? && |r.value.1| == |evs| &&
      forall k :: 0 <= k < |evs| && IsSyllable(evs[k]) ==>
        r.value.1[k].Pitch? && 0 <= WordOf(evs, k) < |r.value.0| &&
        r.value.1[k].lyricWord == r.value.0[WordOf(evs, k)]
  {
    var st := JoinState([], 0, 0, evs);
    assert Inv(evs, st, 0);
    var P := (s: JoinState, k: nat) => Inv(evs, s, k) && RunInv(evs, s, k);
    forall s: JoinState, k: nat | k < |s.evs| && s.wordStart <= k && s.prev <= k && P(s, k)
      ensures JoinStep(s, k).Success? && P(JoinStep(s, k).value, k + 1)
    {
      if Phase(evs, k + 1) == Broken {
        BrokenStays(evs, k + 1, |evs|);
      }
      RunStepInv(evs, s, k);
    }
    JoinFromTotal(P, st, 0);
    var fin := JoinFrom(st, 0).value;
    forall k | 0 <= k < |evs| && IsSyllable(evs[k])
      ensures fin.evs[k].Pitch? && 0 <= WordOf(evs, k) < |fin.words| && fin.words[WordOf(evs, k)] == fin.evs[k].lyricWord
    {
      assert IsSyllable(evs[k]);
    }
  }

  /** What the parser produces is what `join_lyrics` expects: every pitch
      has a lyric and a syllabic position. */
  lemma ParsedIsTagged(evs: seq<Event>)
    requires AllWellFormed(evs)
    ensures Tagged(evs)
  {
    forall k | 0 <= k < |evs| && evs[k].Pitch? ensures IsSyllable(evs[k]) {
      assert WellFormed(evs[k]);
    }
  }
}
