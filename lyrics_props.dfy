/** What `join_lyrics` guarantees: each syllable's character range picks
    exactly that stripped syllable out of its word, every word is the
    in-order concatenation of its stripped syllables, and, where the
    syllables form whole words, every syllable carries its finished word. */
module LyricsFacts {
  import opened Util
  import opened Score
  import opened Lyrics

  // ---------------------------------------------------------------------
  // Reference definitions over the events as parsed
  // ---------------------------------------------------------------------

  /** A pitch with a lyric and a position among begin, middle, end, single. */
  predicate IsSyllable(e: Event) {
    e.Pitch? && e.lyric.Some? && e.lyricPos.Some? && 0 <= e.lyricPos.value < 4
  }

  /** A syllable that begins a word: begin or single. */
  predicate Opens(e: Event) {
    IsSyllable(e) && (e.lyricPos.value == 0 || e.lyricPos.value == 3)
  }

  function Syl(e: Event): string
    requires e.Pitch? && e.lyric.Some?
  {
    StripWord(e.lyric.value)
  }

  /** Every pitch is a syllable (what the parser produces). */
  predicate Tagged(evs: seq<Event>) {
    forall k :: 0 <= k < |evs| && evs[k].Pitch? ==> IsSyllable(evs[k])
  }

  /** The parts of an event that `join_lyrics` only reads. */
  function Tag(e: Event): (bool, Option<string>, Option<int>) {
    if e.Pitch? then (true, e.lyric, e.lyricPos) else (false, None, None)
  }

  predicate SameTags(a: seq<Event>, b: seq<Event>) {
    |a| == |b| && forall k :: 0 <= k < |a| ==> Tag(a[k]) == Tag(b[k])
  }

  /** How many words have begun among `evs[..i]`. */
  function Openers(evs: seq<Event>, i: nat): nat
    requires i <= |evs|
  {
    if i == 0 then 0 else Openers(evs, i - 1) + (if Opens(evs[i - 1]) then 1 else 0)
  }

  /** The index of the word that syllable `k` belongs to. */
  function WordOf(evs: seq<Event>, k: nat): int
    requires k < |evs|
  {
    Openers(evs, k + 1) - 1
  }

  /** Word `j` as the concatenation of the stripped syllables among
      `evs[..i]` that belong to it. */
  function WordText(evs: seq<Event>, i: nat, j: int): string
    requires i <= |evs|
  {
    if i == 0 then ""
    else WordText(evs, i - 1, j) + (if IsSyllable(evs[i - 1]) && WordOf(evs, i - 1) == j then Syl(evs[i - 1]) else "")
  }

  /** The index of the last pitch before `i`, or 0 when there is none. */
  function PrevPitch(evs: seq<Event>, i: nat): (p: nat)
    requires i <= |evs|
    ensures i > 0 ==> p < i
  {
    if i == 0 then 0 else if evs[i - 1].Pitch? then i - 1 else PrevPitch(evs, i - 1)
  }

  /** `e`'s character range picks `s` out of `w`. */
  predicate Span(e: Event, w: string, s: string)
    requires e.Pitch?
  {
    0 <= e.lyricStartPos && e.lyricEndPos + 1 == e.lyricStartPos + |s| && e.lyricEndPos + 1 <= |w| &&
    w[e.lyricStartPos..e.lyricEndPos + 1] == s
  }

  // ---------------------------------------------------------------------
  // Small facts about the reference definitions
  // ---------------------------------------------------------------------

  lemma {:induction false} OpenersMonotone(evs: seq<Event>, a: nat, b: nat)
    requires a <= b <= |evs|
    ensures Openers(evs, a) <= Openers(evs, b)
    decreases b - a
  {
    if a < b {
      OpenersMonotone(evs, a, b - 1);
    }
  }

  lemma {:induction false} WordTextBeyond(evs: seq<Event>, i: nat, j: int)
    requires i <= |evs| && j >= Openers(evs, i)
    ensures WordText(evs, i, j) == ""
  {
    if i > 0 {
      OpenersMonotone(evs, i - 1, i);
      WordTextBeyond(evs, i - 1, j);
    }
  }

  // ---------------------------------------------------------------------
  // The loop invariant
  // ---------------------------------------------------------------------

  /** Bookkeeping: same reads as the parsed events, `prev` is the last pitch,
      one word per opener so far, the last pitch ends where the last word ends. */
  predicate Frame(evs0: seq<Event>, st: JoinState, i: nat) {
    i <= |evs0| && SameTags(st.evs, evs0) && st.wordStart <= i && st.prev <= i &&
    st.prev == PrevPitch(evs0, i) &&
    |st.words| == Openers(evs0, i) &&
    (st.words != [] ==>
       st.evs[st.prev].Pitch? && st.evs[st.prev].lyricEndPos == |st.words[|st.words| - 1]| - 1)
  }

  /** Every word so far is the concatenation of its syllables so far. */
  predicate WordsInv(evs0: seq<Event>, st: JoinState, i: nat)
    requires i <= |evs0|
  {
    forall j :: 0 <= j < |st.words| ==> st.words[j] == WordText(evs0, i, j)
  }

  /** Every syllable so far belongs to an existing word, picks itself out of
      it, and starts at 0 (begin, single) or just after the previous pitch. */
  predicate SpansInv(evs0: seq<Event>, st: JoinState, i: nat)
    requires i <= |evs0| && |st.evs| == |evs0|
  {
    forall k {:trigger IsSyllable(evs0[k])} :: 0 <= k < i && IsSyllable(evs0[k]) ==>
      st.evs[k].Pitch? &&
      0 <= WordOf(evs0, k) < |st.words| &&
      Span(st.evs[k], st.words[WordOf(evs0, k)], Syl(evs0[k])) &&
      (if Opens(evs0[k]) then st.evs[k].lyricStartPos == 0
       else st.evs[PrevPitch(evs0, k)].Pitch? &&
            st.evs[k].lyricStartPos == st.evs[PrevPitch(evs0, k)].lyricEndPos + 1)
  }

  predicate Inv(evs0: seq<Event>, st: JoinState, i: nat) {
    Frame(evs0, st, i) && WordsInv(evs0, st, i) && SpansInv(evs0, st, i)
  }

  /** `b` is `a` with, at most, the character range of event `i` changed and
      lyric words written; what `join_lyrics` reads is the same. */
  predicate Keeps(a: seq<Event>, b: seq<Event>, i: nat) {
    |a| == |b| &&
    forall k :: 0 <= k < |a| ==>
      Tag(b[k]) == Tag(a[k]) &&
      (k != i && a[k].Pitch? ==> b[k].lyricStartPos == a[k].lyricStartPos && b[k].lyricEndPos == a[k].lyricEndPos)
  }

  /** The step at `i` as a relation between the states before and after. */
  lemma StepShape(st: JoinState, i: nat)
    requires i < |st.evs| && st.wordStart <= i && st.prev <= i
    requires JoinStep(st, i).Success?
    ensures var r := JoinStep(st, i).value;
      Keeps(st.evs, r.evs, i) && r.wordStart <= i &&
      (!st.evs[i].Pitch? ==> r == st) &&
      (st.evs[i].Pitch? ==> r.prev == i) &&
      (st.evs[i].Pitch? && !(st.evs[i].lyric.Some? && st.evs[i].lyricPos.Some? && 0 <= st.evs[i].lyricPos.value < 4) ==>
         r == st.(prev := i)) &&
      (st.evs[i].Pitch? && st.evs[i].lyric.Some? && st.evs[i].lyricPos.Some? &&
       (st.evs[i].lyricPos.value == 0 || st.evs[i].lyricPos.value == 3) ==>
         var l := StripWord(st.evs[i].lyric.value);
         r.words == st.words + [l] && r.evs[i].Pitch? &&
         r.evs[i].lyricStartPos == 0 && r.evs[i].lyricEndPos == |l| - 1 &&
         r.wordStart == (if st.evs[i].lyricPos.value == 0 then i else st.wordStart) &&
         (st.evs[i].lyricPos.value == 3 ==> r.evs[i].lyricWord == l)) &&
      (st.evs[i].Pitch? && st.evs[i].lyric.Some? && st.evs[i].lyricPos.Some? &&
       (st.evs[i].lyricPos.value == 1 || st.evs[i].lyricPos.value == 2) ==>
         var l := StripWord(st.evs[i].lyric.value);
         st.words != [] && st.evs[st.prev].Pitch? &&
         r.words == st.words[..|st.words| - 1] + [st.words[|st.words| - 1] + l] && r.evs[i].Pitch? &&
         r.evs[i].lyricStartPos == st.evs[st.prev].lyricEndPos + 1 &&
         r.evs[i].lyricEndPos == r.evs[i].lyricStartPos + |l| - 1)
  {
  }

  /** `b` has the events of `a`: the same rests and pitches, with the same
      durations, degrees and octaves. */
  predicate SameNotes(a: seq<Event>, b: seq<Event>) {
    |a| == |b| &&
    forall k :: 0 <= k < |a| ==>
      b[k].Pitch? == a[k].Pitch? && b[k].duration == a[k].duration &&
      (a[k].Pitch? ==> b[k].degree == a[k].degree && b[k].octave == a[k].octave)
  }

  /** One iteration leaves every note as it was. */
  lemma StepNotes(st: JoinState, i: nat)
    requires i < |st.evs| && st.wordStart <= i && st.prev <= i
    requires JoinStep(st, i).Success?
    ensures SameNotes(st.evs, JoinStep(st, i).value.evs)
  {
    var r := JoinStep(st, i).value;
    forall k | 0 <= k < |st.evs|
      ensures r.evs[k].Pitch? == st.evs[k].Pitch? && r.evs[k].duration == st.evs[k].duration &&
              (st.evs[k].Pitch? ==> r.evs[k].degree == st.evs[k].degree && r.evs[k].octave == st.evs[k].octave)
    {
    }
  }

  /** `join_lyrics` changes only lyric words and character ranges: the
      notes it returns are the notes it was given. */
  lemma {:induction false} JoinFromNotes(st: JoinState, i: nat)
    requires i <= |st.evs| && st.wordStart <= i && st.prev <= i
    ensures JoinFrom(st, i).Success? ==> SameNotes(st.evs, JoinFrom(st, i).value.evs)
    decreases |st.evs| - i
  {
    if i < |st.evs| && JoinStep(st, i).Success? {
      var r := JoinStep(st, i).value;
      StepNotes(st, i);
      JoinFromNotes(r, i + 1);
    }
  }

  /** An earlier word only ever grows at its end, so earlier ranges still pick
      out the same text. */
  lemma SpanExtends(e: Event, w: string, s: string, x: string)
    requires e.Pitch? && Span(e, w, s)
    ensures Span(e, w + x, s)
  {
    assert (w + x)[e.lyricStartPos..e.lyricEndPos + 1] == w[e.lyricStartPos..e.lyricEndPos + 1];
  }

  lemma RestCase(evs0: seq<Event>, st: JoinState, i: nat)
    requires Inv(evs0, st, i) && i < |evs0| && !evs0[i].Pitch?
    ensures Inv(evs0, st, i + 1)
  {
    forall j | 0 <= j < |st.words| ensures st.words[j] == WordText(evs0, i + 1, j) {
    }
  }

  lemma OpenWords(evs0: seq<Event>, st: JoinState, r: JoinState, i: nat)
    requires Inv(evs0, st, i) && i < |evs0| && Opens(evs0[i])
    requires r.words == st.words + [Syl(evs0[i])]
    ensures WordsInv(evs0, r, i + 1)
  {
    WordTextBeyond(evs0, i, |st.words|);
    forall j | 0 <= j < |r.words| ensures r.words[j] == WordText(evs0, i + 1, j) {
    }
  }

  /** An opening syllable at `i` as a step from `st` to `r`. */
  predicate OpenStep(evs0: seq<Event>, st: JoinState, r: JoinState, i: nat) {
    Inv(evs0, st, i) && i < |evs0| && Opens(evs0[i]) &&
    r.words == st.words + [Syl(evs0[i])] &&
    Keeps(st.evs, r.evs, i) && r.evs[i].Pitch? &&
    r.evs[i].lyricStartPos == 0 && r.evs[i].lyricEndPos == |Syl(evs0[i])| - 1
  }

  /** A syllable before `i` keeps its range, its word and its start. */
  lemma OpenEarlier(evs0: seq<Event>, st: JoinState, r: JoinState, i: nat, k: nat)
    requires OpenStep(evs0, st, r, i) && k < i && IsSyllable(evs0[k])
    ensures r.evs[k].Pitch? && 0 <= WordOf(evs0, k) < |r.words| &&
            Span(r.evs[k], r.words[WordOf(evs0, k)], Syl(evs0[k])) &&
            (if Opens(evs0[k]) then r.evs[k].lyricStartPos == 0
             else r.evs[PrevPitch(evs0, k)].Pitch? &&
                  r.evs[k].lyricStartPos == r.evs[PrevPitch(evs0, k)].lyricEndPos + 1)
  {
    assert Tag(r.evs[k]) == Tag(st.evs[k]);
    assert r.words[WordOf(evs0, k)] == st.words[WordOf(evs0, k)];
    if !Opens(evs0[k]) {
      var p := PrevPitch(evs0, k);
      assert Tag(r.evs[p]) == Tag(st.evs[p]);
    }
  }

  /** The opening syllable is the whole of its new word. */
  lemma OpenHere(evs0: seq<Event>, st: JoinState, r: JoinState, i: nat)
    requires OpenStep(evs0, st, r, i)
    ensures 0 <= WordOf(evs0, i) < |r.words| && Span(r.evs[i], r.words[WordOf(evs0, i)], Syl(evs0[i]))
  {
    var l := Syl(evs0[i]);
    assert r.words[WordOf(evs0, i)] == l;
    assert l[0..|l|] == l;
  }

  lemma OpenSpans(evs0: seq<Event>, st: JoinState, r: JoinState, i: nat)
    requires OpenStep(evs0, st, r, i)
    ensures SpansInv(evs0, r, i + 1)
  {
    forall k | 0 <= k < i + 1 && IsSyllable(evs0[k])
      ensures r.evs[k].Pitch? && 0 <= WordOf(evs0, k) < |r.words| &&
              Span(r.evs[k], r.words[WordOf(evs0, k)], Syl(evs0[k])) &&
              (if Opens(evs0[k]) then r.evs[k].lyricStartPos == 0
               else r.evs[PrevPitch(evs0, k)].Pitch? &&
                    r.evs[k].lyricStartPos == r.evs[PrevPitch(evs0, k)].lyricEndPos + 1)
    {
      if k < i {
        OpenEarlier(evs0, st, r, i, k);
      } else {
        OpenHere(evs0, st, r, i);
      }
    }
  }

  lemma ContinueWords(evs0: seq<Event>, st: JoinState, r: JoinState, i: nat)
    requires Inv(evs0, st, i) && i < |evs0| && IsSyllable(evs0[i]) && !Opens(evs0[i]) && st.words != []
    requires r.words == st.words[..|st.words| - 1] + [st.words[|st.words| - 1] + Syl(evs0[i])]
    ensures WordsInv(evs0, r, i + 1)
  {
    assert WordOf(evs0, i) == |st.words| - 1;
    forall j | 0 <= j < |r.words| ensures r.words[j] == WordText(evs0, i + 1, j) {
    }
  }

  /** The conditions `ContinueSpans` needs of the step. */
  predicate ContinueStep(evs0: seq<Event>, st: JoinState, r: JoinState, i: nat)
    requires i < |evs0| && IsSyllable(evs0[i])
  {
    st.words != [] && |st.evs| == |evs0| &&
    r.words == st.words[..|st.words| - 1] + [st.words[|st.words| - 1] + Syl(evs0[i])] &&
    Keeps(st.evs, r.evs, i) && r.evs[i].Pitch? && st.prev < i && st.evs[st.prev].Pitch? &&
    r.evs[i].lyricStartPos == st.evs[st.prev].lyricEndPos + 1 &&
    r.evs[i].lyricEndPos == r.evs[i].lyricStartPos + |Syl(evs0[i])| - 1
  }

  /** A syllable before `i` keeps its range, and its word at most grows. */
  lemma ContinueEarlier(evs0: seq<Event>, st: JoinState, r: JoinState, i: nat, k: nat)
    requires Inv(evs0, st, i) && i < |evs0| && IsSyllable(evs0[i]) && !Opens(evs0[i])
    requires ContinueStep(evs0, st, r, i)
    requires k < i && IsSyllable(evs0[k])
    ensures r.evs[k].Pitch? && 0 <= WordOf(evs0, k) < |r.words| &&
            Span(r.evs[k], r.words[WordOf(evs0, k)], Syl(evs0[k])) &&
            (if Opens(evs0[k]) then r.evs[k].lyricStartPos == 0
             else r.evs[PrevPitch(evs0, k)].Pitch? &&
                  r.evs[k].lyricStartPos == r.evs[PrevPitch(evs0, k)].lyricEndPos + 1)
  {
    var n := |st.words|;
    assert Tag(r.evs[k]) == Tag(st.evs[k]);
    var j := WordOf(evs0, k);
    if j == n - 1 {
      assert r.words[j] == st.words[n - 1] + Syl(evs0[i]);
      SpanExtends(st.evs[k], st.words[n - 1], Syl(evs0[k]), Syl(evs0[i]));
    } else {
      assert r.words[j] == st.words[j];
    }
    if !Opens(evs0[k]) {
      var p := PrevPitch(evs0, k);
      assert Tag(r.evs[p]) == Tag(st.evs[p]);
    }
  }

  /** The syllable at `i` picks itself out of the end of the last word. */
  lemma ContinueHere(evs0: seq<Event>, st: JoinState, r: JoinState, i: nat)
    requires Inv(evs0, st, i) && i < |evs0| && IsSyllable(evs0[i]) && !Opens(evs0[i])
    requires ContinueStep(evs0, st, r, i)
    ensures 0 <= WordOf(evs0, i) < |r.words| &&
            Span(r.evs[i], r.words[WordOf(evs0, i)], Syl(evs0[i])) &&
            r.evs[PrevPitch(evs0, i)].Pitch? &&
            r.evs[i].lyricStartPos == r.evs[PrevPitch(evs0, i)].lyricEndPos + 1
  {
    var l := Syl(evs0[i]);
    var n := |st.words|;
    var last := st.words[n - 1];
    assert WordOf(evs0, i) == n - 1;
    assert Tag(r.evs[st.prev]) == Tag(st.evs[st.prev]);
    assert r.evs[i].lyricStartPos == |last|;
    assert r.words[n - 1] == last + l;
    assert (last + l)[|last|..|last| + |l|] == l;
  }

  lemma ContinueSpans(evs0: seq<Event>, st: JoinState, r: JoinState, i: nat)
    requires Inv(evs0, st, i) && i < |evs0| && IsSyllable(evs0[i]) && !Opens(evs0[i])
    requires ContinueStep(evs0, st, r, i)
    ensures SpansInv(evs0, r, i + 1)
  {
    forall k | 0 <= k < i + 1 && IsSyllable(evs0[k])
      ensures r.evs[k].Pitch? && 0 <= WordOf(evs0, k) < |r.words| &&
              Span(r.evs[k], r.words[WordOf(evs0, k)], Syl(evs0[k])) &&
              (if Opens(evs0[k]) then r.evs[k].lyricStartPos == 0
               else r.evs[PrevPitch(evs0, k)].Pitch? &&
                    r.evs[k].lyricStartPos == r.evs[PrevPitch(evs0, k)].lyricEndPos + 1)
    {
      if k < i {
        ContinueEarlier(evs0, st, r, i, k);
      } else {
        ContinueHere(evs0, st, r, i);
      }
    }
  }

  lemma TagsCarry(evs0: seq<Event>, st: JoinState, r: JoinState, i: nat)
    requires SameTags(st.evs, evs0) && Keeps(st.evs, r.evs, i)
    ensures SameTags(r.evs, evs0)
  {
    forall k | 0 <= k < |r.evs| ensures Tag(r.evs[k]) == Tag(evs0[k]) {
      assert Tag(r.evs[k]) == Tag(st.evs[k]);
    }
  }

  lemma OpenFrame(evs0: seq<Event>, st: JoinState, r: JoinState, i: nat)
    requires Frame(evs0, st, i) && i < |evs0| && Opens(evs0[i])
    requires r.words == st.words + [Syl(evs0[i])] && r.prev == i && r.wordStart <= i
    requires Keeps(st.evs, r.evs, i) && r.evs[i].Pitch? && r.evs[i].lyricEndPos == |Syl(evs0[i])| - 1
    ensures Frame(evs0, r, i + 1)
  {
    TagsCarry(evs0, st, r, i);
  }

  lemma ContinueFrame(evs0: seq<Event>, st: JoinState, r: JoinState, i: nat)
    requires Frame(evs0, st, i) && i < |evs0| && IsSyllable(evs0[i]) && !Opens(evs0[i]) && st.words != []
    requires r.words == st.words[..|st.words| - 1] + [st.words[|st.words| - 1] + Syl(evs0[i])]
    requires r.prev == i && r.wordStart <= i
    requires Keeps(st.evs, r.evs, i) && r.evs[i].Pitch?
    requires r.evs[i].lyricStartPos == st.evs[st.prev].lyricEndPos + 1
    requires r.evs[i].lyricEndPos == r.evs[i].lyricStartPos + |Syl(evs0[i])| - 1
    ensures Frame(evs0, r, i + 1)
  {
    TagsCarry(evs0, st, r, i);
  }

  lemma StepInv(evs0: seq<Event>, st: JoinState, i: nat)
    requires Tagged(evs0) && Inv(evs0, st, i) && i < |evs0|
    requires JoinStep(st, i).Success?
    ensures Inv(evs0, JoinStep(st, i).value, i + 1)
  {
    var r := JoinStep(st, i).value;
    assert Tag(st.evs[i]) == Tag(evs0[i]);
    StepShape(st, i);
    if !evs0[i].Pitch? {
      RestCase(evs0, st, i);
    } else if Opens(evs0[i]) {
      OpenFrame(evs0, st, r, i);
      OpenWords(evs0, st, r, i);
      OpenSpans(evs0, st, r, i);
    } else {
      ContinueFrame(evs0, st, r, i);
      ContinueWords(evs0, st, r, i);
      ContinueSpans(evs0, st, r, i);
    }
  }

  /** Any property of the loop state that every step keeps holds after the
      last step. */
  lemma {:induction false} JoinFromKeeps(P: (JoinState, nat) -> bool, st: JoinState, i: nat)
    requires i <= |st.evs| && st.wordStart <= i && st.prev <= i && P(st, i)
    requires forall s: JoinState, k: nat ::
      k < |s.evs| && s.wordStart <= k && s.prev <= k && P(s, k) && JoinStep(s, k).Success? ==>
        P(JoinStep(s, k).value, k + 1)
    ensures JoinFrom(st, i).Success? ==> P(JoinFrom(st, i).value, |st.evs|)
    decreases |st.evs| - i
  {
    if i < |st.evs| && JoinStep(st, i).Success? {
      var r := JoinStep(st, i).value;
      assert JoinFrom(st, i) == JoinFrom(r, i + 1);
      JoinFromKeeps(P, r, i + 1);
    }
  }

  /** When every pitch is a syllable, a successful `join_lyrics` returns one
      word per begin or single, each the concatenation of its stripped
      syllables in order; each syllable's range `[start, end]` picks exactly
      that stripped syllable out of its word; a begin or single starts at 0, a
      middle or end just after the previous pitch's end; and what
      `join_lyrics` only reads is unchanged. */
  lemma JoinLyricsCorrect(evs: seq<Event>)
    requires Tagged(evs)
    ensures var r := JoinLyricsSpec(evs);
      r.Success? ==>
        var (words, out) := r.value;
        SameTags(out, evs) && SameNotes(evs, out) &&
        |words| == Openers(evs, |evs|) &&
        (forall j :: 0 <= j < |words| ==> words[j] == WordText(evs, |evs|, j)) &&
        (forall k :: 0 <= k < |evs| && IsSyllable(evs[k]) ==>
           out[k].Pitch? && 0 <= WordOf(evs, k) < |words| &&
           Span(out[k], words[WordOf(evs, k)], Syl(evs[k])) &&
           (if Opens(evs[k]) then out[k].lyricStartPos == 0
            else out[PrevPitch(evs, k)].Pitch? &&
                 out[k].lyricStartPos == out[PrevPitch(evs, k)].lyricEndPos + 1))
  {
    var st := JoinState([], 0, 0, evs);
    assert Inv(evs, st, 0);
    var P := (s: JoinState, k: nat) => Inv(evs, s, k);
    forall s: JoinState, k: nat | k < |s.evs| && s.wordStart <= k && s.prev <= k && P(s, k) && JoinStep(s, k).Success?
      ensures P(JoinStep(s, k).value, k + 1)
    {
      StepInv(evs, s, k);
    }
    JoinFromKeeps(P, st, 0);
    JoinFromNotes(st, 0);
  }

  /** Every word `join_lyrics` returns is already stripped. */
  lemma JoinedWordsStripped(evs: seq<Event>, i: nat, j: int)
    requires i <= |evs|
    ensures IsStripped(WordText(evs, i, j))
  {
    if i > 0 {
      JoinedWordsStripped(evs, i - 1, j);
    }
  }
}
