/** The lyric stage of main.py: the empty-lyric check over every part and
    `join_lyrics`, which rebuilds whole words from syllables and writes each
    syllable's character range (in the stripped word) onto its event. */
module Lyrics {
  import opened Util
  import opened Score

  /** A pitch whose lyric is missing or empty. */
  predicate EmptyLyric(e: Event) {
    e.Pitch? && (e.lyric.None? || e.lyric.value == "")
  }

  /** The check run over every part before lyrics are joined: it stops the
      run if any pitch has an empty lyric. Each part is scanned from its
      last event to its first. */
  method CheckLyrics(parts: seq<seq<Event>>) returns (r: Outcome)
    ensures r.Pass? <==> forall p, i :: 0 <= p < |parts| && 0 <= i < |parts[p]| ==> !EmptyLyric(parts[p][i])
    ensures r.Fail? ==> r.error == Fatal("empty lyric")
  {
    var p := 0;
    while p < |parts|
      invariant p <= |parts|
      invariant forall q, i :: 0 <= q < p && 0 <= i < |parts[q]| ==> !EmptyLyric(parts[q][i])
    {
      var evs := parts[p];
      var i := |evs| - 1;
      while i >= 0
        invariant -1 <= i < |evs|
        invariant forall k :: i < k < |evs| ==> !EmptyLyric(evs[k])
      {
        if EmptyLyric(evs[i]) {
          return Fail(Fatal("empty lyric"));
        }
        i := i - 1;
      }
      p := p + 1;
    }
    return Pass;
  }

  // ---------------------------------------------------------------------
  // join_lyrics as a function of the event list
  // ---------------------------------------------------------------------

  /** The loop state of `join_lyrics`: the words so far, the index of the
      event that began the current word, the index of the last pitch seen,
      and the (partly annotated) events. */
  datatype JoinState = JoinState(words: seq<string>, wordStart: nat, prev: nat, evs: seq<Event>)

  /** Assigning `lyric_word`; on a rest this adds the attribute. */
  function SetWord(e: Event, w: string): (r: Event)
    ensures r.Pitch? <==> e.Pitch?
    ensures r.duration == e.duration
    ensures r.Pitch? ==> r == e.(lyricWord := w)
    ensures r.Rest? ==> r == e.(strayWord := Some(w))
  {
    match e
    case Rest(d, _) => Rest(d, Some(w))
    case Pitch(d, deg, oct, l, p, _, s, t) => Pitch(d, deg, oct, l, p, w, s, t)
  }

  /** The back-fill of a finished word onto `evs[lo..hi]`. */
  function Backfill(evs: seq<Event>, lo: nat, hi: nat, w: string): (r: seq<Event>)
    ensures |r| == |evs|
    ensures forall k :: 0 <= k < |evs| ==> r[k] == if lo <= k < hi then SetWord(evs[k], w) else evs[k]
  {
    seq(|evs|, k requires 0 <= k < |evs| => if lo <= k < hi then SetWord(evs[k], w) else evs[k])
  }

  /** One iteration of `join_lyrics`, at event `i`. */
  function JoinStep(st: JoinState, i: nat): (r: Result<JoinState>)
    requires i < |st.evs| && st.wordStart <= i && st.prev <= i
    ensures r.Success? ==> |r.value.evs| == |st.evs| && r.value.wordStart <= i && r.value.prev <= i
  {
    var e := st.evs[i];
    if !e.Pitch? then Success(st)
    else if e.lyric.None? then Success(st.(prev := i))
    else
      var l := StripWord(e.lyric.value);
      if e.lyricPos == Some(0) then
        Success(JoinState(st.words + [l], i, i, st.evs[i := e.(lyricStartPos := 0, lyricEndPos := |l| - 1)]))
      else if e.lyricPos == Some(3) then
        Success(JoinState(st.words + [l], st.wordStart, i,
                          st.evs[i := e.(lyricWord := l, lyricStartPos := 0, lyricEndPos := |l| - 1)]))
      else if e.lyricPos == Some(1) || e.lyricPos == Some(2) then
        if st.words == [] then Failure(Crash("IndexError"))
        else
          var w := st.words[|st.words| - 1] + l;
          var words := st.words[..|st.words| - 1] + [w];
          var p := st.evs[st.prev];
          if !p.Pitch? then Failure(Crash("AttributeError"))
          else
            var start := p.lyricEndPos + 1;
            var evs := st.evs[i := e.(lyricStartPos := start, lyricEndPos := |l| + start - 1)];
            if e.lyricPos == Some(1) then Success(JoinState(words, st.wordStart, i, evs))
            else Success(JoinState(words, st.wordStart, i, Backfill(evs, st.wordStart, i + 1, w)))
      else
        Success(st.(prev := i))
  }

  /** The iterations from event `i` to the end. */
  function JoinFrom(st: JoinState, i: nat): Result<JoinState>
    requires i <= |st.evs| && st.wordStart <= i && st.prev <= i
    decreases |st.evs| - i
  {
    if i == |st.evs| then Success(st)
    else
      var st' :- JoinStep(st, i);
      JoinFrom(st', i + 1)
  }

  /** `join_lyrics`: the words of a part and its annotated events. */
  function JoinLyricsSpec(evs: seq<Event>): Result<(seq<string>, seq<Event>)> {
    var st :- JoinFrom(JoinState([], 0, 0, evs), 0);
    Success((st.words, st.evs))
  }

  /** The back-fill loop: `lyric_word` of every event in `evs[lo..hi]`
      becomes `w`. */
  method FillWord(evs: array<Event>, lo: nat, hi: nat, w: string)
    requires lo <= hi <= evs.Length
    modifies evs
    ensures evs[..] == Backfill(old(evs[..]), lo, hi, w)
  {
    var j := lo;
    while j < hi
      invariant lo <= j <= hi
      invariant forall k :: 0 <= k < evs.Length ==>
        evs[k] == if lo <= k < j then SetWord(old(evs[k]), w) else old(evs[k])
    {
      evs[j] := SetWord(evs[j], w);
      j := j + 1;
    }
  }

  /** `join_lyrics` as the source runs it, annotating the events in place. */
  method JoinLyrics(evs: array<Event>) returns (r: Result<seq<string>>)
    modifies evs
    ensures var s := JoinLyricsSpec(old(evs[..]));
      (r.Success? <==> s.Success?) &&
      (r.Success? ==> r.value == s.value.0 && evs[..] == s.value.1) &&
      (r.Failure? ==> r.error == s.error)
  {
    var words: seq<string> := [];
    var wordStart, prev := 0, 0;
    var i := 0;
    while i < evs.Length
      invariant i <= evs.Length && wordStart <= i && prev <= i
      invariant JoinFrom(JoinState(words, wordStart, prev, evs[..]), i) == JoinFrom(JoinState([], 0, 0, old(evs[..])), 0)
    {
      ghost var st := JoinState(words, wordStart, prev, evs[..]);
      var e := evs[i];
      if e.Pitch? {
        if e.lyric.Some? {
          var l := StripWord(e.lyric.value);
          if e.lyricPos == Some(0) {
            words := words + [l];
            wordStart := i;
            evs[i] := e.(lyricStartPos := 0, lyricEndPos := |l| - 1);
          } else if e.lyricPos == Some(3) {
            words := words + [l];
            evs[i] := e.(lyricWord := l, lyricStartPos := 0, lyricEndPos := |l| - 1);
          } else if e.lyricPos == Some(1) || e.lyricPos == Some(2) {
            if words == [] {
              return Failure(Crash("IndexError"));
            }
            words := words[..|words| - 1] + [words[|words| - 1] + l];
            var p := evs[prev];
            if !p.Pitch? {
              return Failure(Crash("AttributeError"));
            }
            var start := p.lyricEndPos + 1;
            evs[i] := e.(lyricStartPos := start, lyricEndPos := |l| + start - 1);
            if e.lyricPos == Some(2) {
              FillWord(evs, wordStart, i + 1, words[|words| - 1]);
            }
          }
        }
        prev := i;
      }
      assert JoinStep(st, i) == Success(JoinState(words, wordStart, prev, evs[..]));
      i := i + 1;
    }
    return Success(words);
  }
}
