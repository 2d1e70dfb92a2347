/** What each later stage of main.py can rely on from the stage before it:
    the parsed parts are what the empty-lyric check and `join_lyrics` expect,
    and the events `join_lyrics` returns still slice. */
module PipelineFacts {
  import opened Util
  import opened Score
  import opened Lyrics
  import opened LyricsFacts
  import LyricRuns
  import Dict
  import ScoreFacts
  import Render

  /** Over a parsed score, the parts the empty-lyric check scans
      (`events.values()`, in insertion order) are what `join_lyrics`
      expects, and the check stops the run exactly at a pitch whose lyric
      text is the empty string: a missing lyric cannot reach it. */
  lemma ParsedLyricsChecked(doc: Doc, names: seq<string>)
    requires EventsFromMxml(doc, names).Success?
    ensures var parts: seq<seq<Event>> := Dict.Values(EventsFromMxml(doc, names).value);
      forall p :: 0 <= p < |parts| ==>
        Tagged(parts[p]) &&
        forall i :: 0 <= i < |parts[p]| ==>
          (EmptyLyric(parts[p][i]) <==> parts[p][i].Pitch? && parts[p][i].lyric == Some(""))
  {
    ScoreFacts.EventsFromMxmlFacts(doc, names);
    var d := EventsFromMxml(doc, names).value;
    var parts: seq<seq<Event>> := Dict.Values(d);
    forall p | 0 <= p < |parts|
      ensures Tagged(parts[p]) &&
        forall i :: 0 <= i < |parts[p]| ==>
          (EmptyLyric(parts[p][i]) <==> parts[p][i].Pitch? && parts[p][i].lyric == Some(""))
    {
      assert parts[p] == d[p].1;
      assert AllWellFormed(parts[p]);
      LyricRuns.ParsedIsTagged(parts[p]);
      forall i | 0 <= i < |parts[p]|
        ensures EmptyLyric(parts[p][i]) <==> parts[p][i].Pitch? && parts[p][i].lyric == Some("")
      {
        assert WellFormed(parts[p][i]);
      }
    }
  }

  /** The events the tuning loop slices are those `join_lyrics` returns for
      a parsed part: each of their pitches slices without failure too. */
  lemma JoinedEventSlices(y: seq<int>, evs: seq<Event>, k: nat)
    requires AllWellFormed(evs) && JoinLyricsSpec(evs).Success? && k < |evs|
    ensures var out := JoinLyricsSpec(evs).value.1;
      k < |out| && (out[k].Pitch? ==> Render.Slices(y, out[k].duration, out[k].degree, out[k].octave).Success?)
  {
    JoinFromNotes(JoinState([], 0, 0, evs), 0);
    if evs[k].Pitch? {
      Render.ParsedEventSlices(y, evs[k]);
    }
  }
}
