/** The score-event builder (parse_mxml.py): turns an already-parsed
    MusicXML `score-partwise` tree into one list of note events per
    requested part. */
module Score {
  import opened Util
  import Dict

  // ---------------------------------------------------------------------
  // The parsed document. Only the elements the builder looks at are kept.
  // ---------------------------------------------------------------------

  /** An element that is present; its text may be absent (`el.text is None`).
      Integer texts are given already converted. */
  datatype Elem<T> = Elem(text: Option<T>)

  datatype PitchEl = PitchEl(step: Option<Elem<string>>, alter: Option<Elem<int>>, octave: Option<Elem<int>>)

  datatype LyricEl = LyricEl(text: Option<Elem<string>>, syllabic: Option<Elem<string>>)

  /** A `<note>`: its `<duration>`, whether it has `<rest>`, its `<pitch>` and its `<lyric>`. */
  datatype NoteEl = NoteEl(duration: Option<Elem<int>>, rest: bool, pitch: Option<PitchEl>, lyric: Option<LyricEl>)

  /** A `<measure>`: `attributes/divisions`, the `sound@tempo` of each of its
      `<direction>`s in document order (None for a direction without one), and its notes. */
  datatype Measure = Measure(divisions: Option<Elem<int>>, tempos: seq<Option<int>>, notes: seq<NoteEl>)

  datatype Part = Part(id: Option<string>, measures: seq<Measure>)

  /** A `<score-part>` of the part list; `name` is the text of its `<part-name>`, if any. */
  datatype ScorePart = ScorePart(id: Option<string>, name: Option<string>)

  datatype Doc = Doc(tag: string, version: Option<string>, partList: Option<seq<ScorePart>>, parts: seq<Part>)

  // ---------------------------------------------------------------------
  // Note events
  // ---------------------------------------------------------------------

  /** `Rest` and `Pitch`, both with millisecond durations. A pitch carries one
      duration, degree and octave per tied sub-note. `lyricWord`,
      `lyricStartPos` and `lyricEndPos` are filled in by the lyric assembler;
      a rest carries no lyric word until that assembler's back-fill writes one
      onto it (`strayWord`). */
  datatype Event =
    | Rest(duration: seq<real>, strayWord: Option<string>)
    | Pitch(duration: seq<real>, degree: seq<int>, octave: seq<int>,
            lyric: Option<string>, lyricPos: Option<int>,
            lyricWord: string, lyricStartPos: int, lyricEndPos: int)

  /** The tempo in force before any `sound@tempo` is read, in beats per minute. */
  const DefaultTempo: int := 126

  /** Added to every written octave; reading `clef-octave-change` is disabled in the source. */
  const OctaveChange: int := -1

  const Syllabics: seq<string> := ["begin", "middle", "end", "single"]

  /** The chromatic degree of a natural step (A = 0); None where the table has no entry. */
  function StepDegree(step: string): (d: Option<int>)
    ensures d.Some? <==> step in {"A", "B", "C", "D", "E", "F", "G"}
    ensures d.Some? ==> 0 <= d.value < 12
  {
    match step
    case "A" => Some(0)
    case "B" => Some(2)
    case "C" => Some(3)
    case "D" => Some(5)
    case "E" => Some(7)
    case "F" => Some(8)
    case "G" => Some(10)
    case _ => None
  }

  /** `["begin", "middle", "end", "single"].index(s)`, None where it raises. */
  function SyllabicIndex(s: string): (k: Option<int>)
    ensures k.Some? ==> 0 <= k.value < 4 && Syllabics[k.value] == s
    ensures k.None? ==> s !in Syllabics
  {
    if s == "begin" then Some(0)
    else if s == "middle" then Some(1)
    else if s == "end" then Some(2)
    else if s == "single" then Some(3)
    else None
  }

  /** A note's duration in milliseconds: its division count over the
      divisions per quarter note, times 60000 over the tempo. */
  function ReadDuration(n: NoteEl, divisions: int, tempo: int): (r: Result<real>)
    ensures r.Success? <==> n.duration.Some? && n.duration.value.text.Some? && divisions != 0 && tempo != 0
    ensures n.duration.None? ==> r == Failure(Fatal("none"))
    ensures n.duration.Some? && n.duration.value.text.None? ==> r == Failure(Fatal("text is None"))
    ensures n.duration.Some? && n.duration.value.text.Some? && (divisions == 0 || tempo == 0) ==>
      r == Failure(Crash("ZeroDivisionError"))
  {
    var el :- NotNone(n.duration);
    if el.text.None? then Failure(Fatal("text is None"))
    else if divisions == 0 || tempo == 0 then Failure(Crash("ZeroDivisionError"))
    else Success((el.text.value as real) / (divisions as real) * 60000.0 / (tempo as real))
  }

  /** The duration read, times the divisions per quarter note and the tempo,
      is the division count times 60000: a quarter note (`divisions` counts)
      at tempo `t` lasts 60000 / `t` milliseconds. */
  lemma DurationMs(n: NoteEl, divisions: int, tempo: int)
    requires ReadDuration(n, divisions, tempo).Success?
    ensures ReadDuration(n, divisions, tempo).value * (divisions as real) * (tempo as real) ==
            (n.duration.value.text.value as real) * 60000.0
  {
    var d := n.duration.value.text.value as real;
    var q := divisions as real;
    var t := tempo as real;
    assert d / q * q == d;
    assert (d / q * 60000.0 / t) * t == d / q * 60000.0;
  }

  /** The pitch of a note as (degree, octave): degree from the step table plus
      `alter`, modulo 12; octave as written plus the octave change. */
  function ReadPitch(p: PitchEl): (r: Result<(int, int)>)
    ensures r.Success? ==> 0 <= r.value.0 < 12
    ensures r.Success? ==>
      p.step.Some? && p.step.value.text.Some? && StepDegree(p.step.value.text.value).Some? &&
      p.octave.Some? && p.octave.value.text.Some? && r.value.1 == p.octave.value.text.value - 1
    ensures r.Success? && p.alter.Some? ==> p.alter.value.text.Some?
    ensures r.Success? ==>
      r.value.0 == (StepDegree(p.step.value.text.value).value + (if p.alter.Some? then p.alter.value.text.value else 0)) % 12
    ensures p.alter.Some? && p.alter.value.text.None? ==> r == Failure(Crash("TypeError"))
    ensures (p.alter.None? || p.alter.value.text.Some?) && p.step.None? ==> r == Failure(Fatal("none"))
    ensures (p.alter.None? || p.alter.value.text.Some?) && p.step.Some? && p.step.value.text.None? ==>
      r == Failure(Crash("KeyError"))
    ensures ((p.alter.None? || p.alter.value.text.Some?) && p.step.Some? && p.step.value.text.Some? &&
             StepDegree(p.step.value.text.value).None?) ==> r == Failure(Crash("KeyError"))
  {
    var alter :- match p.alter
      case None => Success(0)
      case Some(a) => if a.text.None? then Failure(Crash("TypeError")) else Success(a.text.value);
    var stepEl :- NotNone(p.step);
    var base :- if stepEl.text.Some? && StepDegree(stepEl.text.value).Some?
      then Success(StepDegree(stepEl.text.value).value) else Failure(Crash("KeyError"));
    var octEl :- NotNone(p.octave);
    if octEl.text.None? then Failure(Fatal("no octave text"))
    else Success(((base + alter) % 12, octEl.text.value + OctaveChange))
  }

  /** The lyric of a note as (text, position): position is the index of the
      `syllabic` text among begin, middle, end, single. */
  function ReadLyric(l: LyricEl): (r: Result<(string, int)>)
    ensures r.Success? ==> 0 <= r.value.1 < 4
    ensures r.Success? ==>
      l.text.Some? && l.text.value.text == Some(r.value.0) &&
      l.syllabic.Some? && l.syllabic.value.text == Some(Syllabics[r.value.1])
    ensures r.Success? <==>
      l.text.Some? && l.text.value.text.Some? && l.syllabic.Some? && l.syllabic.value.text.Some? &&
      l.syllabic.value.text.value in Syllabics
    ensures l.text.None? || l.text.value.text.None? ==> r == Failure(Fatal("none"))
    ensures (l.text.Some? && l.text.value.text.Some? && l.syllabic.Some? && l.syllabic.value.text.Some? &&
             l.syllabic.value.text.value != "" && l.syllabic.value.text.value !in Syllabics) ==>
      r == Failure(Crash("ValueError"))
  {
    var textEl :- NotNone(l.text);
    var text :- NotNone(textEl.text);
    var sylEl :- NotNone(l.syllabic);
    if sylEl.text.None? || sylEl.text.value == "" then Failure(Fatal("no syllabic text"))
    else match SyllabicIndex(sylEl.text.value)
      case None => Failure(Crash("ValueError"))
      case Some(k) => Success((text, k))
  }

  // ---------------------------------------------------------------------
  // Invariants of the event lists
  // ---------------------------------------------------------------------

  /** What every event the builder produces looks like: a rest has one
      duration; a pitch has as many durations as degrees as octaves, at least
      one, every degree in 0..11, a lyric and a position in 0..3, and the
      lyric assembler's fields at their initial values. */
  predicate WellFormed(e: Event) {
    match e
    case Rest(d, w) => |d| == 1 && w.None?
    case Pitch(d, deg, oct, lyric, pos, word, s, t) =>
      |d| == |deg| == |oct| >= 1 &&
      (forall k :: 0 <= k < |deg| ==> 0 <= deg[k] < 12) &&
      lyric.Some? && pos.Some? && 0 <= pos.value < 4 &&
      word == "" && s == 0 && t == 0
  }

  predicate AllWellFormed(evs: seq<Event>) {
    forall i :: 0 <= i < |evs| ==> WellFormed(evs[i])
  }

  /** The number of sub-durations of a list of events. */
  function SubNotes(evs: seq<Event>): nat {
    if evs == [] then 0 else SubNotes(evs[..|evs| - 1]) + |evs[|evs| - 1].duration|
  }

  /** A note that becomes an event of its own: a rest, or a pitch with a lyric. */
  predicate StartsEvent(n: NoteEl) {
    n.rest || (n.pitch.Some? && n.lyric.Some?)
  }

  /** A note that is not dropped: a rest or a pitch. */
  predicate Sounds(n: NoteEl) {
    n.rest || n.pitch.Some?
  }

  // ---------------------------------------------------------------------
  // The builder, as a function: one step per note, per measure, per part
  // ---------------------------------------------------------------------

  /** One note: a rest appends a `Rest`; a pitch with a lyric appends a new
      `Pitch`; a pitch without one is a tie and extends the last event, which
      must be a pitch; a note with neither rest nor pitch is dropped. */
  function NoteStep(evs: seq<Event>, n: NoteEl, divisions: int, tempo: int): (r: Result<seq<Event>>)
    ensures r.Success? ==> |r.value| == |evs| + (if StartsEvent(n) then 1 else 0)
    ensures r.Success? ==> SubNotes(r.value) == SubNotes(evs) + (if Sounds(n) then 1 else 0)
    ensures r.Success? ==> forall k :: 0 <= k < |evs| - 1 ==> r.value[k] == evs[k]
    ensures ReadDuration(n, divisions, tempo).Failure? ==> r == Failure(ReadDuration(n, divisions, tempo).error)
    ensures n.rest && ReadDuration(n, divisions, tempo).Success? ==>
      r == Success(evs + [Rest([ReadDuration(n, divisions, tempo).value], None)])
    ensures !n.rest && n.pitch.None? && ReadDuration(n, divisions, tempo).Success? ==> r == Success(evs)
    ensures (!n.rest && n.pitch.Some? && n.lyric.Some? && ReadDuration(n, divisions, tempo).Success? &&
             ReadPitch(n.pitch.value).Success? && ReadLyric(n.lyric.value).Success?) ==>
      var p, l := ReadPitch(n.pitch.value).value, ReadLyric(n.lyric.value).value;
      r == Success(evs + [Pitch([ReadDuration(n, divisions, tempo).value], [p.0], [p.1], Some(l.0), Some(l.1), "", 0, 0)])
    ensures (Sounds(n) && !StartsEvent(n) && evs == [] && ReadDuration(n, divisions, tempo).Success? &&
             ReadPitch(n.pitch.value).Success?) ==> r == Failure(Crash("IndexError"))
    ensures (Sounds(n) && !StartsEvent(n) && evs != [] && !evs[|evs| - 1].Pitch? &&
             ReadDuration(n, divisions, tempo).Success? && ReadPitch(n.pitch.value).Success?) ==>
      r == Failure(Fatal("previous event wasn't a pitch"))
    ensures (Sounds(n) && !StartsEvent(n) && evs != [] && evs[|evs| - 1].Pitch? &&
             ReadDuration(n, divisions, tempo).Success? && ReadPitch(n.pitch.value).Success?) ==>
      var p := ReadPitch(n.pitch.value).value;
      r == Success(Tie(evs, ReadDuration(n, divisions, tempo).value, p.0, p.1))
  {
    var d :- ReadDuration(n, divisions, tempo);
    if n.rest then
      Success(Append(evs, Rest([d], None)))
    else if n.pitch.None? then
      Success(evs)
    else
      var dp :- ReadPitch(n.pitch.value);
      if n.lyric.Some? then
        var lp :- ReadLyric(n.lyric.value);
        Success(Append(evs, Pitch([d], [dp.0], [dp.1], Some(lp.0), Some(lp.1), "", 0, 0)))
      else if evs == [] then
        Failure(Crash("IndexError"))
      else if !evs[|evs| - 1].Pitch? then
        Failure(Fatal("previous event wasn't a pitch"))
      else
        Success(Tie(evs, d, dp.0, dp.1))
  }

  /** Every note keeps the events well formed. */
  lemma NoteStepWellFormed(evs: seq<Event>, n: NoteEl, divisions: int, tempo: int)
    requires AllWellFormed(evs) && NoteStep(evs, n, divisions, tempo).Success?
    ensures AllWellFormed(NoteStep(evs, n, divisions, tempo).value)
  {
    if !n.rest && n.pitch.Some? {
      var dp := ReadPitch(n.pitch.value).value;
      if n.lyric.Some? {
        var lp := ReadLyric(n.lyric.value).value;
        var d := ReadDuration(n, divisions, tempo).value;
        assert WellFormed(Pitch([d], [dp.0], [dp.1], Some(lp.0), Some(lp.1), "", 0, 0));
      }
    }
  }

  /** A new event at the end of the list. */
  function Append(evs: seq<Event>, e: Event): (r: seq<Event>)
    ensures |r| == |evs| + 1 && r[|evs|] == e
    ensures forall k :: 0 <= k < |evs| ==> r[k] == evs[k]
    ensures SubNotes(r) == SubNotes(evs) + |e.duration|
    ensures AllWellFormed(evs) && WellFormed(e) ==> AllWellFormed(r)
  {
    var r := evs + [e];
    assert r[..|r| - 1] == evs;
    r
  }

  /** A tied note (a pitch without a lyric) extends the last event, which
      must be a pitch, by one more sub-duration. */
  function Tie(evs: seq<Event>, d: real, degree: int, octave: int): (r: seq<Event>)
    requires evs != [] && evs[|evs| - 1].Pitch?
    ensures |r| == |evs|
    ensures forall k :: 0 <= k < |evs| - 1 ==> r[k] == evs[k]
    ensures var last := evs[|evs| - 1];
      r[|evs| - 1] == last.(duration := last.duration + [d], degree := last.degree + [degree], octave := last.octave + [octave])
    ensures SubNotes(r) == SubNotes(evs) + 1
    ensures AllWellFormed(evs) && 0 <= degree < 12 ==> AllWellFormed(r)
  {
    var last := evs[|evs| - 1];
    var tied := last.(duration := last.duration + [d], degree := last.degree + [degree], octave := last.octave + [octave]);
    var r := evs[..|evs| - 1] + [tied];
    assert r[|evs| - 1] == tied;
    assert r[..|r| - 1] == evs[..|evs| - 1];
    assert forall k :: 0 <= k < |r| - 1 ==> r[k] == evs[k];
    assert AllWellFormed(evs) && 0 <= degree < 12 ==> WellFormed(tied) by {
      if AllWellFormed(evs) && 0 <= degree < 12 {
        assert WellFormed(last);
      }
    }
    r
  }

  /** The notes `ns[j..]` of one measure, in order. */
  function Notes(evs: seq<Event>, ns: seq<NoteEl>, j: nat, divisions: int, tempo: int): Result<seq<Event>>
    requires j <= |ns|
    decreases |ns| - j
  {
    if j == |ns| then Success(evs)
    else
      var evs' :- NoteStep(evs, ns[j], divisions, tempo);
      Notes(evs', ns, j + 1, divisions, tempo)
  }

  /** The tempo after reading the directions `ts[k..]`: each `sound@tempo` replaces it. */
  function ApplyTempos(tempo: int, ts: seq<Option<int>>, k: nat): int
    requires k <= |ts|
    decreases |ts| - k
  {
    if k == |ts| then tempo
    else ApplyTempos(if ts[k].Some? then ts[k].value else tempo, ts, k + 1)
  }

  /** The running state of one part: its events so far, its divisions once
      defined, and the tempo (which also carries from part to part). */
  datatype PartState = PartState(events: seq<Event>, divisions: Option<int>, tempo: int)

  /** One measure: check and read `divisions`, apply all its directions, then its notes. */
  function MeasureStep(st: PartState, m: Measure): Result<PartState> {
    if st.divisions.Some? && m.divisions.Some? then Failure(Fatal("divisions redefined for a part"))
    else if st.divisions.None? && m.divisions.None? then Failure(Fatal("missing divisions for a part"))
    else
      var div :- if m.divisions.None? then Success(st.divisions.value)
                 else if m.divisions.value.text.None? then Failure(Fatal("missing divisions"))
                 else Success(m.divisions.value.text.value);
      var tempo := ApplyTempos(st.tempo, m.tempos, 0);
      var evs :- Notes(st.events, m.notes, 0, div, tempo);
      Success(PartState(evs, Some(div), tempo))
  }

  function Measures(st: PartState, ms: seq<Measure>, k: nat): Result<PartState>
    requires k <= |ms|
    decreases |ms| - k
  {
    if k == |ms| then Success(st)
    else
      var st' :- MeasureStep(st, ms[k]);
      Measures(st', ms, k + 1)
  }

  /** The events built so far, keyed by part id in insertion order, and the tempo. */
  datatype ScoreState = ScoreState(events: seq<(string, seq<Event>)>, tempo: int)

  /** One `<part>`: skipped unless its id was matched; otherwise its id must be
      non-empty and its measures are read starting from no divisions and the
      current tempo, and the result is stored under the id. */
  function PartStep(st: ScoreState, p: Part, ids: seq<Option<string>>): Result<ScoreState> {
    if p.id !in ids then Success(st)
    else if p.id.None? || p.id.value == "" then Failure(Fatal("couldn't find part id"))
    else
      var ps :- Measures(PartState([], None, st.tempo), p.measures, 0);
      Success(ScoreState(Dict.Put(st.events, p.id.value, ps.events), ps.tempo))
  }

  function Parts(st: ScoreState, ps: seq<Part>, k: nat, ids: seq<Option<string>>): Result<ScoreState>
    requires k <= |ps|
    decreases |ps| - k
  {
    if k == |ps| then Success(st)
    else
      var st' :- PartStep(st, ps[k], ids);
      Parts(st', ps, k + 1, ids)
  }

  /** A score part is requested when it has a part name among the requested names. */
  predicate Requested(sp: ScorePart, names: seq<string>) {
    sp.name.Some? && sp.name.value in names
  }

  /** How many score parts of `sps` are requested. */
  function CountRequested(sps: seq<ScorePart>, names: seq<string>): nat {
    if sps == [] then 0
    else CountRequested(sps[..|sps| - 1], names) + (if Requested(sps[|sps| - 1], names) then 1 else 0)
  }

  /** The count, starting from the first score part instead of the last. */
  lemma {:induction false} CountRequestedFront(sps: seq<ScorePart>, names: seq<string>)
    requires sps != []
    ensures CountRequested(sps, names) == (if Requested(sps[0], names) then 1 else 0) + CountRequested(sps[1..], names)
    decreases |sps|
  {
    if |sps| > 1 {
      var init := sps[..|sps| - 1];
      assert init[0] == sps[0] && init[1..] == sps[1..][..|sps[1..]| - 1];
      assert sps[1..][|sps[1..]| - 1] == sps[|sps| - 1];
      CountRequestedFront(init, names);
    } else {
      assert sps[..0] == [] && sps[1..] == [];
    }
  }

  /** The ids of the requested score parts, in part-list order: one entry per
      requested score part (ids may repeat). */
  function MatchedIds(sps: seq<ScorePart>, names: seq<string>): (ids: seq<Option<string>>)
    ensures |ids| <= |sps|
    ensures |ids| == CountRequested(sps, names)
    ensures forall x :: x in ids <==> exists i :: 0 <= i < |sps| && Requested(sps[i], names) && sps[i].id == x
  {
    if sps == [] then []
    else
      var rest := MatchedIds(sps[1..], names);
      CountRequestedFront(sps, names);
      assert forall i :: 1 <= i < |sps| ==> sps[1..][i - 1] == sps[i];
      if Requested(sps[0], names) then [sps[0].id] + rest else rest
  }

  const PartsNotFound: string :=
    "couldn't find some parts - make sure they are spelled correctly, unabbreviated, using correct capitalisation, and enclosed in 'quotation marks' if needed"

  /** `events_from_mxml`: the events of every requested part, keyed by part id. */
  function EventsFromMxml(doc: Doc, names: seq<string>): (r: Result<seq<(string, seq<Event>)>>)
    ensures doc.tag != "score-partwise" ==> r == Failure(Fatal("expected root element to be score-partwise"))
    ensures doc.tag == "score-partwise" && doc.version != Some("4.0") ==> r == Failure(Fatal("expected version to be 4.0"))
    ensures doc.tag == "score-partwise" && doc.version == Some("4.0") && doc.partList.None? ==>
      r == Failure(Fatal("couldn't find part-list"))
    ensures r.Success? ==> doc.partList.Some? && CountRequested(doc.partList.value, names) == |names|
    ensures (doc.tag == "score-partwise" && doc.version == Some("4.0") && doc.partList.Some? &&
             CountRequested(doc.partList.value, names) != |names|) ==> r == Failure(Fatal(PartsNotFound))
  {
    if doc.tag != "score-partwise" then Failure(Fatal("expected root element to be score-partwise"))
    else if doc.version != Some("4.0") then Failure(Fatal("expected version to be 4.0"))
    else if doc.partList.None? then Failure(Fatal("couldn't find part-list"))
    else
      var ids := MatchedIds(doc.partList.value, names);
      if |names| != |ids| then Failure(Fatal(PartsNotFound))
      else
        var st :- Parts(ScoreState([], DefaultTempo), doc.parts, 0, ids);
        Success(st.events)
  }

  // ---------------------------------------------------------------------
  // The builder as the source runs it: nested loops over parts, measures,
  // directions and notes, with running `divisions` and `tempo`
  // ---------------------------------------------------------------------

  /** The loop over a measure's directions. */
  method ReadTempos(tempo: int, ts: seq<Option<int>>) returns (t: int)
    ensures t == ApplyTempos(tempo, ts, 0)
  {
    t := tempo;
    var k := 0;
    while k < |ts|
      invariant k <= |ts|
      invariant ApplyTempos(t, ts, k) == ApplyTempos(tempo, ts, 0)
    {
      if ts[k].Some? {
        t := ts[k].value;
      }
      k := k + 1;
    }
  }

  /** The loop over a measure's notes; `evs` is the part's list, appended to
      and, for a tie, updated at its last element. */
  method ReadNotes(evs0: seq<Event>, ns: seq<NoteEl>, divisions: int, tempo: int) returns (r: Result<seq<Event>>)
    ensures r == Notes(evs0, ns, 0, divisions, tempo)
  {
    var evs := evs0;
    var j := 0;
    while j < |ns|
      invariant j <= |ns|
      invariant Notes(evs, ns, j, divisions, tempo) == Notes(evs0, ns, 0, divisions, tempo)
    {
      var n := ns[j];
      var d := ReadDuration(n, divisions, tempo);
      if d.Failure? {
        return Failure(d.error);
      }
      if n.rest {
        evs := evs + [Rest([d.value], None)];
      } else if n.pitch.Some? {
        var dp := ReadPitch(n.pitch.value);
        if dp.Failure? {
          return Failure(dp.error);
        }
        var degree, octave := dp.value.0, dp.value.1;
        if n.lyric.Some? {
          var lp := ReadLyric(n.lyric.value);
          if lp.Failure? {
            return Failure(lp.error);
          }
          evs := evs + [Pitch([d.value], [degree], [octave], Some(lp.value.0), Some(lp.value.1), "", 0, 0)];
        } else {
          if evs == [] {
            return Failure(Crash("IndexError"));
          }
          var prev := evs[|evs| - 1];
          if !prev.Pitch? {
            return Failure(Fatal("previous event wasn't a pitch"));
          }
          prev := prev.(duration := prev.duration + [d.value], degree := prev.degree + [degree],
                        octave := prev.octave + [octave]);
          evs := evs[..|evs| - 1] + [prev];
        }
      }
      j := j + 1;
    }
    return Success(evs);
  }

  /** The loop over a part's measures, from the running state `st0`. */
  method ReadMeasures(st0: PartState, ms: seq<Measure>) returns (r: Result<PartState>)
    ensures r == Measures(st0, ms, 0)
  {
    var evs, divisions, tempo := st0.events, st0.divisions, st0.tempo;
    var k := 0;
    while k < |ms|
      invariant k <= |ms|
      invariant Measures(PartState(evs, divisions, tempo), ms, k) == Measures(st0, ms, 0)
    {
      var m := ms[k];
      if divisions.Some? && m.divisions.Some? {
        return Failure(Fatal("divisions redefined for a part"));
      }
      if divisions.None? && m.divisions.None? {
        return Failure(Fatal("missing divisions for a part"));
      }
      if m.divisions.Some? {
        if m.divisions.value.text.None? {
          return Failure(Fatal("missing divisions"));
        }
        divisions := Some(m.divisions.value.text.value);
      }
      tempo := ReadTempos(tempo, m.tempos);
      var notes := ReadNotes(evs, m.notes, divisions.value, tempo);
      if notes.Failure? {
        return Failure(notes.error);
      }
      evs := notes.value;
      k := k + 1;
    }
    return Success(PartState(evs, divisions, tempo));
  }

  /** `events_from_mxml` as the source runs it. */
  method BuildEvents(doc: Doc, names: seq<string>) returns (r: Result<seq<(string, seq<Event>)>>)
    ensures r == EventsFromMxml(doc, names)
  {
    if doc.tag != "score-partwise" {
      return Failure(Fatal("expected root element to be score-partwise"));
    }
    if doc.version != Some("4.0") {
      return Failure(Fatal("expected version to be 4.0"));
    }
    if doc.partList.None? {
      return Failure(Fatal("couldn't find part-list"));
    }
    var ids := MatchedIds(doc.partList.value, names);
    if |names| != |ids| {
      return Failure(Fatal(PartsNotFound));
    }
    var st :- ReadParts(doc.parts, ids);
    return Success(st.events);
  }

  /** The loop over the `<part>` elements, with the tempo carried from one
      part to the next. */
  method ReadParts(parts: seq<Part>, ids: seq<Option<string>>) returns (r: Result<ScoreState>)
    ensures r == Parts(ScoreState([], DefaultTempo), parts, 0, ids)
  {
    var events: seq<(string, seq<Event>)> := [];
    var tempo := DefaultTempo;
    var k := 0;
    while k < |parts|
      invariant k <= |parts|
      invariant Parts(ScoreState(events, tempo), parts, k, ids) == Parts(ScoreState([], DefaultTempo), parts, 0, ids)
    {
      var part := parts[k];
      ghost var st := ScoreState(events, tempo);
      if part.id in ids {
        if part.id.None? || part.id.value == "" {
          return Failure(Fatal("couldn't find part id"));
        }
        // The source stores the empty list first and appends to it; a failure
        // abandons the whole result, so storing the finished list is the same.
        var ps := ReadMeasures(PartState([], None, tempo), part.measures);
        if ps.Failure? {
          return Failure(ps.error);
        }
        events := Dict.Put(events, part.id.value, ps.value.events);
        tempo := ps.value.tempo;
      }
      assert PartStep(st, part, ids) == Success(ScoreState(events, tempo));
      k := k + 1;
    }
    return Success(ScoreState(events, tempo));
  }
}
