/** What the score-event builder guarantees about its result. */
module ScoreFacts {
  import opened Util
  import Dict
  import opened Score

  // ---------------------------------------------------------------------
  // Counting notes
  // ---------------------------------------------------------------------

  /** How many of `ns[j..]` start an event of their own. */
  function Starts(ns: seq<NoteEl>, j: nat): nat
    requires j <= |ns|
    decreases |ns| - j
  {
    if j == |ns| then 0 else (if StartsEvent(ns[j]) then 1 else 0) + Starts(ns, j + 1)
  }

  /** How many of `ns[j..]` are rests or pitches. */
  function Sounding(ns: seq<NoteEl>, j: nat): nat
    requires j <= |ns|
    decreases |ns| - j
  {
    if j == |ns| then 0 else (if Sounds(ns[j]) then 1 else 0) + Sounding(ns, j + 1)
  }

  function MeasureStarts(ms: seq<Measure>, k: nat): nat
    requires k <= |ms|
    decreases |ms| - k
  {
    if k == |ms| then 0 else Starts(ms[k].notes, 0) + MeasureStarts(ms, k + 1)
  }

  function MeasureSounding(ms: seq<Measure>, k: nat): nat
    requires k <= |ms|
    decreases |ms| - k
  {
    if k == |ms| then 0 else Sounding(ms[k].notes, 0) + MeasureSounding(ms, k + 1)
  }

  /** Reading notes keeps every event well formed, adds one event per rest or
      lyric note, and one sub-duration per rest or pitch. */
  lemma {:induction false} NotesFacts(evs: seq<Event>, ns: seq<NoteEl>, j: nat, divisions: int, tempo: int)
    requires j <= |ns|
    ensures var r := Notes(evs, ns, j, divisions, tempo);
      r.Success? ==>
        (AllWellFormed(evs) ==> AllWellFormed(r.value)) &&
        |r.value| == |evs| + Starts(ns, j) &&
        SubNotes(r.value) == SubNotes(evs) + Sounding(ns, j)
    decreases |ns| - j
  {
    if j < |ns| {
      var s := NoteStep(evs, ns[j], divisions, tempo);
      if s.Success? {
        if AllWellFormed(evs) {
          NoteStepWellFormed(evs, ns[j], divisions, tempo);
        }
        NotesFacts(s.value, ns, j + 1, divisions, tempo);
      }
    }
  }

  /** The same over a part's measures, from any running state. */
  lemma {:induction false} MeasuresFacts(st: PartState, ms: seq<Measure>, k: nat)
    requires k <= |ms|
    ensures var r := Measures(st, ms, k);
      r.Success? ==>
        (AllWellFormed(st.events) ==> AllWellFormed(r.value.events)) &&
        |r.value.events| == |st.events| + MeasureStarts(ms, k) &&
        SubNotes(r.value.events) == SubNotes(st.events) + MeasureSounding(ms, k)
    decreases |ms| - k
  {
    if k < |ms| {
      var s := MeasureStep(st, ms[k]);
      if s.Success? {
        var div := s.value.divisions.value;
        NotesFacts(st.events, ms[k].notes, 0, div, s.value.tempo);
        MeasuresFacts(s.value, ms, k + 1);
      }
    }
  }

  /** A part's events: every event well formed; as many events as rest and
      lyric notes; as many sub-durations as rest and pitch notes. */
  lemma PartEventsCount(tempo: int, ms: seq<Measure>)
    ensures var r := Measures(PartState([], None, tempo), ms, 0);
      r.Success? ==>
        AllWellFormed(r.value.events) &&
        |r.value.events| == MeasureStarts(ms, 0) &&
        SubNotes(r.value.events) == MeasureSounding(ms, 0)
  {
    MeasuresFacts(PartState([], None, tempo), ms, 0);
  }

  // ---------------------------------------------------------------------
  // Divisions
  // ---------------------------------------------------------------------

  lemma {:induction false} DivisionsStayDefined(st: PartState, ms: seq<Measure>, k: nat)
    requires k <= |ms| && st.divisions.Some?
    ensures Measures(st, ms, k).Success? ==>
      forall i :: k <= i < |ms| ==> ms[i].divisions.None?
    decreases |ms| - k
  {
    if k < |ms| {
      var s := MeasureStep(st, ms[k]);
      if s.Success? {
        DivisionsStayDefined(s.value, ms, k + 1);
      }
    }
  }

  /** A part is read only if its first measure defines `divisions` (with a
      text) and no later measure defines it again. */
  lemma DivisionsExactlyOnce(evs: seq<Event>, tempo: int, ms: seq<Measure>)
    requires |ms| > 0
    ensures Measures(PartState(evs, None, tempo), ms, 0).Success? ==>
      ms[0].divisions.Some? && ms[0].divisions.value.text.Some? &&
      forall i :: 1 <= i < |ms| ==> ms[i].divisions.None?
    ensures ms[0].divisions.None? ==>
      Measures(PartState(evs, None, tempo), ms, 0) == Failure(Fatal("missing divisions for a part"))
  {
    var s := MeasureStep(PartState(evs, None, tempo), ms[0]);
    if s.Success? {
      DivisionsStayDefined(s.value, ms, 1);
    }
  }

  // ---------------------------------------------------------------------
  // Tempo
  // ---------------------------------------------------------------------

  /** The tempo set by the last direction of `ts` that has one, else `tempo`. */
  function LastTempo(tempo: int, ts: seq<Option<int>>): int {
    if ts == [] then tempo
    else if ts[|ts| - 1].Some? then ts[|ts| - 1].value
    else LastTempo(tempo, ts[..|ts| - 1])
  }

  lemma {:induction false} LastTempoCons(tempo: int, t: Option<int>, ts: seq<Option<int>>)
    ensures LastTempo(tempo, [t] + ts) == LastTempo(if t.Some? then t.value else tempo, ts)
  {
    if ts != [] {
      var u := [t] + ts;
      assert u[..|u| - 1] == [t] + ts[..|ts| - 1];
      LastTempoCons(tempo, t, ts[..|ts| - 1]);
    } else {
      assert ([t] + ts)[..0] == [];
    }
  }

  lemma {:induction false} ApplyTemposIsLast(tempo: int, ts: seq<Option<int>>, k: nat)
    requires k <= |ts|
    ensures ApplyTempos(tempo, ts, k) == LastTempo(tempo, ts[k..])
    decreases |ts| - k
  {
    if k < |ts| {
      var t := if ts[k].Some? then ts[k].value else tempo;
      ApplyTemposIsLast(t, ts, k + 1);
      assert ts[k..] == [ts[k]] + ts[k + 1..];
      LastTempoCons(tempo, ts[k], ts[k + 1..]);
    }
  }

  /** All of a measure's directions are read before its notes: every note of
      the measure is timed with the tempo of its last direction that has one
      (or the tempo in force before it), and that tempo carries on. */
  lemma MeasureUsesLastTempo(st: PartState, m: Measure)
    requires MeasureStep(st, m).Success?
    ensures var r := MeasureStep(st, m).value;
      r.tempo == LastTempo(st.tempo, m.tempos) &&
      Success(r.events) == Notes(st.events, m.notes, 0, r.divisions.value, LastTempo(st.tempo, m.tempos))
  {
    ApplyTemposIsLast(st.tempo, m.tempos, 0);
    assert m.tempos[0..] == m.tempos;
  }

  /** The `sound@tempo` of every direction of `ms[k..]`, in document order. */
  function MeasureTempos(ms: seq<Measure>, k: nat): seq<Option<int>>
    requires k <= |ms|
    decreases |ms| - k
  {
    if k == |ms| then [] else ms[k].tempos + MeasureTempos(ms, k + 1)
  }

  /** The same over the measures of the matched parts of `ps[k..]`. */
  function PartTempos(ps: seq<Part>, k: nat, ids: seq<Option<string>>): seq<Option<int>>
    requires k <= |ps|
    decreases |ps| - k
  {
    if k == |ps| then []
    else (if ps[k].id in ids then MeasureTempos(ps[k].measures, 0) else []) + PartTempos(ps, k + 1, ids)
  }

  lemma {:induction false} LastTempoAppend(tempo: int, a: seq<Option<int>>, b: seq<Option<int>>)
    ensures LastTempo(tempo, a + b) == LastTempo(LastTempo(tempo, a), b)
    decreases |b|
  {
    if b == [] {
      assert a + b == a;
    } else {
      var ab := a + b;
      assert ab[..|ab| - 1] == a + b[..|b| - 1];
      assert ab[|ab| - 1] == b[|b| - 1];
      LastTempoAppend(tempo, a, b[..|b| - 1]);
    }
  }

  /** A part's measures leave the tempo of their last direction that has one. */
  lemma {:induction false} MeasuresTempo(st: PartState, ms: seq<Measure>, k: nat)
    requires k <= |ms|
    ensures Measures(st, ms, k).Success? ==> Measures(st, ms, k).value.tempo == LastTempo(st.tempo, MeasureTempos(ms, k))
    decreases |ms| - k
  {
    if k < |ms| {
      var s := MeasureStep(st, ms[k]);
      if s.Success? {
        MeasureUsesLastTempo(st, ms[k]);
        MeasuresTempo(s.value, ms, k + 1);
        LastTempoAppend(st.tempo, ms[k].tempos, MeasureTempos(ms, k + 1));
      }
    }
  }

  /** The tempo is not reset between parts: after the parts loop it is the
      last `sound@tempo` among the directions of all matched parts, in
      document order, or the tempo before the loop when there is none. */
  lemma {:induction false} PartsTempo(st: ScoreState, ps: seq<Part>, k: nat, ids: seq<Option<string>>)
    requires k <= |ps|
    ensures Parts(st, ps, k, ids).Success? ==> Parts(st, ps, k, ids).value.tempo == LastTempo(st.tempo, PartTempos(ps, k, ids))
    decreases |ps| - k
  {
    if k < |ps| {
      var s := PartStep(st, ps[k], ids);
      if s.Success? {
        var here := if ps[k].id in ids then MeasureTempos(ps[k].measures, 0) else [];
        if ps[k].id in ids {
          MeasuresTempo(PartState([], None, st.tempo), ps[k].measures, 0);
        }
        PartsTempo(s.value, ps, k + 1, ids);
        LastTempoAppend(st.tempo, here, PartTempos(ps, k + 1, ids));
      }
    }
  }

  /** A duration scales inversely with the tempo. */
  lemma DurationTempoRatio(n: NoteEl, divisions: int, t1: int, t2: int)
    requires ReadDuration(n, divisions, t1).Success? && ReadDuration(n, divisions, t2).Success?
    ensures ReadDuration(n, divisions, t1).value * (t1 as real) == ReadDuration(n, divisions, t2).value * (t2 as real)
  {
    DurationMs(n, divisions, t1);
    DurationMs(n, divisions, t2);
    var d1 := ReadDuration(n, divisions, t1).value;
    var d2 := ReadDuration(n, divisions, t2).value;
    var q := divisions as real;
    assert d1 * q * (t1 as real) == d2 * q * (t2 as real);
    assert (d1 * (t1 as real)) * q == (d2 * (t2 as real)) * q;
  }

  // ---------------------------------------------------------------------
  // The whole document
  // ---------------------------------------------------------------------

  /** The ids of the parts in `ps[k..]` that were matched. */
  function ChosenIds(ps: seq<Part>, k: nat, ids: seq<Option<string>>): set<string>
    requires k <= |ps|
  {
    set i | k <= i < |ps| && ps[i].id in ids && ps[i].id.Some? :: ps[i].id.value
  }

  predicate AllPartsWellFormed(d: seq<(string, seq<Event>)>) {
    forall i :: 0 <= i < |d| ==> AllWellFormed(d[i].1)
  }

  lemma {:induction false} PartsFacts(st: ScoreState, ps: seq<Part>, k: nat, ids: seq<Option<string>>)
    requires k <= |ps|
    ensures var r := Parts(st, ps, k, ids);
      r.Success? ==>
        Dict.Keys(r.value.events) == Dict.Keys(st.events) + ChosenIds(ps, k, ids) &&
        (Dict.DistinctKeys(st.events) ==> Dict.DistinctKeys(r.value.events)) &&
        (AllPartsWellFormed(st.events) ==> AllPartsWellFormed(r.value.events))
    decreases |ps| - k
  {
    if k < |ps| {
      var s := PartStep(st, ps[k], ids);
      if s.Success? {
        PartsFacts(s.value, ps, k + 1, ids);
        if ps[k].id in ids {
          var ps' := Measures(PartState([], None, st.tempo), ps[k].measures, 0);
          PartEventsCount(st.tempo, ps[k].measures);
          var id := ps[k].id.value;
          var d := Dict.Put(st.events, id, ps'.value.events);
          assert d == s.value.events;
          if AllPartsWellFormed(st.events) {
            forall i | 0 <= i < |d| ensures AllWellFormed(d[i].1) {
              if id !in Dict.Keys(st.events) {
                assert d == st.events + [(id, ps'.value.events)];
                if i < |st.events| { assert d[i] == st.events[i]; }
              } else {
                var j :| 0 <= j < |st.events| && st.events[j].0 == id && d == st.events[j := (id, ps'.value.events)];
                if i != j { assert d[i] == st.events[i]; }
              }
            }
          }
          assert ChosenIds(ps, k, ids) == {id} + ChosenIds(ps, k + 1, ids);
        } else {
          assert ChosenIds(ps, k, ids) == ChosenIds(ps, k + 1, ids);
        }
      }
    }
  }

  /** The result has one entry per distinct id among the `<part>`s whose id
      belongs to a requested score part, and every event in it is well formed. */
  lemma EventsFromMxmlFacts(doc: Doc, names: seq<string>)
    requires EventsFromMxml(doc, names).Success?
    ensures var r := EventsFromMxml(doc, names).value;
      var ids := MatchedIds(doc.partList.value, names);
      Dict.Keys(r) == ChosenIds(doc.parts, 0, ids) &&
      Dict.DistinctKeys(r) &&
      AllPartsWellFormed(r) &&
      (forall i :: 0 <= i < |doc.parts| && doc.parts[i].id in ids ==>
         doc.parts[i].id.Some? && doc.parts[i].id.value != "")
  {
    var ids := MatchedIds(doc.partList.value, names);
    PartsFacts(ScoreState([], DefaultTempo), doc.parts, 0, ids);
    assert Dict.Keys<seq<Event>>([]) == {};
    PartIdsPresent(ScoreState([], DefaultTempo), doc.parts, 0, ids);
  }

  lemma {:induction false} PartIdsPresent(st: ScoreState, ps: seq<Part>, k: nat, ids: seq<Option<string>>)
    requires k <= |ps|
    ensures Parts(st, ps, k, ids).Success? ==>
      forall i :: k <= i < |ps| && ps[i].id in ids ==> ps[i].id.Some? && ps[i].id.value != ""
    decreases |ps| - k
  {
    if k < |ps| {
      var s := PartStep(st, ps[k], ids);
      if s.Success? {
        PartIdsPresent(s.value, ps, k + 1, ids);
      }
    }
  }

  // ---------------------------------------------------------------------
  // A worked example
  // ---------------------------------------------------------------------

  const ExC4: NoteEl := NoteEl(Some(Elem(Some(1))), false, Some(PitchEl(Some(Elem(Some("C"))), None, Some(Elem(Some(4))))),
                             Some(LyricEl(Some(Elem(Some("la"))), Some(Elem(Some("single"))))))
  const ExD4: NoteEl := NoteEl(Some(Elem(Some(1))), false, Some(PitchEl(Some(Elem(Some("D"))), None, Some(Elem(Some(4))))), None)
  const ExRest: NoteEl := NoteEl(Some(Elem(Some(1))), true, None, None)
  const ExFirst: Measure := Measure(Some(Elem(Some(1))), [Some(60)], [ExC4, ExD4])
  const ExSecond: Measure := Measure(Some(Elem(Some(1))), [], [ExRest])
  const ExDoc: Doc := Doc("score-partwise", Some("4.0"),
                          Some([ScorePart(Some("P1"), Some("Soprano")), ScorePart(Some("P2"), Some("Alto"))]),
                          [Part(Some("P1"), [ExFirst]), Part(Some("P2"), [ExSecond])])
  const ExSung: Event := Pitch([1000.0], [3], [3], Some("la"), Some(3), "", 0, 0)
  const ExTied: Event := Pitch([1000.0, 1000.0], [3, 5], [3, 3], Some("la"), Some(3), "", 0, 0)
  const ExSilence: Event := Rest([1000.0], None)

  lemma ExampleIds()
    ensures MatchedIds(ExDoc.partList.value, ["Soprano", "Alto"]) == [Some("P1"), Some("P2")]
  {
    var sps := ExDoc.partList.value;
    assert sps[1..] == [ScorePart(Some("P2"), Some("Alto"))];
    assert sps[1..][1..] == [];
  }

  /** C4 sung "la" at tempo 60 is one second long, degree 3, octave 3. */
  lemma ExampleSung()
    ensures NoteStep([], ExC4, 1, 60) == Success([ExSung])
  {
    assert ReadDuration(ExC4, 1, 60) == Success(1000.0);
    assert ReadPitch(ExC4.pitch.value) == Success((3, 3));
    assert ReadLyric(ExC4.lyric.value) == Success(("la", 3));
  }

  /** The D4 without a lyric is tied onto it. */
  lemma ExampleTied()
    ensures NoteStep([ExSung], ExD4, 1, 60) == Success([ExTied])
  {
    var la := ExSung;
    assert ReadDuration(ExD4, 1, 60) == Success(1000.0);
    assert ReadPitch(ExD4.pitch.value) == Success((5, 3));
    assert [la][..0] == [];
    assert la.duration + [1000.0] == [1000.0, 1000.0];
    assert la.degree + [5] == [3, 5];
    assert la.octave + [3] == [3, 3];
    assert la.(duration := [1000.0, 1000.0], degree := [3, 5], octave := [3, 3]) == ExTied;
    assert [] + [ExTied] == [ExTied];
  }

  lemma ExampleFirstPart()
    ensures Measures(PartState([], None, DefaultTempo), [ExFirst], 0) == Success(PartState([ExTied], Some(1), 60))
  {
    ExampleSung();
    ExampleTied();
    assert ApplyTempos(DefaultTempo, [Some(60)], 0) == 60;
    assert Notes([ExTied], ExFirst.notes, 2, 1, 60) == Success([ExTied]);
    assert Notes([ExSung], ExFirst.notes, 1, 1, 60) == Success([ExTied]);
    assert MeasureStep(PartState([], None, DefaultTempo), ExFirst) == Success(PartState([ExTied], Some(1), 60));
  }

  lemma ExampleSecondPart()
    ensures Measures(PartState([], None, 60), [ExSecond], 0) == Success(PartState([ExSilence], Some(1), 60))
  {
    assert ReadDuration(ExRest, 1, 60) == Success(1000.0);
    assert NoteStep([], ExRest, 1, 60) == Success([ExSilence]);
    assert Notes([ExSilence], ExSecond.notes, 1, 1, 60) == Success([ExSilence]);
    assert MeasureStep(PartState([], None, 60), ExSecond) == Success(PartState([ExSilence], Some(1), 60));
  }

  lemma ExampleParts()
    ensures Parts(ScoreState([], DefaultTempo), ExDoc.parts, 0, [Some("P1"), Some("P2")]) ==
            Success(ScoreState([("P1", [ExTied]), ("P2", [ExSilence])], 60))
  {
    var ids := [Some("P1"), Some("P2")];
    var st1 := ScoreState([("P1", [ExTied])], 60);
    var st2 := ScoreState([("P1", [ExTied]), ("P2", [ExSilence])], 60);
    assert PartStep(ScoreState([], DefaultTempo), ExDoc.parts[0], ids) == Success(st1) by {
      ExampleFirstPart();
      assert Dict.Put([], "P1", [ExTied]) == [("P1", [ExTied])];
    }
    assert PartStep(st1, ExDoc.parts[1], ids) == Success(st2) by {
      ExampleSecondPart();
      assert Dict.Put(st1.events, "P2", [ExSilence]) == st2.events;
    }
    assert Parts(st2, ExDoc.parts, 2, ids) == Success(st2);
    assert Parts(st1, ExDoc.parts, 1, ids) == Success(st2);
  }

  /** Two requested parts, one division per quarter note. The first part sets
      the tempo to 60 and holds a C4 quarter note sung "la", tied to a D4
      quarter note. The second part has no direction and one quarter rest.
      The pitch is stored with degree 3 and octave 3 (the octave change of
      -1), the tie extends it, and the second part's rest is timed at the
      first part's tempo, 60, not at 126. */
  lemma TempoCarriesAcrossParts()
    ensures EventsFromMxml(ExDoc, ["Soprano", "Alto"]) == Success([("P1", [ExTied]), ("P2", [ExSilence])])
  {
    ExampleIds();
    ExampleParts();
  }
}
