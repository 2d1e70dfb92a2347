/** The per-event bookkeeping of main.py's rendering loop: how a stretched
    pitch event is cut into one slice per sub-duration, which note each slice
    is tuned to, and how each part's track is mixed into the whole. The
    signal processing itself is not modelled: a track is a sequence of
    integer samples. */
module Render {
  import opened Util
  import opened Score

  /** The output sampling rate. */
  const TargetSr := 44100

  // ---------------------------------------------------------------------
  // Note names
  // ---------------------------------------------------------------------

  /** The name of each chromatic degree, counted in semitones from A. */
  const NoteNames: seq<string> := ["A", "Bb", "B", "C", "C#", "D", "Eb", "E", "F", "F#", "G", "Ab"]

  /** Python's `xs[k]` on a list: a negative index counts from the end; out of
      range is an IndexError. */
  function PyIndex<T>(xs: seq<T>, k: int): (r: Result<T>)
    ensures r.Success? <==> -|xs| <= k < |xs|
    ensures r.Success? ==> r.value == xs[if k < 0 then k + |xs| else k]
    ensures r.Failure? ==> r.error == Crash("IndexError")
  {
    if 0 <= k < |xs| then Success(xs[k])
    else if -|xs| <= k < 0 then Success(xs[k + |xs|])
    else Failure(Crash("IndexError"))
  }

  /** The note a degree is tuned to. */
  function NoteName(degree: int): (r: Result<string>)
    ensures r.Success? <==> -12 <= degree < 12
    ensures 0 <= degree < 12 ==> r == Success(NoteNames[degree])
  {
    PyIndex(NoteNames, degree)
  }

  /** The degree a note name denotes, read the way the parser reads a step
      and an alter: the letter's degree, one up for a sharp, one down for a
      flat, modulo 12. */
  function NameDegree(name: string): Option<int> {
    if |name| == 0 then None
    else match StepDegree([name[0]])
      case None => None
      case Some(d) =>
        if |name| == 1 then Some(d)
        else if name[1..] == "#" then Some((d + 1) % 12)
        else if name[1..] == "b" then Some((d - 1) % 12)
        else None
  }

  /** Every natural step letter is named by its own degree. */
  lemma NaturalNames(s: string)
    requires StepDegree(s).Some?
    ensures NoteName(StepDegree(s).value) == Success(s)
  {
  }

  /** The table agrees with the parser's degrees: the name at degree `d`
      denotes degree `d`. */
  lemma NamesDenoteDegrees(d: int)
    requires 0 <= d < 12
    ensures NoteName(d).Success? && NameDegree(NoteName(d).value) == Some(d)
  {
    assert NoteNames[1][1..] == "b" && NoteNames[4][1..] == "#" && NoteNames[6][1..] == "b";
    assert NoteNames[9][1..] == "#" && NoteNames[11][1..] == "b";
  }

  /** Every degree in a well-formed pitch names a note. */
  lemma ParsedDegreesNamed(e: Event, k: nat)
    requires WellFormed(e) && e.Pitch? && k < |e.degree|
    ensures NoteName(e.degree[k]).Success?
  {
  }

  // ---------------------------------------------------------------------
  // Slicing a stretched event
  // ---------------------------------------------------------------------

  function Sum(d: seq<real>): real {
    if d == [] then 0.0 else Sum(d[..|d| - 1]) + d[|d| - 1]
  }

  /** The sample index where sub-duration `k` of `d` starts (and `k - 1`
      ends): the milliseconds before it, as seconds, times the rate,
      truncated. */
  function Cut(d: seq<real>, k: nat): int
    requires k <= |d|
  {
    Trunc(Sum(d[..k]) * 0.001 * (TargetSr as real))
  }

  /** Python's `y[a:b]`: negative bounds count from the end, and both are
      clamped to the list. */
  function PySlice<T>(y: seq<T>, a: int, b: int): (r: seq<T>)
    ensures 0 <= a <= b <= |y| ==> r == y[a..b]
  {
    var lo := Clamp(if a < 0 then a + |y| else a, |y|);
    var hi := Clamp(if b < 0 then b + |y| else b, |y|);
    if lo < hi then y[lo..hi] else []
  }

  function Clamp(x: int, n: nat): (r: nat)
    ensures r <= n
    ensures 0 <= x <= n ==> r == x
  {
    if x < 0 then 0 else if x > n then n else x
  }

  /** One slice of an event: its bounds, its samples, and the note it is
      tuned to. */
  datatype Slice = Slice(lo: int, hi: int, samples: seq<int>, note: string, octave: int)

  /** Whether slice `k` can be formed: there is a degree and an octave for
      it, and the degree names a note. */
  predicate Sliceable(d: seq<real>, degree: seq<int>, octave: seq<int>, k: nat) {
    k < |degree| && k < |octave| && -12 <= degree[k] < 12
  }

  /** Slice `k` of a stretched event `y`: the samples between its cuts, tuned
      to the note of degree `k` in octave `k`. */
  function Expected(y: seq<int>, d: seq<real>, degree: seq<int>, octave: seq<int>, k: nat): Slice
    requires k < |d| && Sliceable(d, degree, octave, k)
  {
    Slice(Cut(d, k), Cut(d, k + 1), PySlice(y, Cut(d, k), Cut(d, k + 1)), NoteName(degree[k]).value, octave[k])
  }

  /** Slice `k`; indexing `degree` and `octave`, or the name table, fails when
      out of range. */
  function SliceAt(y: seq<int>, d: seq<real>, degree: seq<int>, octave: seq<int>, k: nat): (r: Result<Slice>)
    requires k < |d|
    ensures r.Success? <==> Sliceable(d, degree, octave, k)
    ensures r.Success? ==> r.value == Expected(y, d, degree, octave, k)
    ensures r.Failure? ==> r.error == Crash("IndexError")
  {
    var lo := Cut(d, k);
    var hi := Cut(d, k + 1);
    var deg :- PyIndex(degree, k);
    var name :- NoteName(deg);
    var oct :- PyIndex(octave, k);
    Success(Slice(lo, hi, PySlice(y, lo, hi), name, oct))
  }

  /** The slices from `k` on, appended to `acc`. */
  function SlicesFrom(y: seq<int>, d: seq<real>, degree: seq<int>, octave: seq<int>, k: nat, acc: seq<Slice>): Result<seq<Slice>>
    requires k <= |d|
    decreases |d| - k
  {
    if k == |d| then Success(acc)
    else
      var s :- SliceAt(y, d, degree, octave, k);
      SlicesFrom(y, d, degree, octave, k + 1, acc + [s])
  }

  function Slices(y: seq<int>, d: seq<real>, degree: seq<int>, octave: seq<int>): Result<seq<Slice>> {
    SlicesFrom(y, d, degree, octave, 0, [])
  }

  /** The tuning loop over the sub-durations of one stretched pitch event. */
  method SliceEvent(y: seq<int>, d: seq<real>, degree: seq<int>, octave: seq<int>) returns (r: Result<seq<Slice>>)
    ensures r == Slices(y, d, degree, octave)
  {
    var slices: seq<Slice> := [];
    var k := 0;
    while k < |d|
      invariant k <= |d|
      invariant SlicesFrom(y, d, degree, octave, k, slices) == Slices(y, d, degree, octave)
    {
      var lo := Cut(d, k);
      var hi := Cut(d, k + 1);
      var thisY := PySlice(y, lo, hi);
      if !(-|degree| <= k < |degree|) {
        return Failure(Crash("IndexError"));
      }
      var name := NoteName(degree[k]);
      if name.Failure? {
        return Failure(name.error);
      }
      if !(-|octave| <= k < |octave|) {
        return Failure(Crash("IndexError"));
      }
      slices := slices + [Slice(lo, hi, thisY, name.value, octave[k])];
      k := k + 1;
    }
    return Success(slices);
  }

  // ---------------------------------------------------------------------
  // What the slicing guarantees
  // ---------------------------------------------------------------------

  /** The slice plan from `k` on succeeds exactly when every slice from `k`
      on can be formed, and then adds exactly those slices, in order. */
  lemma {:induction false} SlicesFromOutcome(y: seq<int>, d: seq<real>, degree: seq<int>, octave: seq<int>, k: nat, acc: seq<Slice>)
    requires k <= |d|
    ensures var r := SlicesFrom(y, d, degree, octave, k, acc);
      (r.Success? <==> forall j :: k <= j < |d| ==> Sliceable(d, degree, octave, j)) &&
      (r.Success? ==>
         |r.value| == |acc| + |d| - k &&
         (forall j :: 0 <= j < |acc| ==> r.value[j] == acc[j]) &&
         (forall j :: k <= j < |d| ==> r.value[|acc| + j - k] == Expected(y, d, degree, octave, j)))
    decreases |d| - k
  {
    if k < |d| {
      var s := SliceAt(y, d, degree, octave, k);
      if s.Success? {
        SlicesFromOutcome(y, d, degree, octave, k + 1, acc + [s.value]);
      }
    }
  }

  /** One slice per sub-duration, slice `k` tuned to `degree[k]` in octave
      `octave[k]`, starting where slice `k - 1` ends; the first starts at 0.
      The plan fails (an IndexError) exactly when a degree or an octave is
      missing or a degree is outside the name table. */
  lemma SlicePlan(y: seq<int>, d: seq<real>, degree: seq<int>, octave: seq<int>)
    ensures var r := Slices(y, d, degree, octave);
      (r.Success? <==> |d| <= |degree| && |d| <= |octave| && forall j :: 0 <= j < |d| ==> -12 <= degree[j] < 12) &&
      (r.Success? ==>
         |r.value| == |d| &&
         (|d| > 0 ==> r.value[0].lo == 0) &&
         (forall k :: 0 <= k < |d| ==>
            r.value[k].lo == Cut(d, k) && r.value[k].hi == Cut(d, k + 1) &&
            r.value[k].samples == PySlice(y, r.value[k].lo, r.value[k].hi) &&
            NoteName(degree[k]) == Success(r.value[k].note) && r.value[k].octave == octave[k]) &&
         (forall k :: 0 <= k < |d| - 1 ==> r.value[k].hi == r.value[k + 1].lo))
  {
    SlicesFromOutcome(y, d, degree, octave, 0, []);
    assert d[..0] == [];
    var r := Slices(y, d, degree, octave);
    if |d| <= |degree| && |d| <= |octave| && forall j :: 0 <= j < |d| ==> -12 <= degree[j] < 12 {
      assert forall j :: 0 <= j < |d| ==> Sliceable(d, degree, octave, j);
    }
    if r.Success? {
      forall k | 0 <= k < |d| ensures r.value[k] == Expected(y, d, degree, octave, k) {
        assert r.value[0 + k - 0] == Expected(y, d, degree, octave, k);
      }
      forall j | 0 <= j < |d| ensures j < |degree| && j < |octave| && -12 <= degree[j] < 12 {
        assert Sliceable(d, degree, octave, j);
      }
      if |d| > 0 {
        assert Sliceable(d, degree, octave, |d| - 1);
      }
    }
  }

  /** A well-formed pitch event always slices without failure. */
  lemma ParsedEventSlices(y: seq<int>, e: Event)
    requires WellFormed(e) && e.Pitch?
    ensures Slices(y, e.duration, e.degree, e.octave).Success?
  {
    SlicePlan(y, e.duration, e.degree, e.octave);
  }

  predicate NonNegative(d: seq<real>) {
    forall k :: 0 <= k < |d| ==> d[k] >= 0.0
  }

  lemma {:induction false} SumPrefixGrows(d: seq<real>, k: nat)
    requires k < |d| && NonNegative(d)
    ensures Sum(d[..k]) <= Sum(d[..k + 1])
  {
    assert d[..k + 1][..k] == d[..k];
  }

  lemma {:induction false} SumNonNegative(d: seq<real>)
    requires NonNegative(d)
    ensures Sum(d) >= 0.0
  {
    if d != [] {
      SumNonNegative(d[..|d| - 1]);
    }
  }

  /** With durations that are not negative, the cuts never go back. */
  lemma CutsInOrder(d: seq<real>, k: nat)
    requires k < |d| && NonNegative(d)
    ensures 0 <= Cut(d, k) <= Cut(d, k + 1)
  {
    SumPrefixGrows(d, k);
    SumNonNegative(d[..k]);
    TruncMonotone(Sum(d[..k]) * 0.001 * (TargetSr as real), Sum(d[..k + 1]) * 0.001 * (TargetSr as real));
  }

  function Concat(ss: seq<Slice>): seq<int> {
    if ss == [] then [] else Concat(ss[..|ss| - 1]) + ss[|ss| - 1].samples
  }

  lemma PySliceJoin(y: seq<int>, a: int, b: int, c: int)
    requires 0 <= a <= b <= c
    ensures PySlice(y, a, b) + PySlice(y, b, c) == PySlice(y, a, c)
  {
  }

  /** With durations that are not negative, the slices tile the stretched
      samples from 0 to the last cut, each sample in exactly one slice. */
  lemma {:induction false} SlicesTile(y: seq<int>, d: seq<real>, degree: seq<int>, octave: seq<int>, n: nat)
    requires NonNegative(d) && Slices(y, d, degree, octave).Success? && n <= |d|
    ensures n <= |Slices(y, d, degree, octave).value|
    ensures Concat(Slices(y, d, degree, octave).value[..n]) == PySlice(y, 0, Cut(d, n))
  {
    SlicePlan(y, d, degree, octave);
    var ss := Slices(y, d, degree, octave).value;
    if n == 0 {
      assert d[..0] == [];
      assert PySlice(y, 0, 0) == [];
    } else {
      SlicesTile(y, d, degree, octave, n - 1);
      assert ss[..n][..n - 1] == ss[..n - 1];
      CutsInOrder(d, n - 1);
      if n == 1 {
        assert d[..0] == [];
      } else {
        CutsInOrder(d, n - 2);
      }
      PySliceJoin(y, 0, Cut(d, n - 1), Cut(d, n));
    }
  }

  // ---------------------------------------------------------------------
  // Mixing the parts
  // ---------------------------------------------------------------------

  /** pydub's `base.overlay(top)`: as long as `base`, with `top` added from
      the start and cut off at the end of `base`. */
  function Overlay(base: seq<int>, top: seq<int>): (r: seq<int>)
    ensures |r| == |base|
    ensures forall k :: 0 <= k < |base| ==> r[k] == base[k] + (if k < |top| then top[k] else 0)
  {
    seq(|base|, k requires 0 <= k < |base| => base[k] + (if k < |top| then top[k] else 0))
  }

  /** One part mixed in: it becomes the base only when strictly longer than
      the mix so far. */
  function MixStep(whole: seq<int>, part: seq<int>): seq<int> {
    if |part| > |whole| then Overlay(part, whole) else Overlay(whole, part)
  }

  function MixFrom(whole: seq<int>, parts: seq<seq<int>>, k: nat): seq<int>
    requires k <= |parts|
    decreases |parts| - k
  {
    if k == |parts| then whole else MixFrom(MixStep(whole, parts[k]), parts, k + 1)
  }

  /** The mix-down loop, from an empty segment on. */
  method MixDown(parts: seq<seq<int>>) returns (whole: seq<int>)
    ensures whole == MixFrom([], parts, 0)
  {
    whole := [];
    var k := 0;
    while k < |parts|
      invariant k <= |parts|
      invariant MixFrom(whole, parts, k) == MixFrom([], parts, 0)
    {
      var part := parts[k];
      if |part| > |whole| {
        whole := Overlay(part, whole);
      } else {
        whole := Overlay(whole, part);
      }
      k := k + 1;
    }
  }

  /** Sample `k` of `parts[..n]` summed, counting a part only where it lasts. */
  function SampleSum(parts: seq<seq<int>>, n: nat, k: int): int
    requires n <= |parts|
  {
    if n == 0 then 0 else SampleSum(parts, n - 1, k) + (if 0 <= k < |parts[n - 1]| then parts[n - 1][k] else 0)
  }

  /** The length of the longest of `parts[..n]`. */
  function Longest(parts: seq<seq<int>>, n: nat): nat
    requires n <= |parts|
  {
    if n == 0 then 0 else
      var m := Longest(parts, n - 1);
      if |parts[n - 1]| > m then |parts[n - 1]| else m
  }

  lemma {:induction false} MixFromSums(parts: seq<seq<int>>, k: nat, whole: seq<int>)
    requires k <= |parts|
    requires |whole| == Longest(parts, k)
    requires forall j :: 0 <= j < |whole| ==> whole[j] == SampleSum(parts, k, j)
    ensures |MixFrom(whole, parts, k)| == Longest(parts, |parts|)
    ensures forall j :: 0 <= j < |MixFrom(whole, parts, k)| ==> MixFrom(whole, parts, k)[j] == SampleSum(parts, |parts|, j)
    decreases |parts| - k
  {
    if k < |parts| {
      var next := MixStep(whole, parts[k]);
      forall j | 0 <= j < |next| ensures next[j] == SampleSum(parts, k + 1, j) {
        if j >= |whole| {
          SampleSumBeyond(parts, k, j);
        }
      }
      MixFromSums(parts, k + 1, next);
    }
  }

  lemma {:induction false} SampleSumBeyond(parts: seq<seq<int>>, n: nat, j: int)
    requires n <= |parts| && j >= Longest(parts, n)
    ensures SampleSum(parts, n, j) == 0
  {
    if n > 0 {
      SampleSumBeyond(parts, n - 1, j);
    }
  }

  /** Because the longer track is always the base, the mix lasts as long as
      the longest part and nothing of any part is cut off: every sample of
      the mix is the sum of the parts' samples at that point. */
  lemma MixKeepsEveryPart(parts: seq<seq<int>>)
    ensures |MixFrom([], parts, 0)| == Longest(parts, |parts|)
    ensures forall j :: 0 <= j < Longest(parts, |parts|) ==> MixFrom([], parts, 0)[j] == SampleSum(parts, |parts|, j)
  {
    MixFromSums(parts, 0, []);
  }

  /** On a tie the mix so far stays the base; the result is the same as
      with the other choice. */
  lemma MixTie(whole: seq<int>, part: seq<int>)
    requires |part| == |whole|
    ensures MixStep(whole, part) == Overlay(whole, part) == Overlay(part, whole)
  {
  }
}
