/** Helpers shared by every stage of the singing pipeline (util.py):
    the failure result that `error` produces, `not_none`, `s_to_ms` and
    `strip_word`. */
module Util {

  datatype Option<+T> = None | Some(value: T)

  /** Why a run stops: `error(msg)` prints the message and exits (Fatal);
      an uncaught Python exception also ends the run (Crash). */
  datatype Error = Fatal(message: string) | Crash(exception: string)

  datatype Result<+T> = Success(value: T) | Failure(error: Error) {
    predicate IsFailure() { Failure? }
    function PropagateFailure<U>(): Result<U>
      requires Failure?
    {
      Failure(error)
    }
    function Extract(): T
      requires Success?
    {
      value
    }
  }

  /** A check that either passes or stops the run. */
  datatype Outcome = Pass | Fail(error: Error)

  /** `not_none`: the value itself, or `error('none')`. */
  function NotNone<T>(x: Option<T>): (r: Result<T>)
    ensures r.Success? <==> x.Some?
    ensures x.Some? ==> r.value == x.value
    ensures x.None? ==> r.error == Fatal("none")
  {
    match x
    case Some(v) => Success(v)
    case None => Failure(Fatal("none"))
  }

  /** Python's `int(x)` on a float: truncation toward zero. */
  function Trunc(x: real): (r: int)
    ensures x >= 0.0 ==> 0 <= r && r as real <= x < r as real + 1.0
    ensures x < 0.0 ==> r <= 0 && r as real - 1.0 < x <= r as real
  {
    if x >= 0.0 then x.Floor else -((-x).Floor)
  }

  /** `s_to_ms`: seconds to whole milliseconds, truncated toward zero. */
  function SToMs(secs: real): (ms: int)
    ensures secs >= 0.0 ==> ms as real <= secs * 1000.0 < ms as real + 1.0
    ensures secs < 0.0 ==> ms as real - 1.0 < secs * 1000.0 <= ms as real
  {
    Trunc(secs * 1000.0)
  }

  /** Truncation never reverses an order. */
  lemma TruncMonotone(x: real, y: real)
    requires x <= y
    ensures Trunc(x) <= Trunc(y)
  {
  }

  predicate IsLetter(c: char) {
    'a' <= c <= 'z'
  }

  /** ASCII lower-casing of one character. */
  function Lower(c: char): (l: char)
    ensures 'A' <= c <= 'Z' ==> l as int == c as int + 32
    ensures !('A' <= c <= 'Z') ==> l == c
  {
    if 'A' <= c <= 'Z' then (c as int + 32) as char else c
  }

  function LowerString(w: string): (l: string)
    ensures |l| == |w|
    ensures forall i :: 0 <= i < |w| ==> l[i] == Lower(w[i])
  {
    if w == [] then [] else [Lower(w[0])] + LowerString(w[1..])
  }

  /** `strip_word`: lower-case the word and delete every character outside `a`..`z`. */
  function StripWord(w: string): (r: string)
    ensures |r| <= |w|
    ensures forall i :: 0 <= i < |r| ==> IsLetter(r[i])
  {
    if w == [] then []
    else
      var c := Lower(w[0]);
      (if IsLetter(c) then [c] else []) + StripWord(w[1..])
  }

  predicate IsStripped(w: string) {
    forall i :: 0 <= i < |w| ==> IsLetter(w[i])
  }

  /** `a` is `b` with some characters deleted, order kept. */
  predicate IsSubsequence(a: string, b: string)
    decreases |b|
  {
    if a == [] then true
    else if b == [] then false
    else if a[0] == b[0] then IsSubsequence(a[1..], b[1..])
    else IsSubsequence(a, b[1..])
  }

  lemma {:induction false} StripOfStripped(w: string)
    requires IsStripped(w)
    ensures StripWord(w) == w
  {
    if w != [] {
      assert IsLetter(w[0]) && Lower(w[0]) == w[0];
      StripOfStripped(w[1..]);
    }
  }

  /** Stripping twice is stripping once. */
  lemma StripIdempotent(w: string)
    ensures StripWord(StripWord(w)) == StripWord(w)
  {
    StripOfStripped(StripWord(w));
  }

  /** Words that differ only in letter case strip to the same word. */
  lemma {:induction false} StripCaseInsensitive(a: string, b: string)
    requires |a| == |b|
    requires forall i :: 0 <= i < |a| ==> Lower(a[i]) == Lower(b[i])
    ensures StripWord(a) == StripWord(b)
  {
    if a != [] {
      assert Lower(a[0]) == Lower(b[0]);
      StripCaseInsensitive(a[1..], b[1..]);
    }
  }

  /** Stripping distributes over concatenation, so a word stripped syllable by
      syllable is the stripped word. */
  lemma {:induction false} StripConcat(a: string, b: string)
    ensures StripWord(a + b) == StripWord(a) + StripWord(b)
  {
    if a == [] {
      assert a + b == b;
    } else {
      assert (a + b)[0] == a[0];
      assert (a + b)[1..] == a[1..] + b;
      StripConcat(a[1..], b);
    }
  }

  /** The stripped word is a subsequence of the lower-cased word. */
  lemma {:induction false} StripIsSubsequence(w: string)
    ensures IsSubsequence(StripWord(w), LowerString(w))
  {
    if w != [] {
      StripIsSubsequence(w[1..]);
      var l := LowerString(w);
      assert l[1..] == LowerString(w[1..]);
      if !IsLetter(Lower(w[0])) {
        assert StripWord(w) == StripWord(w[1..]);
        SubsequenceSkip(StripWord(w), l);
      }
    }
  }

  lemma {:induction false} SubsequenceSkip(a: string, b: string)
    requires b != [] && IsSubsequence(a, b[1..])
    ensures IsSubsequence(a, b)
    decreases |b|, 0
  {
    if a != [] && a[0] == b[0] {
      SubsequenceDropHead(a, b[1..]);
    }
  }

  lemma {:induction false} SubsequenceDropHead(a: string, c: string)
    requires a != [] && IsSubsequence(a, c)
    ensures IsSubsequence(a[1..], c)
    decreases |c|, 1
  {
    if a[0] == c[0] {
      SubsequenceSkip(a[1..], c);
    } else {
      SubsequenceDropHead(a, c[1..]);
      SubsequenceSkip(a[1..], c);
    }
  }

  /** Every letter `a`..`z` of the lower-cased word survives, as often as it occurs;
      nothing else does. */
  lemma {:induction false} StripKeepsLetters(w: string, c: char)
    ensures multiset(StripWord(w))[c] == if IsLetter(c) then multiset(LowerString(w))[c] else 0
  {
    if w != [] {
      StripKeepsLetters(w[1..], c);
      var d := Lower(w[0]);
      assert LowerString(w) == [d] + LowerString(w[1..]);
      assert multiset(LowerString(w)) == multiset([d]) + multiset(LowerString(w[1..]));
      if IsLetter(d) {
        assert multiset(StripWord(w)) == multiset([d]) + multiset(StripWord(w[1..]));
      } else {
        assert StripWord(w) == StripWord(w[1..]);
      }
    }
  }
}
