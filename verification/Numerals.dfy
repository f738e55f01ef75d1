/**
 * Python's decimal numerals: `str(n)`, and everything `int(raw)` accepts for a byte string --
 * surrounding ASCII blanks, either sign, single underscores between digits.
 */
module Numerals {
  import opened Bytes

  const MINUS: byte := 45
  const PLUS: byte := 43
  const UNDERSCORE: byte := 95

  predicate IsDigit(b: byte) { 48 <= b <= 57 }

  predicate IsBlank(b: byte) { 9 <= b <= 13 || b == 32 }

  predicate AllDigits(s: Bytes) { forall i :: 0 <= i < |s| ==> IsDigit(s[i]) }

  /** `str(n)` for n >= 0. */
  function Digits(n: nat): (s: Bytes)
    ensures s != []
  {
    if n < 10 then [48 + n] else Digits(n / 10) + [48 + n % 10]
  }

  lemma {:induction false} DigitsAreDigits(n: nat)
    ensures AllDigits(Digits(n))
    ensures Digits(n)[0] == 48 <==> n == 0
    ensures n == 0 ==> |Digits(n)| == 1
  {
    if n >= 10 { DigitsAreDigits(n / 10); }
  }

  /** `str(n)`. */
  function Decimal(n: int): (s: Bytes) {
    if n < 0 then [MINUS] + Digits(-n) else Digits(n)
  }

  /** Digits with single underscores between them: the body of a numeral `int` accepts. */
  predicate IsRun(s: Bytes) {
    s != [] && IsDigit(s[|s| - 1]) &&
    (|s| == 1 || IsRun(s[..|s| - 1]) || (s[|s| - 2] == UNDERSCORE && IsRun(s[..|s| - 2])))
  }

  function RunValue(s: Bytes): nat {
    if s == [] then 0
    else
      var last := s[|s| - 1];
      var init := RunValue(s[..|s| - 1]);
      if IsDigit(last) then init * 10 + (last - 48) else init
  }

  function StripLeft(s: Bytes): Bytes {
    if s != [] && IsBlank(s[0]) then StripLeft(s[1..]) else s
  }

  function StripRight(s: Bytes): Bytes {
    if s != [] && IsBlank(s[|s| - 1]) then StripRight(s[..|s| - 1]) else s
  }

  /** `int(raw)`; None is its ValueError. */
  function PyInt(raw: Bytes): Option<int> {
    var s := StripRight(StripLeft(raw));
    if s == [] then None
    else
      var body := if s[0] == MINUS || s[0] == PLUS then s[1..] else s;
      if !IsRun(body) then None
      else
        var magnitude: int := RunValue(body);
        Some(if s[0] == MINUS then -magnitude else magnitude)
  }

  /** A numeral written with digits only, after at most one minus sign. */
  predicate IsPlain(raw: Bytes) {
    raw != [] && (AllDigits(raw) || (|raw| > 1 && raw[0] == MINUS && AllDigits(raw[1..])))
  }

  /** The decoder's checks on a numeral: no leading zero, no negative zero. */
  predicate HasLeadingZero(raw: Bytes) {
    || (|raw| > 1 && raw[0] == 48)
    || (|raw| > 1 && raw[0] == MINUS && raw[1] == 48)
  }

  lemma {:induction false} DigitsAreRuns(s: Bytes)
    requires s != [] && AllDigits(s)
    ensures IsRun(s)
  {
    if |s| > 1 {
      DigitsAreRuns(s[..|s| - 1]);
    }
  }

  lemma {:induction false} RunValueOfDigits(n: nat)
    ensures RunValue(Digits(n)) == n
  {
    var s := Digits(n);
    if n < 10 {
      assert s[..0] == [];
    } else {
      RunValueOfDigits(n / 10);
      assert s[..|s| - 1] == Digits(n / 10);
    }
  }

  lemma StripKeeps(s: Bytes)
    requires s != [] && !IsBlank(s[0]) && !IsBlank(s[|s| - 1])
    ensures StripRight(StripLeft(s)) == s
  {}

  /** `int(str(n)) == n`, and `str` never trips the decoder's leading-zero checks. */
  lemma PyIntOfDecimal(n: int)
    ensures PyInt(Decimal(n)) == Some(n)
    ensures IsPlain(Decimal(n)) && !HasLeadingZero(Decimal(n))
    ensures n >= 0 ==> AllDigits(Decimal(n))
  {
    var magnitude := if n < 0 then -n else n;
    var s := Decimal(n);
    DigitsAreDigits(magnitude);
    DigitsAreRuns(Digits(magnitude));
    RunValueOfDigits(magnitude);
    assert n < 0 ==> s[1..] == Digits(magnitude);
    assert s[|s| - 1] == Digits(magnitude)[|Digits(magnitude)| - 1];
    StripKeeps(s);
  }

  /** The value of a run has no more digits than the run, and equally many only without underscores. */
  lemma {:induction false} RunIsNoShorter(s: Bytes)
    requires IsRun(s)
    ensures |Digits(RunValue(s))| <= |s|
    ensures !AllDigits(s) ==> |Digits(RunValue(s))| < |s|
  {
    if |s| == 1 {
      assert RunValue(s[..0]) == 0;
    } else {
      var init := s[..|s| - 1];
      if !IsRun(init) {
        assert s[|s| - 2] == UNDERSCORE && init[|init| - 1] == UNDERSCORE;
        assert init[..|init| - 1] == s[..|s| - 2];
        RunIsNoShorter(s[..|s| - 2]);
        assert RunValue(init) == RunValue(s[..|s| - 2]);
      } else {
        RunIsNoShorter(init);
        assert !AllDigits(s) ==> !AllDigits(init);
      }
      TenfoldDigits(RunValue(init), s[|s| - 1] - 48);
    }
  }

  lemma TenfoldDigits(n: nat, d: nat)
    requires d < 10
    ensures |Digits(n * 10 + d)| <= |Digits(n)| + 1
  {
    assert (n * 10 + d) / 10 == n;
  }

  /** Digits without a leading zero are exactly what `str` prints for their value. */
  lemma {:induction false} CanonicalDigits(s: Bytes)
    requires s != [] && AllDigits(s) && !(|s| > 1 && s[0] == 48)
    ensures Digits(RunValue(s)) == s
  {
    var init, last := s[..|s| - 1], s[|s| - 1];
    if |s| == 1 {
      assert RunValue(init) == 0;
    } else {
      CanonicalDigits(init);
      var n := RunValue(init);
      assert n != 0 by {
        assert Digits(n) == init;
        assert init[0] == s[0];
      }
      assert (n * 10 + (last - 48)) / 10 == n && (n * 10 + (last - 48)) % 10 == last - 48;
    }
    assert s == init + [last];
  }

  lemma {:induction false} StripLeftShortens(s: Bytes)
    ensures |StripLeft(s)| <= |s| && (|StripLeft(s)| == |s| ==> StripLeft(s) == s)
  {
    if s != [] && IsBlank(s[0]) {
      StripLeftShortens(s[1..]);
    }
  }

  lemma {:induction false} StripRightShortens(s: Bytes)
    ensures |StripRight(s)| <= |s| && (|StripRight(s)| == |s| ==> StripRight(s) == s)
  {
    if s != [] && IsBlank(s[|s| - 1]) {
      StripRightShortens(s[..|s| - 1]);
    }
  }

  /**
   * A numeral `int` accepts and the decoder lets through re-prints to itself exactly when it is
   * plain; any other spelling re-prints strictly shorter.
   */
  lemma ReprintedNumeral(raw: Bytes)
    requires PyInt(raw).Some? && !HasLeadingZero(raw)
    ensures IsPlain(raw) ==> Decimal(PyInt(raw).value) == raw
    ensures !IsPlain(raw) ==> |Decimal(PyInt(raw).value)| < |raw|
  {
    var s := StripRight(StripLeft(raw));
    StripLeftShortens(raw);
    StripRightShortens(StripLeft(raw));
    var signed := s[0] == MINUS || s[0] == PLUS;
    var body := if signed then s[1..] else s;
    RunIsNoShorter(body);
    if IsPlain(raw) {
      StripKeeps(raw);
      CanonicalDigits(body);
      assert Digits(RunValue(body)) == body;
      assert s == if signed then [s[0]] + body else body;
    } else if |s| == |raw| {
      assert s == raw;
      assert s[0] == MINUS ==> !AllDigits(body);
    }
  }
}
