/**
 * Selection of the models to benchmark from the grouped parameter table:
 * the `test_groups` flag is read into an `int` with `operator>>`, and only
 * when that yields 0 is the first entry of every group taken, in group order.
 */
module TestGroups {
  import opened Types

  /** The characters `operator>>` skips before a number ("C" locale isspace). */
  predicate IsSpace(c: char) {
    c == ' ' || c == '\t' || c == '\n' || c == '\U{000B}' || c == '\U{000C}' || c == '\r'
  }

  predicate IsDigit(c: char) { '0' <= c <= '9' }

  /** `s` with its leading white space removed. */
  function SkipSpace(s: string): (r: string)
    ensures |r| <= |s| && r == s[|s| - |r|..]
    ensures r == [] || !IsSpace(r[0])
    ensures forall k :: 0 <= k < |s| - |r| ==> IsSpace(s[k])
  {
    if s != [] && IsSpace(s[0]) then SkipSpace(s[1..]) else s
  }

  /** The longest prefix of `s` made of decimal digits. */
  function DigitPrefix(s: string): (r: string)
    ensures r <= s
    ensures forall k :: 0 <= k < |r| ==> IsDigit(r[k])
    ensures |r| < |s| ==> !IsDigit(s[|r|])
  {
    if s != [] && IsDigit(s[0]) then [s[0]] + DigitPrefix(s[1..]) else []
  }

  function DigitValue(c: char): (d: nat)
    requires IsDigit(c)
    ensures d < 10
  {
    c as int - '0' as int
  }

  /** The value of a run of decimal digits, most significant first. */
  function DigitsValue(ds: string): nat
    requires forall k :: 0 <= k < |ds| ==> IsDigit(ds[k])
  {
    if ds == [] then 0
    else DigitsValue(ds[..|ds| - 1]) * 10 + DigitValue(ds[|ds| - 1])
  }

  /** The distance between two integers. */
  function Dist(a: int, b: int): nat {
    if a < b then b - a else a - b
  }

  /**
   * Saturation to the range of `int`, as `operator>>(int&)` does on
   * overflow: the `int` nearest to `v`.
   */
  function Clamp(v: int): (r: int32)
    ensures forall x: int32 :: Dist(r, v) <= Dist(x, v)
  {
    if v < INT32_MIN then INT32_MIN else if v > INT32_MAX then INT32_MAX else v
  }

  /**
   * `std::stringstream ss(s); int n = 0; ss >> n;` since C++11: white space
   * is skipped, an optional sign and then decimal digits are read; an
   * out-of-range value stores INT_MIN or INT_MAX, and anything after the
   * digits is ignored. When no digit follows, the result is 0 in two ways:
   * text that is empty or all white space makes the extraction fail before
   * anything is stored, so `n` keeps its initial 0; a failed conversion
   * (a letter, or a sign without digits) stores 0. A non-zero reading needs
   * a digit somewhere in the text.
   */
  function ExtractInt(s: string): (r: int32)
    ensures r != 0 ==> exists k :: 0 <= k < |s| && IsDigit(s[k])
  {
    ReadSigned(SkipSpace(s))
  }

  /** The number at the start of `t`, which does not start with white space. */
  function ReadSigned(t: string): (r: int32)
    ensures r != 0 ==> exists k :: 0 <= k < |t| && IsDigit(t[k])
  {
    if t != [] && t[0] == '-' then ReadMagnitude(t[1..], true)
    else if t != [] && t[0] == '+' then ReadMagnitude(t[1..], false)
    else ReadMagnitude(t, false)
  }

  /** The digits at the start of `u`, negated when a '-' preceded them. */
  function ReadMagnitude(u: string, negative: bool): (r: int32)
    ensures r != 0 ==> u != [] && IsDigit(u[0])
  {
    var digits := DigitPrefix(u);
    var magnitude: int := DigitsValue(digits);
    if digits == [] then 0 else Clamp(if negative then -magnitude else magnitude)
  }

  /** Decimal rendering of a natural number, as `std::to_string` writes it. */
  function Decimal(n: nat): (r: string)
    ensures r != []
    ensures forall k :: 0 <= k < |r| ==> IsDigit(r[k])
  {
    var last := ['0' + (n % 10) as char];
    if n < 10 then last else Decimal(n / 10) + last
  }

  /** Decimal rendering of an `int`, with a leading '-' when negative. */
  function IntToString(n: int32): string {
    var m: int := n;
    if m < 0 then "-" + Decimal(-m) else Decimal(m)
  }

  lemma {:induction false} DecimalValue(n: nat)
    ensures DigitsValue(Decimal(n)) == n
  {
    var d := Decimal(n);
    if n >= 10 {
      DecimalValue(n / 10);
      assert d[..|d| - 1] == Decimal(n / 10);
    }
  }

  lemma {:induction false} DigitPrefixOfDigits(s: string)
    requires forall k :: 0 <= k < |s| ==> IsDigit(s[k])
    ensures DigitPrefix(s) == s
  {
    if s != [] {
      DigitPrefixOfDigits(s[1..]);
    }
  }

  /** A run of digits, signed or not, reads as its value, saturated. */
  lemma ReadDigits(d: string, negative: bool)
    requires d != [] && DigitPrefix(d) == d
    ensures ReadMagnitude(d, negative) ==
      Clamp(if negative then -(DigitsValue(d) as int) else DigitsValue(d))
  {
  }

  /** A decimal rendering is read in full. */
  lemma DecimalDigits(n: nat)
    ensures DigitPrefix(Decimal(n)) == Decimal(n)
  {
    DigitPrefixOfDigits(Decimal(n));
  }

  /** The rendering of an `int` starts with its sign, not with white space. */
  lemma ReadSignedToString(n: int32)
    ensures ReadSigned(IntToString(n)) == n
  {
    var m: int := n;
    var magnitude: nat := if m < 0 then -m else m;
    var d := Decimal(magnitude);
    DecimalValue(magnitude);
    DecimalDigits(magnitude);
    ReadDigits(d, m < 0);
    if m < 0 {
      assert IntToString(n)[1..] == d;
    }
  }

  /**
   * Reading back the decimal rendering of any `int` yields that `int`: the
   * flag values "0" and "-1" mean what they say.
   */
  lemma ExtractIntToString(n: int32)
    ensures ExtractInt(IntToString(n)) == n
  {
    var s := IntToString(n);
    assert IsDigit(Decimal(if n < 0 then -(n as int) else n)[0]);
    assert SkipSpace(s) == s;
    ReadSignedToString(n);
  }

  /**
   * A flag without any decimal digit is read as 0: every such value,
   * the empty one included, selects the first model of every group.
   */
  lemma NoDigitReadsZero(s: string)
    requires forall k :: 0 <= k < |s| ==> !IsDigit(s[k])
    ensures ExtractInt(s) == 0
  {
    var t := SkipSpace(s);
    assert t == [] || !IsDigit(t[0]) by {
      if t != [] {
        assert t[0] == s[|s| - |t|];
      }
    }
    assert |t| > 1 ==> !IsDigit(t[1]) by {
      if |t| > 1 {
        assert t[1] == s[|s| - |t| + 1];
      }
    }
    ReadSignedNoDigit(t);
  }

  /** Without a digit at the start, or right after a sign, nothing is read. */
  lemma ReadSignedNoDigit(t: string)
    requires t == [] ||
      (if t[0] == '+' || t[0] == '-' then |t| == 1 || !IsDigit(t[1]) else !IsDigit(t[0]))
    ensures ReadSigned(t) == 0
  {
  }

  /**
   * A run of digits too large for an `int` reads as INT_MAX, and after a
   * '-' as INT_MIN once its value passes 2^31.
   */
  lemma ReadOverflow(d: string)
    requires d != [] && DigitPrefix(d) == d
    ensures DigitsValue(d) > INT32_MAX ==> ReadSigned(d) == INT32_MAX
    ensures DigitsValue(d) > -INT32_MIN ==> ReadSigned("-" + d) == INT32_MIN
  {
    assert IsDigit(d[0]);
    assert ("-" + d)[1..] == d;
    ReadDigits(d, false);
    ReadDigits(d, true);
  }

  /**
   * The loop over the groups: the first entry of every group, in group
   * order. Taking `item[0]` of an empty group is undefined, hence the
   * requirement.
   */
  method FirstOfEach(allModelParams: seq<seq<Params>>) returns (firsts: seq<Params>)
    requires forall g :: 0 <= g < |allModelParams| ==> allModelParams[g] != []
    ensures |firsts| == |allModelParams|
    ensures forall g :: 0 <= g < |allModelParams| ==> firsts[g] == allModelParams[g][0]
  {
    firsts := [];
    var g := 0;
    while g < |allModelParams|
      invariant 0 <= g <= |allModelParams|
      invariant |firsts| == g
      invariant forall h :: 0 <= h < g ==> firsts[h] == allModelParams[h][0]
    {
      firsts := firsts + [allModelParams[g][0]];
      g := g + 1;
    }
  }

  /**
   * The selection step of the driver: `testModelParams` is the list built so
   * far (empty in the driver); only when it is empty is the flag read, and
   * only a flag read as 0 appends the first entry of every group.
   */
  method SelectTestModelParams(testGroups: string, allModelParams: seq<seq<Params>>,
                               testModelParams: seq<Params>)
    returns (selected: seq<Params>)
    requires testModelParams == [] && ExtractInt(testGroups) == 0 ==>
      forall g :: 0 <= g < |allModelParams| ==> allModelParams[g] != []
    ensures testModelParams != [] ==> selected == testModelParams
    ensures testModelParams == [] && ExtractInt(testGroups) != 0 ==> selected == []
    ensures testModelParams == [] && ExtractInt(testGroups) == 0 ==>
      |selected| == |allModelParams| &&
      forall g :: 0 <= g < |allModelParams| ==> selected[g] == allModelParams[g][0]
  {
    selected := testModelParams;
    if selected == [] {
      var tmpInt := ExtractInt(testGroups);
      if tmpInt == 0 {
        var firsts := FirstOfEach(allModelParams);
        selected := selected + firsts;
      }
    }
  }

  /** With the default flag value "-1" nothing is selected. */
  lemma DefaultSelectsNothing()
    ensures ExtractInt("-1") == -1
  {
    MinusOneRendering();
    ExtractIntToString(-1);
  }

  lemma MinusOneRendering()
    ensures IntToString(-1) == "-1"
  {
    assert Decimal(1) == "1";
  }
}
