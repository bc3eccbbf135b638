/**
 * Time-code formatting of `ASR._time`: a millisecond count is split by
 * successive modulo and floor division with the divisors 1000, 60, 60, 60 into
 * milliseconds, seconds, minutes and hours, and rendered with the pattern
 * `{h:02}:{m:02}:{s:02},{ms:03}`.
 *
 * Python's `%` and `//` with a positive divisor round towards negative
 * infinity, which is exactly Dafny's Euclidean `%` and `/` for a positive
 * divisor, so the model covers every integer input, negative ones included.
 * The last field is also reduced modulo 60, so hours wrap at 60.
 */
module TimeCode {

  // ---------------------------------------------------------------- decimals

  predicate IsDigit(c: char) { '0' <= c <= '9' }

  predicate AllDigits(s: string) { forall i :: 0 <= i < |s| ==> IsDigit(s[i]) }

  function DigitChar(d: nat): (c: char)
    requires d < 10
    ensures IsDigit(c) && c as int - '0' as int == d
  {
    ('0' as int + d) as char
  }

  function DigitValue(c: char): nat
    requires IsDigit(c)
  {
    c as int - '0' as int
  }

  function Pow10(k: nat): (r: nat)
    ensures r >= 1
  {
    if k == 0 then 1 else 10 * Pow10(k - 1)
  }

  /** Python's `str(n)` for a non-negative integer: no leading zeros, "0" for zero. */
  function Digits(n: nat): string
  {
    if n < 10 then [DigitChar(n)] else Digits(n / 10) + [DigitChar(n % 10)]
  }

  /** The value of a string of decimal digits; leading zeros count for nothing. */
  function ParseDecimal(s: string): nat
    requires AllDigits(s)
  {
    if s == [] then 0 else 10 * ParseDecimal(s[..|s| - 1]) + DigitValue(s[|s| - 1])
  }

  /** `"{:0w}".format(n)`: the digits of n, left-filled with '0' up to width w. */
  function Padded(n: nat, w: nat): string
  {
    var d := Digits(n);
    if |d| < w then Zeros(w - |d|) + d else d
  }

  function Zeros(k: nat): (r: string)
    ensures |r| == k && forall i :: 0 <= i < k ==> r[i] == '0'
  {
    if k == 0 then [] else Zeros(k - 1) + ['0']
  }

  /** Digits(n) is a non-empty digit string that reads back as n, with no leading zero. */
  lemma {:induction false} DigitsFacts(n: nat)
    ensures AllDigits(Digits(n)) && |Digits(n)| >= 1
    ensures ParseDecimal(Digits(n)) == n
    ensures |Digits(n)| > 1 ==> Digits(n)[0] != '0'
  {
    if n >= 10 {
      DigitsFacts(n / 10);
      var d := Digits(n);
      assert d[..|d| - 1] == Digits(n / 10);
    }
  }

  /** A number below 10^w has at most w digits. */
  lemma {:induction false} DigitsLength(n: nat, w: nat)
    requires 1 <= w && n < Pow10(w)
    ensures |Digits(n)| <= w
  {
    if n >= 10 {
      assert w >= 2;
      DigitsLength(n / 10, w - 1);
    }
  }

  /** A leading '0' does not change the value of a digit string. */
  lemma {:induction false} LeadingZero(s: string)
    requires AllDigits(s)
    ensures AllDigits(['0'] + s) && ParseDecimal(['0'] + s) == ParseDecimal(s)
  {
    if s != [] {
      LeadingZero(s[..|s| - 1]);
      assert (['0'] + s)[..|s|] == ['0'] + s[..|s| - 1];
    }
  }

  lemma {:induction false} LeadingZeros(k: nat, s: string)
    requires AllDigits(s)
    ensures AllDigits(Zeros(k) + s) && ParseDecimal(Zeros(k) + s) == ParseDecimal(s)
  {
    if k > 0 {
      var s' := ['0'] + s;
      assert Zeros(k) + s == Zeros(k - 1) + s';
      LeadingZero(s);
      LeadingZeros(k - 1, s');
    } else {
      assert Zeros(k) + s == s;
    }
  }

  /** For n below 10^w the padded rendering is exactly w digits and reads back as n. */
  lemma {:induction false} PaddedFacts(n: nat, w: nat)
    requires 1 <= w && n < Pow10(w)
    ensures |Padded(n, w)| == w && AllDigits(Padded(n, w))
    ensures ParseDecimal(Padded(n, w)) == n
  {
    var d := Digits(n);
    assert AllDigits(d) && ParseDecimal(d) == n && |d| <= w by {
      DigitsFacts(n);
      DigitsLength(n, w);
    }
    if |d| < w {
      var z := Zeros(w - |d|);
      assert AllDigits(z + d) && ParseDecimal(z + d) == n by {
        LeadingZeros(w - |d|, d);
      }
      assert Padded(n, w) == z + d;
    } else {
      assert Padded(n, w) == d;
    }
  }

  // ------------------------------------------------------------ the division

  /** Python's `t % c` for a positive divisor: the floored remainder. */
  function FloorMod(t: int, c: int): (r: int)
    requires c > 0
    ensures 0 <= r < c
  {
    t % c
  }

  /** Python's `t // c` for a positive divisor: the floored quotient. */
  function FloorDiv(t: int, c: int): (q: int)
    requires c > 0
    ensures t == c * q + FloorMod(t, c)
  {
    t / c
  }

  /** The divisors of `_time`'s generator, in order. */
  const Divisors: seq<int> := [1000, 60, 60, 60]

  predicate Positive(ds: seq<int>) { forall i :: 0 <= i < |ds| ==> ds[i] > 0 }

  /**
   * The values the generator yields: for each divisor c in turn, the current
   * value modulo c, after which the value is floor-divided by c.
   */
  function Split(t: int, ds: seq<int>): (r: seq<int>)
    requires Positive(ds)
    ensures |r| == |ds|
    ensures forall i :: 0 <= i < |ds| ==> 0 <= r[i] < ds[i]
    decreases ds
  {
    if ds == [] then [] else [FloorMod(t, ds[0])] + Split(FloorDiv(t, ds[0]), ds[1..])
  }

  datatype Fields = Fields(h: int, m: int, s: int, ms: int)

  predicate InRange(f: Fields)
  {
    0 <= f.ms < 1000 && 0 <= f.s < 60 && 0 <= f.m < 60 && 0 <= f.h < 60
  }

  /** The four fields `ms, s, m, h = f(microsecond)` unpacks. */
  function FieldsOf(t: int): (f: Fields)
    ensures InRange(f)
  {
    var r := Split(t, Divisors);
    Fields(r[3], r[2], r[1], r[0])
  }

  /**
   * The fields in closed form: milliseconds, then seconds, minutes and hours,
   * each the floored quotient by 1000, 60000 and 3600000 taken modulo 60.
   */
  lemma FieldsFormula(t: int)
    ensures FieldsOf(t).ms == t % 1000
    ensures FieldsOf(t).s == (t / 1000) % 60
    ensures FieldsOf(t).m == (t / 60000) % 60
    ensures FieldsOf(t).h == (t / 3600000) % 60
  {
    var q1 := FloorDiv(t, 1000);
    var q2 := FloorDiv(q1, 60);
    var q3 := FloorDiv(q2, 60);
    assert Split(t, Divisors) == [FloorMod(t, 1000), FloorMod(q1, 60), FloorMod(q2, 60), FloorMod(q3, 60)] by {
      assert Divisors[1..] == [60, 60, 60];
      assert Divisors[1..][1..] == [60, 60];
      assert Divisors[1..][1..][1..] == [60];
    }
    NestedDivision(t);
  }

  /** Floor division by 1000 and then by 60, 60 equals floor division by the products. */
  lemma NestedDivision(t: int)
    ensures t / 1000 / 60 == t / 60000
    ensures t / 1000 / 60 / 60 == t / 3600000
  {
  }

  /** The length of one hour-wrap cycle: 60 hours in milliseconds. */
  const Cycle: int := 216000000

  /** The fields put back together. */
  function Recompose(f: Fields): int
  {
    f.ms + 1000 * (f.s + 60 * (f.m + 60 * f.h))
  }

  /**
   * The fields reconstruct the input modulo the 60-hour cycle, and the input
   * itself when it lies inside the first cycle.
   */
  lemma Reconstruct(t: int)
    ensures Recompose(FieldsOf(t)) == t % Cycle
    ensures 0 <= t < Cycle ==> Recompose(FieldsOf(t)) == t
  {
    FieldsFormula(t);
    MixedRadix(t, FieldsOf(t));
  }

  /** The mixed-radix law behind the fields, on plain arithmetic. */
  lemma MixedRadix(t: int, f: Fields)
    requires f.ms == t % 1000 && f.s == (t / 1000) % 60
    requires f.m == (t / 60000) % 60 && f.h == (t / 3600000) % 60
    ensures Recompose(f) == t % Cycle
  {
    var q1, r1 := t / 1000, t % 1000;
    NestedDivision(t);
    var q2, r2 := q1 / 60, q1 % 60;
    var q3, r3 := q2 / 60, q2 % 60;
    var q4, r4 := q3 / 60, q3 % 60;
    var x := Recompose(f);
    assert t == 1000 * q1 + r1;
    assert q1 == 60 * q2 + r2;
    assert q2 == 60 * q3 + r3;
    assert q3 == 60 * q4 + r4;
    assert t == Cycle * q4 + x;
    CycleRemainder(t, q4, x);
  }

  lemma CycleRemainder(t: int, q: int, x: int)
    requires 0 <= x < Cycle && t == Cycle * q + x
    ensures t % Cycle == x
  {
  }

  /** Hours wrap: inputs a whole 60-hour cycle apart have the same fields. */
  lemma HourWrap(t: int, k: int)
    ensures FieldsOf(t + k * Cycle) == FieldsOf(t)
  {
    var u := t + k * Cycle;
    CycleRemainder(u, t / Cycle + k, t % Cycle);
    Reconstruct(t);
    Reconstruct(u);
    FieldsDetermined(FieldsOf(t), FieldsOf(u));
  }

  /** Fields within their bounds are determined by the number they recompose to. */
  lemma FieldsDetermined(f: Fields, g: Fields)
    requires InRange(f) && InRange(g)
    requires Recompose(f) == Recompose(g)
    ensures f == g
  {
  }

  // --------------------------------------------------------------- rendering

  /** The pattern `{h:02}:{m:02}:{s:02},{ms:03}` filled in. */
  function Format(f: Fields): string
    requires f.h >= 0 && f.m >= 0 && f.s >= 0 && f.ms >= 0
  {
    Padded(f.h, 2) + ":" + Padded(f.m, 2) + ":" + Padded(f.s, 2) + "," + Padded(f.ms, 3)
  }

  /** The string `_time(t)` returns with its default pattern. */
  function TimeCodeOf(t: int): string
  {
    Format(FieldsOf(t))
  }

  /** The shape `DD:DD:DD,DDD`. */
  predicate WellShaped(s: string)
  {
    |s| == 12 && s[2] == ':' && s[5] == ':' && s[8] == ',' &&
    AllDigits(s[0..2]) && AllDigits(s[3..5]) && AllDigits(s[6..8]) && AllDigits(s[9..12])
  }

  /** Reading the four fields back out of a well-shaped time code. */
  function ParseTimeCode(s: string): Fields
    requires WellShaped(s)
  {
    Fields(ParseDecimal(s[0..2]), ParseDecimal(s[3..5]), ParseDecimal(s[6..8]), ParseDecimal(s[9..12]))
  }

  /**
   * Every time code is 12 characters of the shape `DD:DD:DD,DDD`, and the
   * zero-padded fields read back as exactly the computed fields.
   */
  lemma TimeCodeRoundTrip(t: int)
    ensures WellShaped(TimeCodeOf(t))
    ensures ParseTimeCode(TimeCodeOf(t)) == FieldsOf(t)
  {
    var f := FieldsOf(t);
    assert Pow10(2) == 100 && Pow10(3) == 1000;
    var h, m, s, ms := Padded(f.h, 2), Padded(f.m, 2), Padded(f.s, 2), Padded(f.ms, 3);
    PaddedFacts(f.h, 2);
    PaddedFacts(f.m, 2);
    PaddedFacts(f.s, 2);
    PaddedFacts(f.ms, 3);
    Slices(h, m, s, ms);
  }

  /** Where the four fields sit inside `h:m:s,ms`. */
  lemma Slices(h: string, m: string, s: string, ms: string)
    requires |h| == 2 && |m| == 2 && |s| == 2 && |ms| == 3
    ensures var r := h + ":" + m + ":" + s + "," + ms;
      |r| == 12 && r[2] == ':' && r[5] == ':' && r[8] == ',' &&
      r[0..2] == h && r[3..5] == m && r[6..8] == s && r[9..12] == ms
  {
    var r := h + ":" + m + ":" + s + "," + ms;
    assert r[0..2] == h;
    assert r[3..5] == m;
    assert r[6..8] == s;
    assert r[9..12] == ms;
  }

  /** Two inputs render the same time code exactly when they agree modulo the 60-hour cycle. */
  lemma TimeCodeInjective(t: int, u: int)
    ensures TimeCodeOf(t) == TimeCodeOf(u) <==> t % Cycle == u % Cycle
  {
    TimeCodeRoundTrip(t);
    TimeCodeRoundTrip(u);
    Reconstruct(t);
    Reconstruct(u);
    if t % Cycle == u % Cycle {
      FieldsDetermined(FieldsOf(t), FieldsOf(u));
    }
  }

  /** One turn of the generator moves the head of the remaining split onto what was yielded. */
  lemma SplitStep(yielded: seq<int>, t: int, i: nat)
    requires i < |Divisors|
    ensures yielded + Split(t, Divisors[i..])
         == (yielded + [FloorMod(t, Divisors[i])]) + Split(FloorDiv(t, Divisors[i]), Divisors[i + 1..])
  {
    assert Divisors[i..][1..] == Divisors[i + 1..];
  }

  /** Once every divisor is used, what was yielded is the whole split. */
  lemma SplitDone(yielded: seq<int>, t: int)
    ensures yielded + Split(t, Divisors[|Divisors|..]) == yielded
  {
    assert Divisors[|Divisors|..] == [];
  }

  /**
   * The generator `f` nested in `_time`: the loop over the divisors, with
   * `microsecond` floor-divided in place after each yield.
   */
  method Generate(microsecond: int) returns (yielded: seq<int>)
    ensures yielded == Split(microsecond, Divisors)
  {
    yielded := [];
    var rest := microsecond;
    for i := 0 to |Divisors|
      invariant yielded + Split(rest, Divisors[i..]) == Split(microsecond, Divisors)
    {
      var c := Divisors[i];
      SplitStep(yielded, rest, i);
      yielded := yielded + [FloorMod(rest, c)];
      rest := FloorDiv(rest, c);
    }
    SplitDone(yielded, rest);
  }

  /** `_time` with its default pattern: unpack the four yielded fields and format them. */
  method Time(microsecond: int) returns (r: string)
    ensures r == TimeCodeOf(microsecond)
  {
    var yielded := Generate(microsecond);
    var ms, s, m, h := yielded[0], yielded[1], yielded[2], yielded[3];
    r := Format(Fields(h, m, s, ms));
  }
}
