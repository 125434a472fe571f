/**
 * Minute codes: a clock time `HH:MM` as minutes since midnight, with the
 * end-of-day sentinel `24:00` read as 1440, and the half-open overlap test
 * used for every busy-interval comparison (bot.js, "시간 유틸").
 */
module TimeUtil {
  import opened JsBuiltins

  /** Index of the first ':' in `s`, or `|s|` when there is none. */
  function ColonIndex(s: string): (i: nat)
    ensures i <= |s|
    ensures forall j :: 0 <= j < i ==> s[j] != ':'
    ensures i < |s| ==> s[i] == ':'
  {
    if s == [] || s[0] == ':' then 0 else 1 + ColonIndex(s[1..])
  }

  /**
   * `toMin`: the first two ':'-separated fields of `t`, read by `Number`,
   * as hours and minutes. Without a ':' the minute field is undefined and
   * the sum is NaN.
   */
  function ToMin(t: string): Num {
    var i := ColonIndex(t);
    if i == |t| then NaN
    else
      var rest := t[i + 1..];
      Plus(Times(ToNumber(t[..i]), 60), ToNumber(rest[..ColonIndex(rest)]))
  }

  /** `isHHMM`: `00:00` to `23:59`, two digits each, or exactly `24:00`. */
  predicate IsHHMM(t: string) {
    (|t| == 5
     && (((t[0] == '0' || t[0] == '1') && IsDigit(t[1])) || (t[0] == '2' && '0' <= t[1] <= '3'))
     && t[2] == ':' && '0' <= t[3] <= '5' && IsDigit(t[4]))
    || t == "24:00"
  }

  /** `normalizeTimeToMin`: `24:00` is the end-of-day sentinel 1440. */
  function NormalizeTimeToMin(t: string): Num {
    if t == "24:00" then Finite(1440) else ToMin(t)
  }

  /** A well-formed time is a minute of the day, and only `24:00` is minute 1440. */
  lemma NormalizeRange(t: string)
    requires IsHHMM(t)
    ensures NormalizeTimeToMin(t).Finite? && 0 <= NormalizeTimeToMin(t).v <= 1440
    ensures NormalizeTimeToMin(t).v == 1440 <==> t == "24:00"
  {
    if t != "24:00" {
      HHMMValue(t);
    }
  }

  /** `fromMin` for a non-negative minute code: zero-padded hours and minutes. */
  function FromMin(n: nat): string {
    PadStart2(NatToString(n / 60)) + ":" + PadStart2(NatToString(n % 60))
  }

  /** `overlap`: `max(aStart, bStart) < min(aEnd, bEnd)`, false when any bound is NaN. */
  predicate Overlap(aStart: Num, aEnd: Num, bStart: Num, bEnd: Num) {
    aStart.Finite? && aEnd.Finite? && bStart.Finite? && bEnd.Finite?
    && Max(aStart.v, bStart.v) < Min(aEnd.v, bEnd.v)
  }

  function Max(a: int, b: int): int { if a < b then b else a }

  function Min(a: int, b: int): int { if a < b then a else b }

  /** Minute `x` lies in the half-open interval `[s, e)`. */
  predicate InHalfOpen(x: int, s: int, e: int) {
    s <= x < e
  }

  // ----- reading `HH:MM` -----

  predicate NoColon(s: string) {
    forall i :: 0 <= i < |s| ==> s[i] != ':'
  }

  /** The first ':' of `a:b` is the one after `a` when `a` holds no ':'. */
  lemma ColonAfter(a: string, b: string)
    requires NoColon(a)
    ensures ColonIndex(a + [':'] + b) == |a|
  {
    var s := a + [':'] + b;
    assert s[|a|] == ':';
  }

  /** `toMin` of two colon-free fields joined by ':' reads each field with `Number`. */
  lemma ToMinSplit(a: string, b: string)
    requires NoColon(a) && NoColon(b)
    ensures ToMin(a + [':'] + b) == Plus(Times(ToNumber(a), 60), ToNumber(b))
  {
    var s := a + [':'] + b;
    var i := ColonIndex(s);
    assert i == |a| by {
      ColonAfter(a, b);
    }
    var rest := s[i + 1..];
    assert rest == b;
    assert s[..i] == a && rest[..ColonIndex(rest)] == b;
  }

  /** `toMin` of digit fields separated by one ':' is hours times 60 plus minutes. */
  lemma ToMinOfFields(a: string, b: string)
    requires a != [] && AllDigits(a) && b != [] && AllDigits(b)
    ensures ToMin(a + [':'] + b) == Finite(60 * DigitsValue(a) + DigitsValue(b))
  {
    assert NoColon(a) && NoColon(b);
    ToNumberDigits(a);
    ToNumberDigits(b);
    ToMinOfNumbers(a, b, DigitsValue(a), DigitsValue(b));
  }

  /** `toMin` of two fields that `Number` reads as finite `x` and `y` is `60 * x + y`. */
  lemma ToMinOfNumbers(a: string, b: string, x: int, y: int)
    requires NoColon(a) && NoColon(b) && ToNumber(a) == Finite(x) && ToNumber(b) == Finite(y)
    ensures ToMin(a + [':'] + b) == Finite(60 * x + y)
  {
    ToMinSplit(a, b);
    HoursAndMinutes(ToNumber(a), ToNumber(b), x, y);
  }

  /** `h * 60 + m` on finite hours and minutes. */
  lemma HoursAndMinutes(h: Num, m: Num, x: int, y: int)
    requires h == Finite(x) && m == Finite(y)
    ensures Plus(Times(h, 60), m) == Finite(60 * x + y)
  {
  }

  /** An `HH:MM` time other than `24:00` is hours times 60 plus minutes, within one day. */
  lemma HHMMValue(t: string)
    requires IsHHMM(t) && t != "24:00"
    ensures ToMin(t) == Finite(60 * DigitsValue(t[..2]) + DigitsValue(t[3..]))
    ensures DigitsValue(t[..2]) < 24 && DigitsValue(t[3..]) < 60
  {
    var h, m := t[..2], t[3..];
    assert AllDigits(h) && AllDigits(m);
    assert t == h + [':'] + m;
    ToMinOfFields(h, m);
    TwoDigitsValue(h);
    TwoDigitsValue(m);
  }

  // ----- round trips -----

  /** A field written by `fromMin` is a digit string worth the number it writes. */
  lemma PaddedField(x: nat)
    ensures PadStart2(NatToString(x)) != [] && AllDigits(PadStart2(NatToString(x)))
    ensures DigitsValue(PadStart2(NatToString(x))) == x
  {
    NatToStringValue(x);
    PadStart2Value(NatToString(x));
  }

  /** `toMin` inverts `fromMin` on every non-negative minute code. */
  lemma ToMinFromMin(n: nat)
    ensures ToMin(FromMin(n)) == Finite(n)
  {
    var q, r := n / 60, n % 60;
    assert 60 * q + r == n;
    ToMinOfPadded(q, r);
  }

  /** `toMin` reads back two fields written as `fromMin` writes them. */
  lemma ToMinOfPadded(q: nat, r: nat)
    ensures ToMin(PadStart2(NatToString(q)) + [':'] + PadStart2(NatToString(r))) == Finite(60 * q + r)
  {
    var h, m := PadStart2(NatToString(q)), PadStart2(NatToString(r));
    PaddedField(q);
    PaddedField(r);
    assert NoColon(h) && NoColon(m);
    ToNumberDigits(h);
    ToNumberDigits(m);
    ToMinOfNumbers(h, m, q, r);
  }

  /** Only minute code 1440 is written `24:00` by `fromMin`. */
  lemma SentinelMinute(n: nat)
    requires FromMin(n) == "24:00"
    ensures n == 1440
  {
    var s := FromMin(n);
    var h := PadStart2(NatToString(n / 60));
    var m := PadStart2(NatToString(n % 60));
    PaddedField(n / 60);
    PaddedField(n % 60);
    assert s == h + [':'] + m;
    ColonAfter(h, m);
    assert ColonIndex("24:00") == 2;
    assert h == s[..2] && m == s[3..];
    TwoDigitsValue(h);
    TwoDigitsValue(m);
    assert h[0] == '2' && h[1] == '4' && m[0] == '0' && m[1] == '0';
  }

  /** `normalizeTimeToMin` inverts `fromMin`, the sentinel `24:00` included. */
  lemma NormalizeFromMin(n: nat)
    ensures NormalizeTimeToMin(FromMin(n)) == Finite(n)
  {
    if FromMin(n) == "24:00" {
      SentinelMinute(n);
    } else {
      ToMinFromMin(n);
    }
  }

  /** Every minute code of the day is written by `fromMin` as an `HH:MM` time. */
  lemma FromMinIsHHMM(n: nat)
    requires n < 1440
    ensures IsHHMM(FromMin(n))
  {
    var h := PadStart2(NatToString(n / 60));
    var m := PadStart2(NatToString(n % 60));
    NatToStringShort(n / 60);
    NatToStringShort(n % 60);
    NatToStringValue(n / 60);
    NatToStringValue(n % 60);
    PadStart2Value(NatToString(n / 60));
    PadStart2Value(NatToString(n % 60));
    TwoDigitsValue(h);
    TwoDigitsValue(m);
    assert FromMin(n) == h + [':'] + m;
  }

  lemma DivMod60(h: nat, m: nat)
    requires m < 60
    ensures (60 * h + m) / 60 == h && (60 * h + m) % 60 == m
  {
    var n := 60 * h + m;
    assert 60 * (n / 60) + n % 60 == n;
    assert 60 * (h - n / 60) == n % 60 - m;
  }

  /** `fromMin` of hours and minutes of one day writes each as two padded digits. */
  lemma FromMinFields(h: nat, m: nat)
    requires m < 60
    ensures FromMin(60 * h + m) == PadStart2(NatToString(h)) + ":" + PadStart2(NatToString(m))
  {
    DivMod60(h, m);
  }

  /** An `HH:MM` time is the padded decimal form of its own hour and minute fields. */
  lemma HHMMFields(t: string)
    requires IsHHMM(t) && t != "24:00"
    ensures t == PadStart2(NatToString(DigitsValue(t[..2]))) + ":"
                 + PadStart2(NatToString(DigitsValue(t[3..])))
  {
    TwoDigitsRoundTrip(t[..2]);
    TwoDigitsRoundTrip(t[3..]);
    assert t == t[..2] + [':'] + t[3..];
  }

  /** `fromMin` inverts `normalizeTimeToMin` on `00:00` .. `23:59`. */
  lemma FromMinNormalize(t: string)
    requires IsHHMM(t) && t != "24:00"
    ensures FromMin(NormalizeTimeToMin(t).v) == t
  {
    var h, m := DigitsValue(t[..2]), DigitsValue(t[3..]);
    var n := NormalizeTimeToMin(t).v;
    assert n == 60 * h + m by {
      HHMMValue(t);
    }
    assert m < 60 by {
      HHMMValue(t);
    }
    assert FromMin(n) == PadStart2(NatToString(h)) + ":" + PadStart2(NatToString(m)) by {
      FromMinFields(h, m);
    }
    HHMMFields(t);
  }

  // ----- overlap -----

  /** Two finite intervals overlap exactly when some minute lies in both half-open ranges. */
  lemma OverlapIsSharedMinute(a: int, b: int, c: int, d: int)
    ensures Overlap(Finite(a), Finite(b), Finite(c), Finite(d))
            <==> exists x :: InHalfOpen(x, a, b) && InHalfOpen(x, c, d)
  {
    if Overlap(Finite(a), Finite(b), Finite(c), Finite(d)) {
      assert InHalfOpen(Max(a, c), a, b) && InHalfOpen(Max(a, c), c, d);
    }
  }

  /** The overlap test does not depend on the order of its two intervals. */
  lemma OverlapSymmetric(aStart: Num, aEnd: Num, bStart: Num, bEnd: Num)
    ensures Overlap(aStart, aEnd, bStart, bEnd) == Overlap(bStart, bEnd, aStart, aEnd)
  {
  }

  /** An interval that ends where (or before) another begins does not overlap it. */
  lemma AdjacentDoNotOverlap(a: int, b: int, c: int, d: int)
    requires b <= c
    ensures !Overlap(Finite(a), Finite(b), Finite(c), Finite(d))
    ensures !Overlap(Finite(c), Finite(d), Finite(a), Finite(b))
  {
  }

  /** A NaN bound, as from a malformed time, never overlaps anything. */
  lemma NaNNeverOverlaps(aStart: Num, aEnd: Num, bStart: Num, bEnd: Num)
    requires aStart.NaN? || aEnd.NaN? || bStart.NaN? || bEnd.NaN?
    ensures !Overlap(aStart, aEnd, bStart, bEnd)
  {
  }
}
