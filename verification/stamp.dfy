/** The `YYYYMMDDHHMMSS` creation stamp built from the local clock when the
    enemy/ally choice changes (src/layout/CharacterForm.tsx:189-214). */
module Timestamp {
  import opened Wrappers
  import opened Decimal
  import Text

  /** The six local-time readings, as the `Date` getters return them:
      `getMonth()` is the zero-based month index. */
  datatype Clock = Clock(year: nat, monthIndex: nat, date: nat, hours: nat, minutes: nat, seconds: nat)

  /** The ranges the `Date` getters produce. */
  predicate ValidClock(c: Clock) {
    && c.monthIndex < 12
    && 1 <= c.date <= 31
    && c.hours < 24
    && c.minutes < 60
    && c.seconds < 60
  }

  /** `s.padStart(2, "0")`: left-pad with zeros up to length two; a string
      already two or more long is returned as is. */
  function PadStart2(s: string): (r: string)
    ensures |r| == if |s| < 2 then 2 else |s|
    ensures |s| >= 2 ==> r == s
  {
    if |s| >= 2 then s else if |s| == 1 then ['0'] + s else ['0', '0']
  }

  /** Padding reaches length two, keeps the original text at the end, and
      puts only zeros before it. */
  lemma PadStart2Shape(s: string)
    ensures |PadStart2(s)| == if |s| < 2 then 2 else |s|
    ensures Text.EndsWith(PadStart2(s), s)
    ensures forall i :: 0 <= i < |PadStart2(s)| - |s| ==> PadStart2(s)[i] == '0'
  {
  }

  /** `String(n).padStart(2, "0")`. */
  function Pad2(n: nat): (r: string)
    ensures |r| >= 2
    ensures n >= 10 ==> r == FromNat(n)
  {
    PadStart2(FromNat(n))
  }

  /** Two-digit padding: one digit gets a leading zero, two digits stay as
      they are; either way the result has length two. */
  lemma Pad2Cases(n: nat)
    requires n < 100
    ensures n <= 9 ==> Pad2(n) == ['0', DigitChar(n)]
    ensures 10 <= n ==> Pad2(n) == FromNat(n)
    ensures |Pad2(n)| == 2
  {
    var q, r := Split(n);
    Pad2Pair(n, q, r);
    if 10 <= n {
      assert FromNat(n / 10) == [DigitChar(q)];
    }
  }

  /** The tens and units digits of a number below 100. */
  lemma Split(n: nat) returns (q: nat, r: nat)
    requires n < 100
    ensures q < 10 && r < 10 && n == 10 * q + r
  {
    q, r := n / 10, n % 10;
  }

  /** The padded text is the tens digit then the units digit. */
  lemma Pad2Pair(n: nat, q: nat, r: nat)
    requires q < 10 && r < 10 && n == 10 * q + r
    ensures Pad2(n) == [DigitChar(q), DigitChar(r)]
  {
    if q == 0 {
      assert FromNat(n) == [DigitChar(r)];
    } else {
      assert n / 10 == q && n % 10 == r;
      assert FromNat(q) == [DigitChar(q)];
      assert FromNat(n) == [DigitChar(q), DigitChar(r)];
    }
  }

  /** The value of the two digits of `s` at `i` and `i + 1`. */
  function TwoDigits(s: string, i: nat): nat
    requires i + 1 < |s|
  {
    10 * DigitValue(s[i]) + DigitValue(s[i + 1])
  }

  lemma TwoDigitsOfPair(p: string, q: nat, r: nat)
    requires q < 10 && r < 10
    requires p == [DigitChar(q), DigitChar(r)]
    ensures |p| == 2 && AllDigits(p)
    ensures TwoDigits(p, 0) == 10 * q + r
  {
    DigitRoundTrip(q);
    DigitRoundTrip(r);
  }

  /** A padded field is two digits that read back as the number. */
  lemma Pad2Read(n: nat)
    requires n < 100
    ensures |Pad2(n)| == 2 && AllDigits(Pad2(n)) && TwoDigits(Pad2(n), 0) == n
  {
    var q, r := Split(n);
    Pad2Pair(n, q, r);
    TwoDigitsOfPair(Pad2(n), q, r);
  }

  /** `${year}${month}${day}${hours}${minutes}${seconds}`: the year unpadded,
      then the one-based month and the rest, each padded to two digits. */
  function Stamp(c: Clock): (s: string)
    ensures |s| >= 11
    ensures Text.StartsWith(s, FromNat(c.year))
  {
    FromNat(c.year) + TimeOfYear(c)
  }

  /** The part of the stamp after the year. */
  function TimeOfYear(c: Clock): (t: string)
    ensures |t| >= 10
  {
    Pad2(c.monthIndex + 1) + Pad2(c.date) + Pad2(c.hours) + Pad2(c.minutes) + Pad2(c.seconds)
  }

  /** Reads a stamp back: the last ten characters are month, day, hours,
      minutes and seconds, two digits each, and everything before them is
      the year. */
  function ParseStamp(s: string): Option<Clock> {
    if |s| >= 11 && AllDigits(s) && TwoDigits(s, |s| - 10) >= 1 then
      var n := |s|;
      Some(Clock(ToNat(s[..n - 10]), TwoDigits(s, n - 10) - 1, TwoDigits(s, n - 8),
                 TwoDigits(s, n - 6), TwoDigits(s, n - 4), TwoDigits(s, n - 2)))
    else
      None
  }

  /** Five two-digit fields in a row: ten digits, read back pair by pair. */
  lemma FivePairs(p1: string, p2: string, p3: string, p4: string, p5: string)
    requires |p1| == 2 && |p2| == 2 && |p3| == 2 && |p4| == 2 && |p5| == 2
    requires AllDigits(p1) && AllDigits(p2) && AllDigits(p3) && AllDigits(p4) && AllDigits(p5)
    ensures var t := p1 + p2 + p3 + p4 + p5;
      && |t| == 10 && AllDigits(t)
      && TwoDigits(t, 0) == TwoDigits(p1, 0)
      && TwoDigits(t, 2) == TwoDigits(p2, 0)
      && TwoDigits(t, 4) == TwoDigits(p3, 0)
      && TwoDigits(t, 6) == TwoDigits(p4, 0)
      && TwoDigits(t, 8) == TwoDigits(p5, 0)
  {
    var t := p1 + p2 + p3 + p4 + p5;
    assert t[0] == p1[0] && t[1] == p1[1];
    assert t[2] == p2[0] && t[3] == p2[1];
    assert t[4] == p3[0] && t[5] == p3[1];
    assert t[6] == p4[0] && t[7] == p4[1];
    assert t[8] == p5[0] && t[9] == p5[1];
  }

  /** The part after the year: ten digits that read back as the five clock
      fields, the month one-based. */
  lemma TimeOfYearShape(c: Clock)
    requires ValidClock(c)
    ensures |TimeOfYear(c)| == 10 && AllDigits(TimeOfYear(c))
    ensures TwoDigits(TimeOfYear(c), 0) == c.monthIndex + 1
    ensures TwoDigits(TimeOfYear(c), 2) == c.date
    ensures TwoDigits(TimeOfYear(c), 4) == c.hours
    ensures TwoDigits(TimeOfYear(c), 6) == c.minutes
    ensures TwoDigits(TimeOfYear(c), 8) == c.seconds
  {
    Pad2Read(c.monthIndex + 1);
    Pad2Read(c.date);
    Pad2Read(c.hours);
    Pad2Read(c.minutes);
    Pad2Read(c.seconds);
    FivePairs(Pad2(c.monthIndex + 1), Pad2(c.date), Pad2(c.hours), Pad2(c.minutes), Pad2(c.seconds));
  }

  /** Parsing a year numeral followed by ten digits. */
  lemma ParseAppended(y: string, t: string)
    requires |y| >= 1 && AllDigits(y) && |t| == 10 && AllDigits(t) && TwoDigits(t, 0) >= 1
    ensures AllDigits(y + t) && |y + t| == |y| + 10
    ensures ParseStamp(y + t) == Some(Clock(ToNat(y), TwoDigits(t, 0) - 1, TwoDigits(t, 2),
                                            TwoDigits(t, 4), TwoDigits(t, 6), TwoDigits(t, 8)))
  {
    var s := y + t;
    var n := |s|;
    assert s[..n - 10] == y;
    forall i | 0 <= i < 10
      ensures s[n - 10 + i] == t[i]
    {
    }
  }

  /** A valid clock's stamp is all digits, has exactly ten of them after
      the year, and reads back as the same clock. */
  lemma StampRoundTrip(c: Clock)
    requires ValidClock(c)
    ensures AllDigits(Stamp(c))
    ensures |Stamp(c)| == |FromNat(c.year)| + 10
    ensures ParseStamp(Stamp(c)) == Some(c)
  {
    FromNatDigits(c.year);
    ToNatFromNat(c.year);
    TimeOfYearShape(c);
    ParseAppended(FromNat(c.year), TimeOfYear(c));
  }

  /** Two different valid clock readings never share a stamp. */
  lemma StampInjective(c: Clock, d: Clock)
    requires ValidClock(c) && ValidClock(d)
    ensures Stamp(c) == Stamp(d) <==> c == d
  {
    StampRoundTrip(c);
    StampRoundTrip(d);
  }

  /** The stamp is fourteen digits exactly when the year has four digits. */
  lemma StampLength14(c: Clock)
    requires ValidClock(c)
    ensures AllDigits(Stamp(c))
    ensures |Stamp(c)| == 14 <==> 1000 <= c.year <= 9999
  {
    StampRoundTrip(c);
    FromNatLengthCases(c.year);
  }
}
