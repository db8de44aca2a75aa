/** UTC instants and the ISO strings whose order decides which copy of a record is the latest. */
module Timestamps {
  import opened Text
  import opened Dates

  /** A UTC `datetime`: Python keeps years 1..9999 and microseconds. */
  datatype Moment = Moment(date: Day, hour: nat, minute: nat, second: nat, micro: nat)

  predicate ValidMoment(t: Moment) {
    && 1 <= t.date.year <= 9999
    && t.hour < 24 && t.minute < 60 && t.second < 60 && t.micro < 1_000_000
  }

  type Instant = t: Moment | ValidMoment(t) witness Moment(Date(2000, 1, 1), 0, 0, 0, 0)

  /** Microseconds since the start of year 1: the instant as a number. */
  function Micros(t: Instant): int {
    (((DayNumber(t.date) * 24 + t.hour) * 60 + t.minute) * 60 + t.second) * 1_000_000 + t.micro
  }

  function Fraction(micro: nat): string {
    if micro == 0 then "" else "." + Pad(micro, 6)
  }

  function TimeText(t: Instant, zone: string): string {
    Pad(t.hour, 2) + (":" + (Pad(t.minute, 2) + (":" + (Pad(t.second, 2) + (Fraction(t.micro) + zone)))))
  }

  /** `isoformat()` with its UTC-offset suffix: the fraction is printed only when it is nonzero. */
  function IsoWith(t: Instant, zone: string): string {
    Pad(t.date.year, 4) + ("-" + (Pad(t.date.month, 2) + ("-" + (Pad(t.date.day, 2) + ("T" + TimeText(t, zone))))))
  }

  function Iso(t: Instant): string {
    IsoWith(t, "+00:00")
  }

  // ---- the printed form ------------------------------------------------------

  /** The text has the number in decimal at positions `i` to `j`. */
  ghost predicate ReadsAt(s: string, i: int, j: int, n: nat) {
    0 <= i <= j <= |s| && AllDigits(s[i..j]) && DecimalValue(s[i..j]) == n
  }

  lemma FieldReads(n: nat, w: nat, rest: string)
    requires n < Pow10(w)
    ensures ReadsAt(Pad(n, w) + rest, 0, w, n) && (Pad(n, w) + rest)[w..] == rest
  {
    PadValue(n, w);
    assert (Pad(n, w) + rest)[0..w] == Pad(n, w);
  }

  /** A field, the separator after it, and what follows. */
  lemma StepReads(s: string, n: nat, w: nat, sep: string, rest: string)
    requires n < Pow10(w) && |sep| == 1 && s == Pad(n, w) + (sep + rest)
    ensures |s| > w && ReadsAt(s, 0, w, n) && s[w] == sep[0] && s[w + 1..] == rest
  {
    FieldReads(n, w, sep + rest);
    assert s[w + 1..] == (sep + rest)[1..];
  }

  lemma DropTwice(s: string, i: nat, j: nat)
    requires i + j <= |s|
    ensures s[i..][j..] == s[i + j..]
    ensures i + j < |s| ==> s[i..][j] == s[i + j]
  {
  }

  /** The fraction and the offset after the seconds. */
  lemma FractionReads(s: string, micro: nat, w: nat, zone: string)
    requires micro < Pow10(w) && s == (if micro == 0 then "" else "." + Pad(micro, w)) + zone
    ensures if micro == 0 then s == zone
            else |s| >= w + 1 && s[0] == '.' && ReadsAt(s[1..], 0, w, micro) && s[w + 1..] == zone
  {
    if micro == 0 {
      assert "" + zone == zone;
    } else {
      assert s[1..] == Pad(micro, w) + zone;
      FieldReads(micro, w, zone);
      DropTwice(s, 1, w);
    }
  }

  lemma Million()
    ensures Pow10(6) == 1_000_000
  {
    var w := 6;
    assert Pow10(w) == 1_000_000;
  }

  /** `HH:MM:SS`, and six digits of fraction if there is one, before the offset. */
  lemma TimeReads(t: Instant, zone: string)
    ensures var s := TimeText(t, zone);
      && |s| >= 8 && s[2] == ':' && s[5] == ':'
      && ReadsAt(s, 0, 2, t.hour) && ReadsAt(s[3..], 0, 2, t.minute) && ReadsAt(s[6..], 0, 2, t.second)
      && if t.micro == 0 then s[8..] == zone
         else |s| >= 15 && s[8] == '.' && ReadsAt(s[9..], 0, 6, t.micro) && s[15..] == zone
  {
    assert Pow10(2) == 100;
    var s, fraction := TimeText(t, zone), Fraction(t.micro) + zone;
    var seconds := Pad(t.second, 2) + fraction;
    var minutes := Pad(t.minute, 2) + (":" + seconds);
    StepReads(s, t.hour, 2, ":", minutes);
    StepReads(minutes, t.minute, 2, ":", seconds);
    FieldReads(t.second, 2, fraction);
    Million();
    FractionReads(fraction, t.micro, 6, zone);
    DropTwice(s, 3, 2);
    DropTwice(s, 3, 3);
    DropTwice(s, 6, 2);
    if t.micro != 0 {
      DropTwice(s, 8, 1);
      DropTwice(s, 8, 7);
    }
  }

  lemma DateReads(t: Instant, time: string)
    ensures var s := Pad(t.date.year, 4) + ("-" + (Pad(t.date.month, 2) + ("-" + (Pad(t.date.day, 2) + ("T" + time)))));
      && |s| >= 11 && s[4] == '-' && s[7] == '-' && s[10] == 'T' && s[11..] == time
      && ReadsAt(s, 0, 4, t.date.year) && ReadsAt(s[5..], 0, 2, t.date.month) && ReadsAt(s[8..], 0, 2, t.date.day)
  {
    assert Pow10(2) == 100 && Pow10(4) == 10_000;
    var days := Pad(t.date.day, 2) + ("T" + time);
    var months := Pad(t.date.month, 2) + ("-" + days);
    var s := Pad(t.date.year, 4) + ("-" + months);
    StepReads(s, t.date.year, 4, "-", months);
    StepReads(months, t.date.month, 2, "-", days);
    StepReads(days, t.date.day, 2, "T", time);
    DropTwice(s, 5, 2);
    DropTwice(s, 5, 3);
    DropTwice(s, 8, 2);
    DropTwice(s, 8, 3);
  }

  /** `YYYY-MM-DDTHH:MM:SS`, six digits of fraction if there is one, and the offset of UTC. */
  lemma IsoReads(t: Instant)
    ensures var s := Iso(t);
      && |s| >= 19 && s[4] == '-' && s[7] == '-' && s[10] == 'T' && s[13] == ':' && s[16] == ':'
      && ReadsAt(s, 0, 4, t.date.year) && ReadsAt(s[5..], 0, 2, t.date.month) && ReadsAt(s[8..], 0, 2, t.date.day)
      && ReadsAt(s[11..], 0, 2, t.hour) && ReadsAt(s[14..], 0, 2, t.minute) && ReadsAt(s[17..], 0, 2, t.second)
      && if t.micro == 0 then s[19..] == "+00:00"
         else |s| >= 26 && s[19] == '.' && ReadsAt(s[20..], 0, 6, t.micro) && s[26..] == "+00:00"
  {
    var s, time := Iso(t), TimeText(t, "+00:00");
    DateReads(t, time);
    TimeReads(t, "+00:00");
    DropTwice(s, 11, 2);
    DropTwice(s, 11, 3);
    DropTwice(s, 11, 5);
    DropTwice(s, 11, 6);
    DropTwice(s, 11, 8);
    if t.micro != 0 {
      DropTwice(s, 11, 9);
      DropTwice(s, 11, 15);
    }
  }

  // ---- order ---------------------------------------------------------------

  predicate TimeNotAfter(a: Instant, b: Instant) {
    || a.hour < b.hour
    || (a.hour == b.hour && (a.minute < b.minute
        || (a.minute == b.minute && (a.second < b.second
            || (a.second == b.second && a.micro <= b.micro)))))
  }

  /** A printed fraction starts with '.', above any offset text that starts below it. */
  lemma NoFractionFirst(digits: string, zone: string)
    requires zone != [] && zone[0] < '.'
    ensures Le(zone, ("." + digits) + zone) && !Le(("." + digits) + zone, zone)
  {
    assert (("." + digits) + zone)[0] == '.';
  }

  lemma FractionOrder(u: nat, v: nat, zone: string)
    requires u < 1_000_000 && v < 1_000_000
    requires zone != [] && zone[0] < '.'
    ensures Le(Fraction(u) + zone, Fraction(v) + zone) <==> u <= v
  {
    assert "" + zone == zone;
    var w := 6;
    assert Pow10(w) == 1_000_000;
    LeTotal(zone, zone);
    if u == 0 && v != 0 {
      NoFractionFirst(Pad(v, w), zone);
    } else if u != 0 && v == 0 {
      NoFractionFirst(Pad(u, w), zone);
    } else if u != 0 {
      assert "." + Pad(u, w) + zone == "." + (Pad(u, w) + zone);
      assert "." + Pad(v, w) + zone == "." + (Pad(v, w) + zone);
      LePrefix(".", Pad(u, w) + zone, Pad(v, w) + zone);
      PadOrder(u, v, w, zone, zone);
    }
  }

  lemma FieldOrder(n: nat, m: nat, w: nat, sep: string, x: string, y: string)
    requires n < Pow10(w) && m < Pow10(w)
    ensures Le(Pad(n, w) + (sep + x), Pad(m, w) + (sep + y)) <==> n < m || (n == m && Le(x, y))
  {
    PadOrder(n, m, w, sep + x, sep + y);
    LePrefix(sep, x, y);
  }

  lemma TimeTextOrder(a: Instant, b: Instant, zone: string)
    requires zone != [] && zone[0] < '.'
    ensures Le(TimeText(a, zone), TimeText(b, zone)) <==> TimeNotAfter(a, b)
  {
    assert Pow10(2) == 100;
    var sa, sb := Pad(a.second, 2) + (Fraction(a.micro) + zone), Pad(b.second, 2) + (Fraction(b.micro) + zone);
    FractionOrder(a.micro, b.micro, zone);
    PadOrder(a.second, b.second, 2, Fraction(a.micro) + zone, Fraction(b.micro) + zone);
    FieldOrder(a.minute, b.minute, 2, ":", sa, sb);
    FieldOrder(a.hour, b.hour, 2, ":", Pad(a.minute, 2) + (":" + sa), Pad(b.minute, 2) + (":" + sb));
  }

  lemma DateFieldsOrder(a: Day, b: Day, x: string, y: string)
    requires 1 <= a.year <= 9999 && 1 <= b.year <= 9999
    ensures Le(Pad(a.year, 4) + ("-" + (Pad(a.month, 2) + ("-" + (Pad(a.day, 2) + ("T" + x))))),
               Pad(b.year, 4) + ("-" + (Pad(b.month, 2) + ("-" + (Pad(b.day, 2) + ("T" + y))))))
            <==> Before(a, b) || (a == b && Le(x, y))
  {
    assert Pow10(2) == 100 && Pow10(4) == 10000;
    var da, db := Pad(a.day, 2) + ("T" + x), Pad(b.day, 2) + ("T" + y);
    FieldOrder(a.day, b.day, 2, "T", x, y);
    FieldOrder(a.month, b.month, 2, "-", da, db);
    FieldOrder(a.year, b.year, 4, "-", Pad(a.month, 2) + ("-" + da), Pad(b.month, 2) + ("-" + db));
  }

  lemma MicrosOrder(a: Instant, b: Instant)
    ensures Micros(a) <= Micros(b) <==> Before(a.date, b.date) || (a.date == b.date && TimeNotAfter(a, b))
  {
    OrderIsDayOrder(a.date, b.date);
    OrderIsDayOrder(b.date, a.date);
  }

  /** With any offset text that starts below '.', string order is chronological order. */
  lemma ChronologicalWith(a: Instant, b: Instant, zone: string)
    requires zone != [] && zone[0] < '.'
    ensures Le(IsoWith(a, zone), IsoWith(b, zone)) <==> Micros(a) <= Micros(b)
  {
    DateFieldsOrder(a.date, b.date, TimeText(a, zone), TimeText(b, zone));
    TimeTextOrder(a, b, zone);
    MicrosOrder(a, b);
  }

  /** The order `_dedup_by_key` uses on `isoformat()` strings is the order of the instants. */
  lemma IsoOrderIsChronological(a: Instant, b: Instant)
    ensures Le(Iso(a), Iso(b)) <==> Micros(a) <= Micros(b)
    ensures Iso(a) == Iso(b) <==> a == b
  {
    ChronologicalWith(a, b, "+00:00");
    ChronologicalWith(b, a, "+00:00");
    LeTotal(Iso(a), Iso(b));
    MicrosOrder(a, b);
    MicrosOrder(b, a);
  }

  /** Everything before the fraction. */
  function UpToSeconds(t: Instant): string {
    Pad(t.date.year, 4) + ("-" + (Pad(t.date.month, 2) + ("-" + (Pad(t.date.day, 2) + ("T"
    + (Pad(t.hour, 2) + (":" + (Pad(t.minute, 2) + (":" + Pad(t.second, 2))))))))))
  }

  lemma Regroup(a: string, b: string, c: string, d: string, e: string, x: string)
    ensures a + (b + (c + (d + (e + x)))) == (a + (b + (c + (d + e)))) + x
  {
  }

  lemma IsoIsSecondsThenFraction(t: Instant, zone: string)
    ensures IsoWith(t, zone) == UpToSeconds(t) + (Fraction(t.micro) + zone)
  {
    var x := Fraction(t.micro) + zone;
    var time := Pad(t.hour, 2) + (":" + (Pad(t.minute, 2) + (":" + Pad(t.second, 2))));
    Regroup(Pad(t.hour, 2), ":", Pad(t.minute, 2), ":", Pad(t.second, 2), x);
    assert TimeText(t, zone) == time + x;
    var day := Pad(t.date.day, 2) + ("T" + time);
    assert Pad(t.date.day, 2) + ("T" + (time + x)) == day + x;
    Regroup(Pad(t.date.year, 4), "-", Pad(t.date.month, 2), "-", day, x);
  }

  /** An offset text above '.' puts an instant after one of the same second with a fraction. */
  lemma HighZoneReverses(a: Instant, b: Instant, zone: string)
    requires zone != [] && zone[0] > '.' && a.micro == 0 && b.micro > 0 && UpToSeconds(a) == UpToSeconds(b)
    ensures !Le(IsoWith(a, zone), IsoWith(b, zone))
  {
    IsoIsSecondsThenFraction(a, zone);
    IsoIsSecondsThenFraction(b, zone);
    assert "" + zone == zone;
    LePrefix(UpToSeconds(a), zone, Fraction(b.micro) + zone);
    assert (Fraction(b.micro) + zone)[0] == '.';
  }

  /**
   * Why the numeric offset matters: with the same variable-length fraction, an offset text starting
   * above '.' (such as "Z") puts a later instant first. Chronological order holds exactly below '.'.
   */
  lemma ChronologicalIffZoneBelowDot(zone: string)
    requires zone != [] && zone[0] != '.'
    ensures (forall a: Instant, b: Instant :: Le(IsoWith(a, zone), IsoWith(b, zone)) <==> Micros(a) <= Micros(b))
            <==> zone[0] < '.'
  {
    if zone[0] < '.' {
      forall a: Instant, b: Instant
        ensures Le(IsoWith(a, zone), IsoWith(b, zone)) <==> Micros(a) <= Micros(b)
      {
        ChronologicalWith(a, b, zone);
      }
    } else {
      var date: Day := Date(2026, 6, 17);
      var a: Instant, b: Instant := Moment(date, 0, 0, 0, 0), Moment(date, 0, 0, 0, 1);
      MicrosOrder(a, b);
      HighZoneReverses(a, b, zone);
    }
  }
}
