/** The duration helpers of the example program: a count of seconds split into
    seconds, minutes, hours and days, and its fixed-layout text. */
module Example {
  import opened Wrappers
  import opened Text
  import opened Decimal

  const SecondsPerMinute: int := 60
  const SecondsPerHour: int := 3600
  const SecondsPerDay: int := 86400

  /** The tuple `(secs, mins, hours, days)`, in the order `duration_tuple` returns it. */
  datatype Parts = Parts(secs: int, mins: int, hours: int, days: int)

  /** Seconds, minutes and hours in range; days unbounded, negative for negative input. */
  predicate Normalized(p: Parts)
  {
    && 0 <= p.secs < 60
    && 0 <= p.mins < 60
    && 0 <= p.hours < 24
  }

  /** The number of seconds a tuple denotes. */
  function TotalSeconds(p: Parts): int
  {
    p.days * SecondsPerDay + p.hours * SecondsPerHour + p.mins * SecondsPerMinute + p.secs
  }

  /** `duration_tuple` on an integer: three `divmod`s, by a day, an hour and a minute.
      Python's `divmod` by a positive divisor floors, as Dafny's `/` and `%` do. */
  function DurationTuple(n: int): (p: Parts)
    ensures Normalized(p)
    ensures TotalSeconds(p) == n
    ensures p.days >= 0 <==> n >= 0
    ensures 0 <= n < SecondsPerDay ==> p.days == 0
    ensures 0 <= n < SecondsPerMinute ==> p == Parts(n, 0, 0, 0)
  {
    var days, rest := n / SecondsPerDay, n % SecondsPerDay;
    var hours, rest' := rest / SecondsPerHour, rest % SecondsPerHour;
    var mins, secs := rest' / SecondsPerMinute, rest' % SecondsPerMinute;
    Parts(secs, mins, hours, days)
  }

  /** A normalized tuple is the only one denoting its number of seconds, so splitting
      the total gives the tuple back. */
  lemma {:induction false} DurationTupleOfTotal(p: Parts)
    requires Normalized(p)
    ensures DurationTuple(TotalSeconds(p)) == p
  {
    var n := TotalSeconds(p);
    var inDay := p.hours * SecondsPerHour + p.mins * SecondsPerMinute + p.secs;
    var inHour := p.mins * SecondsPerMinute + p.secs;
    assert 0 <= inDay < SecondsPerDay;
    assert n / SecondsPerDay == p.days && n % SecondsPerDay == inDay;
    assert inDay / SecondsPerHour == p.hours && inDay % SecondsPerHour == inHour;
    assert inHour / SecondsPerMinute == p.mins && inHour % SecondsPerMinute == p.secs;
  }

  /** `{v:2d}`: the decimal text of `v`, right-aligned in two columns, never truncated. */
  function Field(v: int): (r: string)
    ensures |r| == Max(2, |IntToString(v)|)
    ensures |r| == 2 <==> -10 < v < 100
    ensures LstripSpaces(r) == IntToString(v)
  {
    var digits := IntToString(v);
    LstripRjust(digits, 2);
    Rjust(digits, 2)
  }

  /** The text `"{d} d {h} h {m} m {s} s"` for fields `d`, `h`, `m`, `s`, with the fixed separators. */
  function Join(d: string, h: string, m: string, s: string): string
  {
    d + " d " + h + " h " + m + " m " + s + " s"
  }

  /** With two-column hour, minute and second fields, every field and separator of the
      joined text sits at a fixed distance from its end. */
  lemma JoinSlices(d: string, h: string, m: string, s: string)
    requires |h| == 2 && |m| == 2 && |s| == 2
    ensures var r := Join(d, h, m, s);
      && |r| == |d| + 17
      && r[..|d|] == d
      && r[|r| - 17..|r| - 14] == " d "
      && r[|r| - 14..|r| - 12] == h
      && r[|r| - 12..|r| - 9] == " h "
      && r[|r| - 9..|r| - 7] == m
      && r[|r| - 7..|r| - 4] == " m "
      && r[|r| - 4..|r| - 2] == s
      && r[|r| - 2..] == " s"
  {
    var r := Join(d, h, m, s);
    var k := |d|;
    assert r == d + (" d " + h + " h " + m + " m " + s + " s");
    var tail := " d " + h + " h " + m + " m " + s + " s";
    assert r[k..] == tail;
    assert tail[..3] == " d " && tail[3..5] == h && tail[5..8] == " h ";
    assert tail[8..10] == m && tail[10..13] == " m " && tail[13..15] == s && tail[15..] == " s";
  }

  /** The day count fits two columns exactly when `n` lies in [-9 days, 100 days). */
  lemma DaysFitTwoColumns(n: int)
    ensures -10 < DurationTuple(n).days < 100 <==> -9 * SecondsPerDay <= n < 100 * SecondsPerDay
  {
  }

  /** The joined fields of a normalized tuple: each field strips back to the decimal text
      of its part, and only the day field can be wider than two columns. */
  lemma JoinedFields(p: Parts)
    requires Normalized(p)
    ensures var r := Join(Field(p.days), Field(p.hours), Field(p.mins), Field(p.secs));
      && |r| == 17 + Max(2, |IntToString(p.days)|)
      && LstripSpaces(r[..|r| - 17]) == IntToString(p.days)
      && LstripSpaces(r[|r| - 14..|r| - 12]) == IntToString(p.hours)
      && LstripSpaces(r[|r| - 9..|r| - 7]) == IntToString(p.mins)
      && LstripSpaces(r[|r| - 4..|r| - 2]) == IntToString(p.secs)
      && r[|r| - 17..|r| - 14] == " d "
      && r[|r| - 12..|r| - 9] == " h "
      && r[|r| - 7..|r| - 4] == " m "
      && r[|r| - 2..] == " s"
  {
    var d, h, m, s := Field(p.days), Field(p.hours), Field(p.mins), Field(p.secs);
    JoinSlices(d, h, m, s);
    var r := Join(d, h, m, s);
    assert r[..|r| - 17] == d;
    assert r[|r| - 14..|r| - 12] == h;
    assert r[|r| - 9..|r| - 7] == m;
    assert r[|r| - 4..|r| - 2] == s;
  }

  /** `duration_str`: days, hours, minutes and seconds, each `str` of its value after
      leading spaces, separated by their unit letters. Hours, minutes and seconds always
      take two columns, so the text has 19 characters exactly when the day count fits two
      columns. */
  function DurationStr(n: int): (r: string)
    ensures |r| == 17 + Max(2, |IntToString(DurationTuple(n).days)|)
    ensures |r| >= 19
    ensures LstripSpaces(r[..|r| - 17]) == IntToString(DurationTuple(n).days)
    ensures LstripSpaces(r[|r| - 14..|r| - 12]) == IntToString(DurationTuple(n).hours)
    ensures LstripSpaces(r[|r| - 9..|r| - 7]) == IntToString(DurationTuple(n).mins)
    ensures LstripSpaces(r[|r| - 4..|r| - 2]) == IntToString(DurationTuple(n).secs)
    ensures |r| == 19 <==> -9 * SecondsPerDay <= n < 100 * SecondsPerDay
    ensures r[|r| - 17..|r| - 14] == " d "
    ensures r[|r| - 12..|r| - 9] == " h "
    ensures r[|r| - 7..|r| - 4] == " m "
    ensures r[|r| - 2..] == " s"
  {
    var p := DurationTuple(n);
    JoinedFields(p);
    DaysFitTwoColumns(n);
    Join(Field(p.days), Field(p.hours), Field(p.mins), Field(p.secs))
  }

  /** Reads a field back: leading spaces, then a decimal integer. */
  function ParseField(s: string): Option<int>
  {
    ParseInt(LstripSpaces(s))
  }

  /** Reads the layout `DurationStr` writes: a day field of any width, then the three
      two-column fields and the four unit separators. */
  function ParseDurationStr(s: string): Option<Parts>
  {
    if |s| < 17 then None
    else
      var k := |s| - 17;
      if s[k..k + 3] != " d " || s[k + 5..k + 8] != " h " || s[k + 10..k + 13] != " m " || s[k + 15..] != " s" then None
      else
        var days, hours := ParseField(s[..k]), ParseField(s[k + 3..k + 5]);
        var mins, secs := ParseField(s[k + 8..k + 10]), ParseField(s[k + 13..k + 15]);
        if days.Some? && hours.Some? && mins.Some? && secs.Some? then
          Some(Parts(secs.value, mins.value, hours.value, days.value))
        else None
  }

  /** Parsing joined text reads each field from its own position. */
  lemma ParseJoin(d: string, h: string, m: string, s: string)
    requires |h| == 2 && |m| == 2 && |s| == 2
    ensures var days, hours, mins, secs := ParseField(d), ParseField(h), ParseField(m), ParseField(s);
      ParseDurationStr(Join(d, h, m, s)) ==
        if days.Some? && hours.Some? && mins.Some? && secs.Some? then
          Some(Parts(secs.value, mins.value, hours.value, days.value))
        else None
  {
    JoinSlices(d, h, m, s);
  }

  /** The text of `DurationStr(n)` reads back as the tuple of `n`, field by field in the
      order days, hours, minutes, seconds; its total is `n`. */
  lemma ParseDurationStrRoundTrip(n: int)
    ensures ParseDurationStr(DurationStr(n)) == Some(DurationTuple(n))
  {
    var p := DurationTuple(n);
    var d, h, m, s := Field(p.days), Field(p.hours), Field(p.mins), Field(p.secs);
    ParseJoin(d, h, m, s);
    ParseIntToString(p.days);
    ParseIntToString(p.hours);
    ParseIntToString(p.mins);
    ParseIntToString(p.secs);
  }
}
