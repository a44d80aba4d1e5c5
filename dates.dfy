/** Timestamps: the date normaliser of the synchronisation client
    (`rstrip('Z')`, `datetime.fromisoformat`, `strftime("%Y-%m-%d %H:%M:%S")`,
    with the epoch sentinel on empty or unparsable input) and SQLite's DATE()
    as the issue query uses it. */
module Dates {
  import opened Values
  import opened Text

  datatype DateTime = DateTime(year: int, month: int, day: int, hour: int, minute: int, second: int)

  /** The value every empty or unparsable timestamp normalises to. */
  const Epoch: string := "1970-01-01 00:00:00"

  predicate IsDigit(c: char) {
    '0' <= c <= '9'
  }

  predicate AllDigits(s: string) {
    forall i :: 0 <= i < |s| ==> IsDigit(s[i])
  }

  /** The number an all-digit text denotes. */
  function Num(s: string): nat
    requires AllDigits(s)
  {
    if s == [] then 0 else 10 * Num(s[..|s| - 1]) + (s[|s| - 1] as int - '0' as int)
  }

  predicate IsLeapYear(y: int) {
    y % 4 == 0 && (y % 100 != 0 || y % 400 == 0)
  }

  function DaysInMonth(y: int, m: int): int
    requires 1 <= m <= 12
  {
    if m == 2 then (if IsLeapYear(y) then 29 else 28)
    else if m == 4 || m == 6 || m == 9 || m == 11 then 30
    else 31
  }

  /** A calendar date `datetime` accepts: years 1 to 9999. */
  predicate ValidDate(y: int, m: int, d: int) {
    1 <= y <= 9999 && 1 <= m <= 12 && 1 <= d <= DaysInMonth(y, m)
  }

  predicate ValidTime(h: int, mi: int, s: int) {
    0 <= h < 24 && 0 <= mi < 60 && 0 <= s < 60
  }

  predicate Valid(dt: DateTime) {
    ValidDate(dt.year, dt.month, dt.day) && ValidTime(dt.hour, dt.minute, dt.second)
  }

  /** "YYYY-MM-DD" with ASCII digits. */
  predicate DateShape(s: string) {
    |s| == 10 && AllDigits(s[..4]) && s[4] == '-' && AllDigits(s[5..7]) && s[7] == '-' && AllDigits(s[8..])
  }

  /** "HH:MM:SS" with ASCII digits. */
  predicate TimeShape(s: string) {
    |s| == 8 && AllDigits(s[..2]) && s[2] == ':' && AllDigits(s[3..5]) && s[5] == ':' && AllDigits(s[6..])
  }

  /** The calendar date a "YYYY-MM-DD" text names, when it is a real date. */
  function DateOf(s: string): (r: Option<(int, int, int)>)
    ensures r.Some? ==> ValidDate(r.value.0, r.value.1, r.value.2)
  {
    if DateShape(s) && ValidDate(Num(s[..4]), Num(s[5..7]), Num(s[8..]))
    then Some((Num(s[..4]), Num(s[5..7]), Num(s[8..])))
    else None
  }

  /** The time of day an "HH:MM:SS" text names, when it is in range. */
  function TimeOf(s: string): (r: Option<(int, int, int)>)
    ensures r.Some? ==> ValidTime(r.value.0, r.value.1, r.value.2)
  {
    if TimeShape(s) && ValidTime(Num(s[..2]), Num(s[3..5]), Num(s[6..]))
    then Some((Num(s[..2]), Num(s[3..5]), Num(s[6..])))
    else None
  }

  /** Number of leading ASCII digits. */
  function DigitRun(s: string): (n: nat)
    ensures n <= |s| && AllDigits(s[..n]) && (n == |s| || !IsDigit(s[n]))
  {
    if s == [] || !IsDigit(s[0]) then 0
    else
      var n := 1 + DigitRun(s[1..]);
      assert s[..n] == [s[0]] + s[1..][..n - 1];
      n
  }

  /** A UTC offset "+HH:MM" or "-HH:MM"; `fromisoformat` accepts it and
      `strftime` without %z drops it. */
  predicate IsOffset(s: string) {
    |s| == 6 && (s[0] == '+' || s[0] == '-') && TimeOf(s[1..3] + ":" + s[4..] + ":00").Some?
  }

  /** What may follow the seconds: nothing, or a fraction ("." or "," and at
      least one digit), then nothing or an offset. */
  predicate IsTimeSuffix(s: string) {
    if s == [] then true
    else if s[0] == '.' || s[0] == ',' then
      var n := DigitRun(s[1..]);
      n > 0 && (s[1 + n..] == [] || IsOffset(s[1 + n..]))
    else IsOffset(s)
  }

  /** `datetime.fromisoformat` on the forms the model accepts: "YYYY-MM-DD",
      or that date, any one separator character, "HH:MM:SS", an optional
      fraction and an optional offset. */
  function ParseIso(s: string): (r: Option<DateTime>)
    ensures r.Some? ==> Valid(r.value)
  {
    if |s| == 10 then
      match DateOf(s)
      case Some((y, m, d)) => Some(DateTime(y, m, d, 0, 0, 0))
      case None => None
    else if |s| >= 19 then
      match (DateOf(s[..10]), TimeOf(s[11..19]))
      case (Some((y, m, d)), Some((h, mi, sec))) =>
        if IsTimeSuffix(s[19..]) then Some(DateTime(y, m, d, h, mi, sec)) else None
      case _ => None
    else None
  }

  /** Two digits, zero padded. */
  function Pad2(n: int): (s: string)
    requires 0 <= n < 100
    ensures |s| == 2 && AllDigits(s) && Num(s) == n
  {
    var s := [DigitChar(n / 10), DigitChar(n % 10)];
    NumAppend([], [s[0]]);
    NumAppend([s[0]], [s[1]]);
    assert [s[0]] + [s[1]] == s;
    s
  }

  /** Four digits, zero padded. */
  function Pad4(n: int): (s: string)
    requires 0 <= n < 10000
    ensures |s| == 4 && AllDigits(s) && Num(s) == n
  {
    var s := Pad2(n / 100) + Pad2(n % 100);
    NumAppend(Pad2(n / 100), [s[2]]);
    assert s[..3] == Pad2(n / 100) + [s[2]];
    assert s[..2] == Pad2(n / 100);
    assert Num(s[2..]) == n % 100;
    assert s[2..] == [s[2], s[3]];
    assert s[2..][..1] == [s[2]];
    s
  }

  lemma NumAppend(a: string, b: string)
    requires AllDigits(a) && |b| == 1 && AllDigits(b)
    ensures AllDigits(a + b) && Num(a + b) == 10 * Num(a) + Num(b)
  {
    assert (a + b)[..|a + b| - 1] == a;
    assert b[..0] == [];
  }

  /** `dt.strftime("%Y-%m-%d %H:%M:%S")`. */
  function Render(dt: DateTime): (s: string)
    requires Valid(dt)
  {
    RenderDate(dt) + " " + RenderTime(dt)
  }

  /** The "%Y-%m-%d" half of a rendering. */
  function RenderDate(dt: DateTime): (s: string)
    requires Valid(dt)
    ensures DateShape(s) && s[..4] == Pad4(dt.year) && s[5..7] == Pad2(dt.month) && s[8..] == Pad2(dt.day)
  {
    var y, m, d := Pad4(dt.year), Pad2(dt.month), Pad2(dt.day);
    var s := y + "-" + m + "-" + d;
    assert s[..4] == y && s[5..7] == m && s[8..] == d;
    s
  }

  /** The "%H:%M:%S" half of a rendering. */
  function RenderTime(dt: DateTime): (s: string)
    requires Valid(dt)
    ensures TimeShape(s) && s[..2] == Pad2(dt.hour) && s[3..5] == Pad2(dt.minute) && s[6..] == Pad2(dt.second)
  {
    var h, m, sec := Pad2(dt.hour), Pad2(dt.minute), Pad2(dt.second);
    var s := h + ":" + m + ":" + sec;
    assert s[..2] == h && s[3..5] == m && s[6..] == sec;
    s
  }

  /** The rendering is the fixed-width "YYYY-MM-DD HH:MM:SS" shape. */
  lemma RenderShape(dt: DateTime)
    requires Valid(dt)
    ensures var s := Render(dt);
      |s| == 19 && DateShape(s[..10]) && s[10] == ' ' && TimeShape(s[11..])
      && s[..4] == Pad4(dt.year) && s[5..7] == Pad2(dt.month) && s[8..10] == Pad2(dt.day)
      && s[11..13] == Pad2(dt.hour) && s[14..16] == Pad2(dt.minute) && s[17..] == Pad2(dt.second)
  {
    var s, d, t := Render(dt), RenderDate(dt), RenderTime(dt);
    assert s[..10] == d && s[11..] == t;
    assert s[..4] == d[..4] && s[5..7] == d[5..7] && s[8..10] == d[8..];
    assert s[11..13] == t[..2] && s[14..16] == t[3..5] && s[17..] == t[6..];
  }

  /** Parsing a rendering gives back the date-time it came from. */
  lemma ParseRender(dt: DateTime)
    requires Valid(dt)
    ensures ParseIso(Render(dt)) == Some(dt)
  {
    var s := Render(dt);
    RenderShape(dt);
    assert s[..10][..4] == s[..4] && s[..10][5..7] == s[5..7] && s[..10][8..] == s[8..10];
    assert s[11..19] == s[11..];
    assert s[11..][..2] == s[11..13] && s[11..][3..5] == s[14..16] && s[11..][6..] == s[17..];
    assert DateOf(s[..10]) == Some((dt.year, dt.month, dt.day));
    assert TimeOf(s[11..19]) == Some((dt.hour, dt.minute, dt.second));
    assert s[19..] == [];
  }

  /** A timestamp already in normal form: the rendering of a valid date-time. */
  predicate Canonical(s: string) {
    ParseIso(s).Some? && Render(ParseIso(s).value) == s
  }

  /** `_format_date`: None or "" gives the epoch sentinel; otherwise every
      trailing 'Z' is stripped and the rest parsed and re-rendered, with the
      sentinel again when parsing fails. It never fails. */
  function FormatDate(x: Option<string>): (r: string)
    ensures x == None || x == Some("") ==> r == Epoch
    ensures x.Some? && x.value != "" && ParseIso(DropTrailing(x.value, 'Z')).None? ==> r == Epoch
    ensures x.Some? && ParseIso(DropTrailing(x.value, 'Z')).Some? ==> ParseIso(r) == ParseIso(DropTrailing(x.value, 'Z'))
  {
    if x == None || x.value == "" then Epoch
    else match ParseIso(DropTrailing(x.value, 'Z'))
      case Some(dt) => ParseRender(dt); Render(dt)
      case None => Epoch
  }

  /** The year of the epoch, padded. */
  lemma EpochYear()
    ensures Pad4(1970) == "1970"
  {
    assert Pad2(19) == "19";
    assert Pad2(70) == "70";
  }

  /** The one- and zero-valued fields of the epoch, padded. */
  lemma EpochFields()
    ensures Pad2(1) == "01" && Pad2(0) == "00"
  {
    assert Pad2(1) == "01";
  }

  /** The epoch sentinel is the rendering of the epoch. */
  lemma EpochRendered()
    ensures Render(DateTime(1970, 1, 1, 0, 0, 0)) == Epoch
  {
    var dt := DateTime(1970, 1, 1, 0, 0, 0);
    EpochYear();
    EpochFields();
    assert RenderDate(dt) == "1970-01-01";
    assert RenderTime(dt) == "00:00:00";
  }

  /** The epoch sentinel is itself a normal-form timestamp. */
  lemma EpochCanonical()
    ensures ParseIso(Epoch) == Some(DateTime(1970, 1, 1, 0, 0, 0))
    ensures Render(DateTime(1970, 1, 1, 0, 0, 0)) == Epoch
  {
    EpochRendered();
    ParseRender(DateTime(1970, 1, 1, 0, 0, 0));
  }

  /** Every normalised timestamp has the form "YYYY-MM-DD HH:MM:SS" of a real
      date and time. */
  lemma FormatDateCanonical(x: Option<string>)
    ensures Canonical(FormatDate(x))
    ensures |FormatDate(x)| == 19 && DateShape(FormatDate(x)[..10]) && TimeShape(FormatDate(x)[11..])
  {
    EpochCanonical();
    if x.Some? && x.value != "" {
      match ParseIso(DropTrailing(x.value, 'Z'))
      case Some(dt) => ParseRender(dt); RenderShape(dt);
      case None => RenderShape(DateTime(1970, 1, 1, 0, 0, 0));
    } else {
      RenderShape(DateTime(1970, 1, 1, 0, 0, 0));
    }
  }

  /** Normalising a normalised timestamp changes nothing. */
  lemma FormatDateIdempotent(x: Option<string>)
    ensures FormatDate(Some(FormatDate(x))) == FormatDate(x)
  {
    var s := FormatDate(x);
    FormatDateCanonical(x);
    assert s[18] != 'Z' by { assert s[11..][7] == s[18]; }
    assert DropTrailing(s, 'Z') == s;
    var dt := ParseIso(s).value;
    assert Render(dt) == s;
  }

  /** Any number of trailing 'Z' characters is stripped, not just one. */
  lemma FormatDateIgnoresTrailingZ(s: string)
    ensures FormatDate(Some(s + "Z")) == FormatDate(Some(s))
  {
    assert (s + "Z")[..|s|] == s;
    assert DropTrailing(s + "Z", 'Z') == DropTrailing(s, 'Z');
    if s == "" {
      assert ParseIso("") == None;
    }
  }

  // ---------------------------------------------------------------------------
  // SQLite's DATE() of a text, as the issue query applies it to `created_at`
  // and to the date bounds.

  /** SQLite's white space: the ASCII separators only. */
  predicate SqlSpace(c: char) {
    c == ' ' || '\t' <= c <= '\r'
  }

  /** The text after a leading run of SQLite white space, and of 'T' too
      when `alsoT` holds. */
  function SkipSqlSpace(s: string, alsoT: bool): (r: string)
    ensures |r| <= |s| && r == s[|s| - |r|..]
    ensures r == [] || !(SqlSpace(r[0]) || (alsoT && r[0] == 'T'))
  {
    if s != [] && (SqlSpace(s[0]) || (alsoT && s[0] == 'T')) then SkipSqlSpace(s[1..], alsoT) else s
  }

  function Pow10(n: nat): nat {
    if n == 0 then 1 else 10 * Pow10(n - 1)
  }

  /** An n-digit text denotes less than 10^n. */
  lemma {:induction false} NumBelow(s: string)
    requires AllDigits(s)
    ensures Num(s) < Pow10(|s|)
  {
    if s != [] {
      NumBelow(s[..|s| - 1]);
    }
  }

  /** Two digit texts of one length that denote the same number are equal. */
  lemma {:induction false} NumInjective(a: string, b: string)
    requires AllDigits(a) && AllDigits(b) && |a| == |b| && Num(a) == Num(b)
    ensures a == b
  {
    if a != [] {
      var n := |a| - 1;
      NumInjective(a[..n], b[..n]);
      assert a == a[..n] + [a[n]] && b == b[..n] + [b[n]];
    }
  }

  /** "YYYY-MM-DD" naming a real day of the years 0000 to 9999. */
  predicate IsDay(s: string) {
    DateShape(s) && 1 <= Num(s[5..7]) <= 12 && 1 <= Num(s[8..]) <= DaysInMonth(Num(s[..4]), Num(s[5..7]))
  }

  /** "YYYY-MM-DD" as SQLite reads it: a four-digit year, a month 01 to 12
      and a day 01 to 31 whatever the month. */
  function SqlYmd(s: string): (r: Option<(int, int, int)>)
    ensures r.Some? ==> 0 <= r.value.0 <= 9999 && 1 <= r.value.1 <= 12 && 1 <= r.value.2 <= 31
    ensures DateOf(s).Some? ==> r == DateOf(s)
  {
    if DateShape(s) && 1 <= Num(s[5..7]) <= 12 && 1 <= Num(s[8..]) <= 31 then
      NumBelow(s[..4]);
      Some((Num(s[..4]), Num(s[5..7]), Num(s[8..])))
    else None
  }

  /** The time of day SQLite reads: "HH:MM" with hours 00 to 24, then
      optionally ":SS" and a fraction of "." and digits. The minutes past
      midnight it names, and the text after it; the seconds never move the
      date. */
  function SqlClock(s: string): (r: Option<(int, string)>)
    ensures r.Some? ==> 0 <= r.value.0 < 25 * 60
  {
    if |s| >= 5 && AllDigits(s[..2]) && s[2] == ':' && AllDigits(s[3..5]) && Num(s[..2]) <= 24 && Num(s[3..5]) <= 59 then
      var minutes := 60 * Num(s[..2]) + Num(s[3..5]);
      var rest := s[5..];
      if rest == [] || rest[0] != ':' then Some((minutes, rest))
      else if |rest| >= 3 && AllDigits(rest[1..3]) && Num(rest[1..3]) <= 59 then
        var after := rest[3..];
        if |after| >= 2 && after[0] == '.' && IsDigit(after[1])
        then Some((minutes, after[1 + DigitRun(after[1..])..]))
        else Some((minutes, after))
      else None
    else None
  }

  /** The zone SQLite reads after a time: white space, then nothing, "Z" or
      "z", or "+HH:MM" / "-HH:MM" with hours 00 to 14, then white space.
      The offset east of UTC, in minutes. */
  function SqlZone(s: string): (r: Option<int>)
    ensures r.Some? ==> -15 * 60 < r.value < 15 * 60
    ensures SkipSqlSpace(s, false) == [] ==> r == Some(0)
  {
    var t := SkipSqlSpace(s, false);
    if t == [] then Some(0)
    else if t[0] == 'Z' || t[0] == 'z' then
      if SkipSqlSpace(t[1..], false) == [] then Some(0) else None
    else if && (t[0] == '+' || t[0] == '-') && |t| >= 6 && AllDigits(t[1..3]) && t[3] == ':' && AllDigits(t[4..6])
      && Num(t[1..3]) <= 14 && Num(t[4..6]) <= 59 && SkipSqlSpace(t[6..], false) == []
    then
      var offset := 60 * Num(t[1..3]) + Num(t[4..6]);
      Some(if t[0] == '+' then offset else -offset)
    else None
  }

  /** The days the text after a date whose day number is `day` moves it.
      Nothing moves it by none. A time with a non-zero zone offset moves it to
      the day of that instant in UTC. Without an offset SQLite keeps the
      written date while the day number is at most 28, whatever the time
      ("24:00" included), and otherwise recomputes the day from the instant. */
  function SqlShift(s: string, day: int): (r: Option<int>)
    ensures r.Some? ==> -1 <= r.value <= 1
    ensures s == [] ==> r == Some(0)
  {
    if s == [] then Some(0)
    else match SqlClock(s)
      case None => None
      case Some((minutes, rest)) =>
        match SqlZone(rest)
        case None => None
        case Some(offset) =>
          var utc := minutes - offset;
          if offset == 0 && day <= 28 then Some(0)
          else Some(if utc < 0 then -1 else if utc >= 24 * 60 then 1 else 0)
  }

  /** A real day: month 1 to 12 and a day within that month. */
  predicate RealDay(day: (int, int, int)) {
    1 <= day.1 <= 12 && 1 <= day.2 <= DaysInMonth(day.0, day.1)
  }

  /** A day number past the end of its month carries into the next month,
      as SQLite's Julian-day arithmetic does ("2023-02-30" is 2 March). */
  function CarryDay(y: int, m: int, d: int): (r: (int, int, int))
    requires 1 <= m <= 12 && 1 <= d <= 31
    ensures RealDay(r)
    ensures d <= DaysInMonth(y, m) ==> r == (y, m, d)
    ensures d > DaysInMonth(y, m) ==> r == (y, m + 1, d - DaysInMonth(y, m))
  {
    if d <= DaysInMonth(y, m) then (y, m, d) else (y, m + 1, d - DaysInMonth(y, m))
  }

  /** The day `k` (-1, 0 or 1) days after a real day. */
  function ShiftDay(day: (int, int, int), k: int): (r: (int, int, int))
    requires RealDay(day) && -1 <= k <= 1
    ensures RealDay(r)
    ensures k == 0 ==> r == day
  {
    var (y, m, d) := day;
    if k > 0 then
      if d < DaysInMonth(y, m) then (y, m, d + 1) else if m < 12 then (y, m + 1, 1) else (y + 1, 1, 1)
    else if k < 0 then
      if d > 1 then (y, m, d - 1) else if m > 1 then (y, m - 1, DaysInMonth(y, m - 1)) else (y - 1, 12, 31)
    else day
  }

  /** "YYYY-MM-DD" for a day of the years 0000 to 9999. */
  function DayText(y: int, m: int, d: int): (s: string)
    requires 0 <= y <= 9999 && 1 <= m <= 12 && 1 <= d <= 31
    ensures DateShape(s) && Num(s[..4]) == y && Num(s[5..7]) == m && Num(s[8..]) == d
  {
    var s := Pad4(y) + "-" + Pad2(m) + "-" + Pad2(d);
    assert s[..4] == Pad4(y) && s[5..7] == Pad2(m) && s[8..] == Pad2(d);
    s
  }

  /** Rendering the numbers a "YYYY-MM-DD" text denotes gives that text. */
  lemma DayTextOf(s: string)
    requires DateShape(s) && 1 <= Num(s[5..7]) <= 12 && 1 <= Num(s[8..]) <= 31
    ensures Num(s[..4]) <= 9999 && DayText(Num(s[..4]), Num(s[5..7]), Num(s[8..])) == s
  {
    NumBelow(s[..4]);
    var t := DayText(Num(s[..4]), Num(s[5..7]), Num(s[8..]));
    NumInjective(t[..4], s[..4]);
    NumInjective(t[5..7], s[5..7]);
    NumInjective(t[8..], s[8..]);
    assert s == s[..4] + "-" + s[5..7] + "-" + s[8..];
    assert t == t[..4] + "-" + t[5..7] + "-" + t[8..];
  }

  /** The day `k` days after a readable day, carried into range, as text;
      none when it leaves the years 0000 to 9999. */
  function MovedDay(y: int, m: int, d: int, k: int): (r: Option<string>)
    requires 0 <= y <= 9999 && 1 <= m <= 12 && 1 <= d <= 31 && -1 <= k <= 1
    ensures r.Some? ==> IsDay(r.value)
    ensures k == 0 && d <= DaysInMonth(y, m) ==> r == Some(DayText(y, m, d))
  {
    var day := ShiftDay(CarryDay(y, m, d), k);
    if 0 <= day.0 <= 9999 then Some(DayText(day.0, day.1, day.2)) else None
  }

  /** SQLite's DATE(): the day a text names, carried into the next month when
      its day number is past the month's end and moved to the UTC day of the
      time and zone that follow it, as "YYYY-MM-DD"; NULL for NULL, for text
      it cannot read, and (here) for a day moved out of the years 0000 to
      9999. */
  function SqlDate(x: Option<string>): (r: Option<string>)
    ensures r.Some? ==> x.Some? && |x.value| >= 10 && SqlYmd(x.value[..10]).Some? && IsDay(r.value)
    ensures x.Some? && |x.value| >= 10 && SqlYmd(x.value[..10]).None? ==> r == None
    ensures x.Some? && DateOf(x.value).Some? ==> r == x
  {
    if x == None || |x.value| < 10 then None
    else
      var s := x.value;
      assert DateOf(s).Some? ==> SqlYmd(s[..10]) == DateOf(s) && SqlShift(SkipSqlSpace(s[10..], true), Num(s[8..])) == Some(0) by {
        if DateOf(s).Some? {
          assert s[..10] == s;
        }
      }
      match SqlYmd(s[..10])
      case None => None
      case Some((y, m, d)) =>
        match SqlShift(SkipSqlSpace(s[10..], true), d)
        case None => None
        case Some(k) =>
          assert DateOf(s).Some? ==> DayText(y, m, d) == s by {
            if DateOf(s).Some? {
              DayTextOf(s);
            }
          }
          MovedDay(y, m, d, k)
  }

  /** A real date, ' ' or 'T', and an in-range "HH:MM:SS": the date part. */
  lemma SqlDateOfDateTime(s: string)
    requires |s| == 19 && DateOf(s[..10]).Some? && (s[10] == ' ' || s[10] == 'T') && TimeOf(s[11..]).Some?
    ensures SqlDate(Some(s)) == Some(s[..10])
  {
    var t := s[11..];
    assert SkipSqlSpace(s[10..], true) == t by {
      assert s[10..][1..] == t;
      assert IsDigit(t[..2][0]);
    }
    ShiftOfTime(t, Num(s[8..10]));
    DayTextOf(s[..10]);
  }

  /** An in-range "HH:MM:SS" alone leaves the date where it is. */
  lemma ShiftOfTime(t: string, day: int)
    requires TimeOf(t).Some?
    ensures SqlShift(t, day) == Some(0)
  {
    assert t[5..][1..3] == t[6..];
    assert t[5..][3..] == [];
    assert SqlClock(t).Some? && SqlClock(t).value.1 == [] && SqlClock(t).value.0 < 24 * 60;
  }

  /** The number two digits denote. */
  lemma NumTwo(a: char, b: char)
    requires IsDigit(a) && IsDigit(b)
    ensures AllDigits([a, b]) && Num([a, b]) == 10 * (a as int - '0' as int) + (b as int - '0' as int)
  {
    assert [a][..0] == [];
    assert Num([a]) == a as int - '0' as int;
    assert [a, b][..1] == [a];
  }

  /** The number four digits denote. */
  lemma NumFour(a: char, b: char, c: char, d: char)
    requires IsDigit(a) && IsDigit(b) && IsDigit(c) && IsDigit(d)
    ensures AllDigits([a, b, c, d])
    ensures Num([a, b, c, d]) == 1000 * (a as int - '0' as int) + 100 * (b as int - '0' as int) + 10 * (c as int - '0' as int) + (d as int - '0' as int)
  {
    assert [a, b, c, d][..3] == [a, b, c];
    assert [a, b, c][..2] == [a, b];
    NumTwo(a, b);
  }

  lemma ReadsFebruaryThirtieth()
    ensures SqlYmd("2023-02-30") == Some((2023, 2, 30))
  {
    var s := "2023-02-30";
    assert s[..4] == "2023";
    assert s[5..7] == "02";
    assert s[8..] == "30";
    NumFour('2', '0', '2', '3');
    NumTwo('0', '2');
    NumTwo('3', '0');
  }

  lemma RendersMarchSecond()
    ensures DayText(2023, 3, 2) == "2023-03-02"
  {
    var u := "2023-03-02";
    assert u[..4] == "2023";
    assert u[5..7] == "03";
    assert u[8..] == "02";
    NumFour('2', '0', '2', '3');
    NumTwo('0', '3');
    NumTwo('0', '2');
    DayTextOf(u);
  }

  /** A day past the month's end carries over: DATE('2023-02-30') is
      '2023-03-02'. */
  lemma SqlDateCarries()
    ensures SqlDate(Some("2023-02-30")) == Some("2023-03-02")
  {
    var s := "2023-02-30";
    ReadsFebruaryThirtieth();
    RendersMarchSecond();
    assert s[..10] == s && s[10..] == [];
    assert CarryDay(2023, 2, 30) == (2023, 3, 2);
    assert MovedDay(2023, 2, 30, 0) == Some(DayText(2023, 3, 2));
  }

  lemma ReadsHalfPastMidnight()
    ensures SqlClock("00:30:00+01:00") == Some((30, "+01:00"))
  {
    var c := "00:30:00+01:00";
    assert c[..2] == "00";
    assert c[3..5] == "30";
    assert c[5..] == ":00+01:00";
    NumTwo('0', '0');
    NumTwo('3', '0');
    var rest := c[5..];
    assert rest[1..3] == "00";
    assert rest[3..] == "+01:00";
  }

  lemma ReadsOneHourEast()
    ensures SqlZone("+01:00") == Some(60)
  {
    assert "+01:00" == ['+', '0', '1', ':', '0', '0'];
    NumTwo('0', '1');
    NumTwo('0', '0');
    ReadsOffset('+', '0', '1', '0', '0');
  }

  /** "+HH:MM" or "-HH:MM" alone reads as that many minutes east of UTC. */
  lemma ReadsOffset(sign: char, h1: char, h2: char, m1: char, m2: char)
    requires sign == '+' || sign == '-'
    requires IsDigit(h1) && IsDigit(h2) && IsDigit(m1) && IsDigit(m2)
    requires Num([h1, h2]) <= 14 && Num([m1, m2]) <= 59
    ensures var offset := 60 * Num([h1, h2]) + Num([m1, m2]);
      SqlZone([sign, h1, h2, ':', m1, m2]) == Some(if sign == '+' then offset else -offset)
  {
    var z := [sign, h1, h2, ':', m1, m2];
    assert SkipSqlSpace(z, false) == z by {
      assert !SqlSpace(z[0]);
    }
    assert z[1..3] == [h1, h2] && z[4..6] == [m1, m2];
    NumTwo(h1, h2);
    NumTwo(m1, m2);
    assert z[6..] == [];
  }

  lemma ReadsJanuaryFifteenth()
    ensures SqlYmd("2024-01-15") == Some((2024, 1, 15))
  {
    var d := "2024-01-15";
    assert d[..4] == "2024";
    assert d[5..7] == "01";
    assert d[8..] == "15";
    NumFour('2', '0', '2', '4');
    NumTwo('0', '1');
    NumTwo('1', '5');
  }

  lemma RendersJanuaryFourteenth()
    ensures DayText(2024, 1, 14) == "2024-01-14"
  {
    var u := "2024-01-14";
    assert u[..4] == "2024";
    assert u[5..7] == "01";
    assert u[8..] == "14";
    NumFour('2', '0', '2', '4');
    NumTwo('0', '1');
    NumTwo('1', '4');
    DayTextOf(u);
  }

  lemma SkipsTheT()
    ensures SkipSqlSpace("T00:30:00+01:00", true) == "00:30:00+01:00"
  {
    var t := "T00:30:00+01:00";
    var c := "00:30:00+01:00";
    assert t[0] == 'T' && t[1..] == c;
    assert c[0] == '0' && !SqlSpace(c[0]);
    assert SkipSqlSpace(c, true) == c;
  }

  lemma ShiftsBackADay()
    ensures SqlShift(SkipSqlSpace("T00:30:00+01:00", true), 15) == Some(-1)
  {
    SkipsTheT();
    var c := "00:30:00+01:00";
    ReadsHalfPastMidnight();
    ReadsOneHourEast();
    ShiftOfZone(c, 15, 30, "+01:00", 60);
  }

  /** A time and a zone read off the text give the shift SqlShift makes of them. */
  lemma ShiftOfZone(s: string, day: int, minutes: int, rest: string, offset: int)
    requires s != [] && SqlClock(s) == Some((minutes, rest)) && SqlZone(rest) == Some(offset)
    ensures offset == 0 && day <= 28 ==> SqlShift(s, day) == Some(0)
    ensures offset != 0 || day > 28 ==> SqlShift(s, day) == Some(if minutes < offset then -1 else if minutes - offset >= 24 * 60 then 1 else 0)
  {
  }

  /** A zone offset moves the date to the UTC day: half past midnight at
      UTC+1 on 15 January is 14 January. */
  lemma SqlDateZone()
    ensures SqlDate(Some("2024-01-15T00:30:00+01:00")) == Some("2024-01-14")
  {
    var s := "2024-01-15T00:30:00+01:00";
    assert s[..10] == "2024-01-15" && s[10..] == "T00:30:00+01:00";
    ReadsJanuaryFifteenth();
    ShiftsBackADay();
    assert SqlDate(Some(s)) == MovedDay(2024, 1, 15, -1);
    assert ShiftDay(CarryDay(2024, 1, 15), -1) == (2024, 1, 14);
    RendersJanuaryFourteenth();
  }

  /** Without a zone offset a real day up to the 28th stays the written date
      whatever the time that follows, "24:00" included. */
  lemma SqlDateKeepsDay(s: string, minutes: int, rest: string)
    requires |s| > 10 && DateOf(s[..10]).Some? && Num(s[8..10]) <= 28
    requires SkipSqlSpace(s[10..], true) != []
    requires SqlClock(SkipSqlSpace(s[10..], true)) == Some((minutes, rest)) && SqlZone(rest) == Some(0)
    ensures SqlDate(Some(s)) == Some(s[..10])
  {
    var date := s[..10];
    assert date[8..] == s[8..10];
    ShiftOfZone(SkipSqlSpace(s[10..], true), Num(s[8..10]), minutes, rest, 0);
    DayTextOf(date);
  }

  /** "HH:MM" alone, hours up to 24: the minutes past midnight it names. */
  lemma ReadsClock(h1: char, h2: char, m1: char, m2: char)
    requires IsDigit(h1) && IsDigit(h2) && IsDigit(m1) && IsDigit(m2)
    requires Num([h1, h2]) <= 24 && Num([m1, m2]) <= 59
    ensures SqlClock([h1, h2, ':', m1, m2]) == Some((60 * Num([h1, h2]) + Num([m1, m2]), []))
  {
    var c := [h1, h2, ':', m1, m2];
    assert c[..2] == [h1, h2] && c[3..5] == [m1, m2] && c[5..] == [];
    NumTwo(h1, h2);
    NumTwo(m1, m2);
  }

  /** DATE('2024-01-15 24:00') is '2024-01-15': the end-of-day time does not
      move a date that has no zone offset. */
  lemma SqlDateAtTwentyFour()
    ensures SqlDate(Some("2024-01-15 24:00")) == Some("2024-01-15")
  {
    var s := "2024-01-15 24:00";
    assert s[..10] == "2024-01-15" && s[8..10] == ['1', '5'] && s[10..] == " 24:00";
    FifteenthIsADay();
    NumTwo('1', '5');
    SkipsTheSpace();
    ReadsEndOfDay();
    SqlDateKeepsDay(s, 24 * 60, []);
  }

  lemma FifteenthIsADay()
    ensures DateOf("2024-01-15").Some?
  {
    ReadsJanuaryFifteenth();
    assert DaysInMonth(2024, 1) == 31;
  }

  lemma SkipsTheSpace()
    ensures SkipSqlSpace(" 24:00", true) == "24:00"
  {
    var t := " 24:00";
    assert SqlSpace(t[0]) && t[1..] == "24:00";
    assert !SqlSpace('2') && "24:00"[0] == '2';
  }

  lemma ReadsEndOfDay()
    ensures SqlClock("24:00") == Some((24 * 60, []))
  {
    assert "24:00" == ['2', '4', ':', '0', '0'];
    NumTwo('2', '4');
    NumTwo('0', '0');
    ReadsClock('2', '4', '0', '0');
  }

  /** DATE() of a normalised timestamp is its "YYYY-MM-DD" prefix. */
  lemma SqlDateOfFormatted(x: Option<string>)
    ensures SqlDate(Some(FormatDate(x))) == Some(FormatDate(x)[..10])
  {
    var s := FormatDate(x);
    FormatDateCanonical(x);
    var dt := ParseIso(s).value;
    ParseRender(dt);
    RenderShape(dt);
    assert DateOf(s[..10]).Some?;
    assert TimeOf(s[11..19]).Some?;
    assert s[11..] == s[11..19];
    SqlDateOfDateTime(s);
  }
}
