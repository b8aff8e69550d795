/** The on-disk timestamps: RFC 3339 date-times in UTC (sections 5.1 and 5.6) with nine
    fraction digits, so that comparing texts compares times. */
module Timestamps {
  import opened Options
  import opened Text
  import Sequences

  /** A civil date-time in UTC. */
  datatype Civil = Civil(year: nat, month: nat, day: nat, hour: nat, minute: nat, second: nat, nanos: nat)

  predicate Leap(year: nat) {
    year % 4 == 0 && (year % 100 != 0 || year % 400 == 0)
  }

  function DaysIn(month: nat, year: nat): nat {
    if month == 2 then (if Leap(year) then 29 else 28)
    else if month in {4, 6, 9, 11} then 30
    else 31
  }

  predicate IsDateTime(t: Civil) {
    && 1 <= t.month <= 12 && 1 <= t.day <= DaysIn(t.month, t.year)
    && t.hour < 24 && t.minute < 60 && t.second < 60 && t.nanos < 1_000_000_000
  }

  /** Which date-times there are: months of 31 and of 30 days, February of 28, or of 29 in a year
      divisible by 4 and not by 100, or by 400. */
  lemma DateTimesAre(t: Civil)
    ensures IsDateTime(t) <==>
      && t.day >= 1
      && (t.month in [1, 3, 5, 7, 8, 10, 12] ==> t.day <= 31)
      && (t.month in [4, 6, 9, 11] ==> t.day <= 30)
      && (t.month == 2 ==>
            t.day <= 28 || (t.day == 29 && t.year % 4 == 0 && (t.year % 100 == 0 ==> t.year % 400 == 0)))
      && 1 <= t.month <= 12
      && 0 <= t.hour <= 23 && 0 <= t.minute <= 59 && 0 <= t.second <= 59 && 0 <= t.nanos <= 999999999
  {
  }

  predicate Before(t: Civil, u: Civil) {
    if t.year != u.year then t.year < u.year
    else if t.month != u.month then t.month < u.month
    else if t.day != u.day then t.day < u.day
    else if t.hour != u.hour then t.hour < u.hour
    else if t.minute != u.minute then t.minute < u.minute
    else if t.second != u.second then t.second < u.second
    else t.nanos < u.nanos
  }

  /** Go writes a year in four digits, or in as many as it takes. */
  function FormatYear(year: nat): string {
    if year < 10000 then Pad(year, 4) else Itoa(year)
  }

  /** Up to the seconds. */
  function FormatPrefix(t: Civil): string {
    FormatYear(t.year) + ("-" + Pad(t.month, 2) + ("-" + Pad(t.day, 2) + ("T" + Pad(t.hour, 2)
      + (":" + Pad(t.minute, 2) + (":" + Pad(t.second, 2))))))
  }

  function FormatTs(t: Civil): string {
    FormatPrefix(t) + ("." + Pad(t.nanos, 9) + "Z")
  }

  /** The seed rows' format, without a fraction. */
  function FormatSeconds(t: Civil): string {
    FormatPrefix(t) + "Z"
  }

  lemma PowersOfTen()
    ensures Power10(2) == 100 && Power10(4) == 10000 && Power10(5) == 100_000 && Power10(9) == 1_000_000_000
  {
    assert Power10(3) == 1000;
    assert Power10(5) == 100_000 && Power10(6) == 1_000_000;
    assert Power10(7) == 10_000_000 && Power10(8) == 100_000_000;
  }

  // ---- Order ----

  lemma FieldOrder(mark: char, n: nat, m: nat, w: nat, x: string, y: string)
    requires n < Power10(w) && m < Power10(w)
    ensures Less([mark] + Pad(n, w) + x, [mark] + Pad(m, w) + y) <==> n < m || (n == m && Less(x, y))
  {
    PadOrder(n, m, w);
    LessByParts([mark], Pad(n, w), [mark], Pad(m, w));
    LessByParts([mark] + Pad(n, w), x, [mark] + Pad(m, w), y);
    assert ([mark] + Pad(n, w))[1..] == Pad(n, w) && ([mark] + Pad(m, w))[1..] == Pad(m, w);
    LessTotal([mark], [mark]);
  }

  /** The rest of the text from the seconds on, and so on back to the month. */
  function FromSecond(t: Civil): string { ":" + Pad(t.second, 2) + ("." + Pad(t.nanos, 9) + "Z") }
  function FromMinute(t: Civil): string { ":" + Pad(t.minute, 2) + FromSecond(t) }
  function FromHour(t: Civil): string { "T" + Pad(t.hour, 2) + FromMinute(t) }
  function FromDay(t: Civil): string { "-" + Pad(t.day, 2) + FromHour(t) }
  function FromMonth(t: Civil): string { "-" + Pad(t.month, 2) + FromDay(t) }

  lemma FormatParts(t: Civil)
    ensures FormatTs(t) == FormatYear(t.year) + FromMonth(t)
  {
    var sec := ":" + Pad(t.second, 2);
    var frac := "." + Pad(t.nanos, 9) + "Z";
    assert sec + frac == FromSecond(t);
    var min := ":" + Pad(t.minute, 2);
    assert (min + sec) + frac == FromMinute(t);
    var hour := "T" + Pad(t.hour, 2);
    assert (hour + (min + sec)) + frac == hour + ((min + sec) + frac);
    var day := "-" + Pad(t.day, 2);
    assert (day + (hour + (min + sec))) + frac == day + ((hour + (min + sec)) + frac);
    var month := "-" + Pad(t.month, 2);
    assert (month + (day + (hour + (min + sec)))) + frac == month + ((day + (hour + (min + sec))) + frac);
  }

  lemma TimeOfDayOrder(t: Civil, u: Civil)
    requires IsDateTime(t) && IsDateTime(u)
    ensures Less(FromHour(t), FromHour(u)) <==>
      Before(t.(year := 0, month := 1, day := 1), u.(year := 0, month := 1, day := 1))
  {
    PowersOfTen();
    FieldOrder('T', t.hour, u.hour, 2, FromMinute(t), FromMinute(u));
    FieldOrder(':', t.minute, u.minute, 2, FromSecond(t), FromSecond(u));
    FieldOrder(':', t.second, u.second, 2, "." + Pad(t.nanos, 9) + "Z", "." + Pad(u.nanos, 9) + "Z");
    FieldOrder('.', t.nanos, u.nanos, 9, "Z", "Z");
    LessTotal("Z", "Z");
  }

  /** With the years in one width, the texts are in the order of the times. */
  lemma SameWidthOrder(t: Civil, u: Civil, w: nat)
    requires IsDateTime(t) && IsDateTime(u)
    requires t.year < Power10(w) && u.year < Power10(w)
    requires FormatYear(t.year) == Pad(t.year, w) && FormatYear(u.year) == Pad(u.year, w)
    ensures Less(FormatTs(t), FormatTs(u)) <==> Before(t, u)
  {
    PowersOfTen();
    FormatParts(t);
    FormatParts(u);
    PadOrder(t.year, u.year, w);
    LessByParts(Pad(t.year, w), FromMonth(t), Pad(u.year, w), FromMonth(u));
    FieldOrder('-', t.month, u.month, 2, FromDay(t), FromDay(u));
    FieldOrder('-', t.day, u.day, 2, FromHour(t), FromHour(u));
    TimeOfDayOrder(t, u);
  }

  /** For any two times in the years 0000 to 9999, the texts are in the order of the times. */
  lemma TextOrderIsTimeOrder(t: Civil, u: Civil)
    requires IsDateTime(t) && IsDateTime(u) && t.year <= 9999 && u.year <= 9999
    ensures Less(FormatTs(t), FormatTs(u)) <==> Before(t, u)
  {
    PowersOfTen();
    SameWidthOrder(t, u, 4);
  }

  /** So they are among five-digit years. */
  lemma FiveDigitYearOrder(t: Civil, u: Civil)
    requires IsDateTime(t) && IsDateTime(u) && 10000 <= t.year <= 99999 && 10000 <= u.year <= 99999
    ensures Less(FormatTs(t), FormatTs(u)) <==> Before(t, u)
  {
    PowersOfTen();
    ItoaIsPad(t.year, 5);
    ItoaIsPad(u.year, 5);
    SameWidthOrder(t, u, 5);
  }

  /** Across the two widths the times are always in order and the texts only sometimes:
      exactly when the four-digit year is at most the first four digits of the other. */
  lemma MixedWidthOrder(t: Civil, u: Civil)
    requires t.year <= 9999 && 10000 <= u.year <= 99999
    ensures Before(t, u)
    ensures Less(FormatTs(t), FormatTs(u)) <==> t.year <= u.year / 10
  {
    PowersOfTen();
    FormatParts(t);
    FormatParts(u);
    ItoaIsPad(u.year, 5);
    var high, last := Pad(u.year / 10, 4), [Digit(u.year % 10)];
    assert FormatTs(u) == high + (last + FromMonth(u));
    PadOrder(t.year, u.year / 10, 4);
    LessByParts(Pad(t.year, 4), FromMonth(t), high, last + FromMonth(u));
    assert FromMonth(t)[0] == '-' && (last + FromMonth(u))[0] == Digit(u.year % 10);
  }

  // ---- Layout ----

  /** The six marks of the layout up to the seconds. */
  ghost predicate Marked(s: string) {
    |s| >= 19 && s[4] == '-' && s[7] == '-' && s[10] == 'T' && s[13] == ':' && s[16] == ':'
  }

  lemma {:induction false} PadIs(n: nat, w: nat)
    requires n < Power10(w)
    ensures |Pad(n, w)| == w && Atoi(Pad(n, w)) == n
    ensures forall c :: c in Pad(n, w) ==> '0' <= c <= '9'
  {
    PadReadsBack(n, w);
    if w > 0 {
      PadIs(n / 10, w - 1);
    }
  }

  /** The fields stand where the layout 2006-01-02T15:04:05 has them. */
  ghost predicate FieldsAt(s: string, t: Civil) {
    && Marked(s)
    && Atoi(s[0..4]) == t.year && Atoi(s[5..7]) == t.month && Atoi(s[8..10]) == t.day
    && Atoi(s[11..13]) == t.hour && Atoi(s[14..16]) == t.minute && Atoi(s[17..19]) == t.second
  }

  lemma FieldFrom(s: string, k: nat, mark: char, field: string, rest: string)
    requires k <= |s| && s[k..] == [mark] + field + rest && |field| == 2
    ensures k + 3 <= |s| && s[k] == mark && s[k + 1..k + 3] == field && s[k + 3..] == rest
  {
    var t := s[k..];
    assert s[k] == t[0] && s[k + 1..k + 3] == t[1..3] && s[k + 3..] == t[3..];
  }

  /** Seven fields between their marks. */
  lemma Fields(s: string, year: string, month: string, day: string, hour: string, minute: string, second: string,
               fraction: string)
    requires |year| == 4 && |month| == |day| == |hour| == |minute| == |second| == 2 && |fraction| == 9
    requires s == year + ("-" + month + ("-" + day + ("T" + hour + (":" + minute + (":" + second
      + ("." + fraction + "Z"))))))
    ensures |s| == 30 && Marked(s) && s[19] == '.' && s[29] == 'Z'
    ensures s[0..4] == year && s[5..7] == month && s[8..10] == day
    ensures s[11..13] == hour && s[14..16] == minute && s[17..19] == second && s[20..29] == fraction
  {
    var sec := ":" + second + ("." + fraction + "Z");
    var min := ":" + minute + sec;
    var hr := "T" + hour + min;
    var dy := "-" + day + hr;
    assert s[0..4] == year && s[4..] == "-" + month + dy;
    FieldFrom(s, 4, '-', month, dy);
    FieldFrom(s, 7, '-', day, hr);
    FieldFrom(s, 10, 'T', hour, min);
    FieldFrom(s, 13, ':', minute, sec);
    FieldFrom(s, 16, ':', second, "." + fraction + "Z");
    FractionFrom(s, fraction);
  }

  /** The text that is stored, character by character: the fields, a dot, nine digits and Z. */
  lemma LayoutIs(t: Civil)
    requires IsDateTime(t) && t.year <= 9999
    ensures |FormatTs(t)| == 30 && FieldsAt(FormatTs(t), t)
    ensures FormatTs(t)[19] == '.' && Atoi(FormatTs(t)[20..29]) == t.nanos && FormatTs(t)[29] == 'Z'
  {
    PowersOfTen();
    FormatParts(t);
    Fields(FormatTs(t), Pad(t.year, 4), Pad(t.month, 2), Pad(t.day, 2), Pad(t.hour, 2), Pad(t.minute, 2),
           Pad(t.second, 2), Pad(t.nanos, 9));
    PadIs(t.year, 4);
    PadIs(t.month, 2);
    PadIs(t.day, 2);
    PadIs(t.hour, 2);
    PadIs(t.minute, 2);
    PadIs(t.second, 2);
    PadIs(t.nanos, 9);
  }

  lemma FractionFrom(s: string, digits: string)
    requires |s| >= 19 && s[19..] == "." + digits + "Z" && |digits| == 9
    ensures |s| == 30 && s[19] == '.' && s[20..29] == digits && s[29] == 'Z'
  {
    var t := s[19..];
    assert s[19] == t[0] && s[20..29] == t[1..10] && s[29] == t[10];
  }

  /** In the other format Z follows the same nineteen characters. */
  lemma SecondsLayoutIs(t: Civil)
    requires IsDateTime(t) && t.year <= 9999
    ensures |FormatSeconds(t)| == 20 && FieldsAt(FormatSeconds(t), t) && FormatSeconds(t)[19] == 'Z'
  {
    LayoutIs(t);
    PrefixLength(t);
    var s, u := FormatTs(t), FormatSeconds(t);
    assert s[..19] == FormatPrefix(t) && u[..19] == FormatPrefix(t);
    SameStart(s, u, t);
  }

  lemma PrefixLength(t: Civil)
    requires t.year <= 9999
    ensures |FormatPrefix(t)| == 19
  {
  }

  lemma SameStart(s: string, u: string, t: Civil)
    requires |s| >= 19 && |u| >= 19 && s[..19] == u[..19] && FieldsAt(s, t)
    ensures FieldsAt(u, t)
  {
    var v := s[..19];
    assert u[0..4] == v[0..4] && u[5..7] == v[5..7] && u[8..10] == v[8..10];
    assert u[11..13] == v[11..13] && u[14..16] == v[14..16] && u[17..19] == v[17..19];
    assert s[0..4] == v[0..4] && s[5..7] == v[5..7] && s[8..10] == v[8..10];
    assert s[11..13] == v[11..13] && s[14..16] == v[14..16] && s[17..19] == v[17..19];
    assert u[4] == v[4] && u[7] == v[7] && u[10] == v[10] && u[13] == v[13] && u[16] == v[16];
    assert s[4] == v[4] && s[7] == v[7] && s[10] == v[10] && s[13] == v[13] && s[16] == v[16];
  }

  // ---- Reading back ----

  /** A number of w digits at the start of the text, and what follows. */
  function Digits(s: string, w: nat): Option<(nat, string)> {
    if |s| >= w && Atoi(s[..w]) >= 0 then Some((Atoi(s[..w]), s[w..])) else None
  }

  function Field(s: string, mark: char, w: nat): Option<(nat, string)> {
    if s != [] && s[0] == mark then Digits(s[1..], w) else None
  }

  /** Both layouts up to the seconds. */
  function ParsePrefix(s: string): Option<(Civil, string)> {
    var year := Digits(s, 4);
    if year.None? then None else
    var month := Field(year.value.1, '-', 2);
    if month.None? then None else
    var day := Field(month.value.1, '-', 2);
    if day.None? then None else
    var hour := Field(day.value.1, 'T', 2);
    if hour.None? then None else
    var minute := Field(hour.value.1, ':', 2);
    if minute.None? then None else
    var second := Field(minute.value.1, ':', 2);
    if second.None? then None else
    Some((Civil(year.value.0, month.value.0, day.value.0, hour.value.0, minute.value.0, second.value.0, 0),
          second.value.1))
  }

  /** What follows the seconds: nine fraction digits and Z in the one layout, Z in the other. */
  function ParseTail(t: Civil, tail: string): Option<Civil> {
    var nanos := Field(tail, '.', 9);
    if nanos.Some? && nanos.value.1 == "Z" then Some(t.(nanos := nanos.value.0))
    else if tail == "Z" then Some(t)
    else None
  }

  /** The nanosecond layout first, then the layout without a fraction; None stands for the
      zero time that an unreadable text yields. */
  function ParseTs(s: string): Option<Civil> {
    var prefix := ParsePrefix(s);
    if prefix.None? then None else
    var t := ParseTail(prefix.value.0, prefix.value.1);
    if t.Some? && IsDateTime(t.value) then t else None
  }

  lemma DigitsOfPad(n: nat, w: nat, rest: string)
    requires n < Power10(w)
    ensures Digits(Pad(n, w) + rest, w) == Some((n, rest))
  {
    PadReadsBack(n, w);
    assert (Pad(n, w) + rest)[..w] == Pad(n, w) && (Pad(n, w) + rest)[w..] == rest;
  }

  lemma FieldOfPad(mark: char, n: nat, w: nat, rest: string)
    requires n < Power10(w)
    ensures Field([mark] + Pad(n, w) + rest, mark, w) == Some((n, rest))
  {
    DigitsOfPad(n, w, rest);
    assert ([mark] + Pad(n, w) + rest)[1..] == Pad(n, w) + rest;
  }

  lemma PrefixParts(t: Civil, tail: string)
    requires t.year <= 9999
    ensures FormatPrefix(t) + tail == Pad(t.year, 4) + ("-" + Pad(t.month, 2) + ("-" + Pad(t.day, 2)
      + ("T" + Pad(t.hour, 2) + (":" + Pad(t.minute, 2) + (":" + Pad(t.second, 2) + tail)))))
  {
    var sec := ":" + Pad(t.second, 2);
    var min := ":" + Pad(t.minute, 2);
    var hour := "T" + Pad(t.hour, 2);
    var day := "-" + Pad(t.day, 2);
    var month := "-" + Pad(t.month, 2);
    Sequences.Assoc(min, sec, tail);
    Sequences.Assoc(hour, min + sec, tail);
    Sequences.Assoc(day, hour + (min + sec), tail);
    Sequences.Assoc(month, day + (hour + (min + sec)), tail);
    Sequences.Assoc(Pad(t.year, 4), month + (day + (hour + (min + sec))), tail);
  }

  /** Reading up to the seconds undoes writing up to the seconds, whatever follows. */
  lemma PrefixReadsBack(t: Civil, tail: string)
    requires IsDateTime(t) && t.year <= 9999
    ensures ParsePrefix(FormatPrefix(t) + tail) == Some((t.(nanos := 0), tail))
  {
    PowersOfTen();
    var sec := ":" + Pad(t.second, 2) + tail;
    var min := ":" + Pad(t.minute, 2) + sec;
    var hour := "T" + Pad(t.hour, 2) + min;
    var day := "-" + Pad(t.day, 2) + hour;
    var month := "-" + Pad(t.month, 2) + day;
    PrefixParts(t, tail);
    DigitsOfPad(t.year, 4, month);
    FieldOfPad('-', t.month, 2, day);
    FieldOfPad('-', t.day, 2, hour);
    FieldOfPad('T', t.hour, 2, min);
    FieldOfPad(':', t.minute, 2, sec);
    FieldOfPad(':', t.second, 2, tail);
  }

  lemma TailReadsBack(t: Civil, nanos: nat)
    requires nanos < 1_000_000_000
    ensures ParseTail(t, "." + Pad(nanos, 9) + "Z") == Some(t.(nanos := nanos))
    ensures ParseTail(t, "Z") == Some(t)
  {
    PowersOfTen();
    FieldOfPad('.', nanos, 9, "Z");
    assert "Z"[0] != '.';
  }

  lemma ReadInParts(s: string, date: Civil, tail: string, t: Civil)
    requires ParsePrefix(s) == Some((date, tail)) && ParseTail(date, tail) == Some(t) && IsDateTime(t)
    ensures ParseTs(s) == Some(t)
  {
  }

  /** A stored time reads back as itself, in either format. */
  lemma TimestampsReadBack(t: Civil)
    requires IsDateTime(t) && t.year <= 9999
    ensures ParseTs(FormatTs(t)) == Some(t)
    ensures ParseTs(FormatSeconds(t)) == Some(t.(nanos := 0))
  {
    PrefixReadsBack(t, "." + Pad(t.nanos, 9) + "Z");
    PrefixReadsBack(t, "Z");
    TailReadsBack(t.(nanos := 0), t.nanos);
    ReadInParts(FormatTs(t), t.(nanos := 0), "." + Pad(t.nanos, 9) + "Z", t);
    ReadInParts(FormatSeconds(t), t.(nanos := 0), "Z", t.(nanos := 0));
  }

  lemma DigitsRead(s: string, w: nat, n: nat, rest: string)
    requires Digits(s, w) == Some((n, rest))
    ensures n < Power10(w) && s == Pad(n, w) + rest
  {
    ReadsAsPad(s[..w]);
    assert s == s[..w] + s[w..];
  }

  lemma FieldReads(s: string, mark: char, w: nat, n: nat, rest: string)
    requires Field(s, mark, w) == Some((n, rest))
    ensures n < Power10(w) && s == [mark] + Pad(n, w) + rest
  {
    DigitsRead(s[1..], w, n, rest);
    assert s == [mark] + s[1..];
  }

  /** What is read up to the seconds was written so. */
  lemma PrefixReads(s: string, t: Civil, tail: string)
    requires ParsePrefix(s) == Some((t, tail))
    ensures t.year <= 9999 && t.nanos == 0 && s == FormatPrefix(t) + tail
  {
    PowersOfTen();
    var year := Digits(s, 4).value;
    var month := Field(year.1, '-', 2).value;
    var day := Field(month.1, '-', 2).value;
    var hour := Field(day.1, 'T', 2).value;
    var minute := Field(hour.1, ':', 2).value;
    var second := Field(minute.1, ':', 2).value;
    DigitsRead(s, 4, year.0, year.1);
    FieldReads(year.1, '-', 2, month.0, month.1);
    FieldReads(month.1, '-', 2, day.0, day.1);
    FieldReads(day.1, 'T', 2, hour.0, hour.1);
    FieldReads(hour.1, ':', 2, minute.0, minute.1);
    FieldReads(minute.1, ':', 2, second.0, second.1);
    PrefixParts(t, tail);
  }

  lemma TailReads(t: Civil, tail: string, u: Civil)
    requires t.nanos == 0 && ParseTail(t, tail) == Some(u)
    ensures u == t.(nanos := u.nanos) && u.nanos < 1_000_000_000
    ensures tail == "." + Pad(u.nanos, 9) + "Z" || (tail == "Z" && u.nanos == 0)
  {
    PowersOfTen();
    var nanos := Field(tail, '.', 9);
    if nanos.Some? {
      FieldReads(tail, '.', 9, nanos.value.0, nanos.value.1);
    }
  }

  /** Exactly what is read: a text reads as a time if and only if it is the time's own text in
      one of the two formats. */
  lemma ReadsExactly(s: string, t: Civil)
    ensures ParseTs(s) == Some(t) <==>
      IsDateTime(t) && t.year <= 9999 && (s == FormatTs(t) || (t.nanos == 0 && s == FormatSeconds(t)))
  {
    if ParseTs(s) == Some(t) {
      var prefix := ParsePrefix(s).value;
      PrefixReads(s, prefix.0, prefix.1);
      TailReads(prefix.0, prefix.1, t);
      assert FormatPrefix(t) == FormatPrefix(prefix.0);
    }
    if IsDateTime(t) && t.year <= 9999 {
      TimestampsReadBack(t);
    }
  }

  /** The two formats of one instant differ as texts and read as the same time. */
  lemma FormatsReadAlike(t: Civil)
    requires IsDateTime(t) && t.year <= 9999 && t.nanos == 0
    ensures FormatSeconds(t) != FormatTs(t)
    ensures ParseTs(FormatSeconds(t)) == ParseTs(FormatTs(t)) == Some(t)
  {
    TimestampsReadBack(t);
    assert |FormatTs(t)| > |FormatSeconds(t)|;
  }
}
