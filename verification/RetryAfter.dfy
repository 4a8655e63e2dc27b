/** The `Retry-After` header: delay-seconds, or an IMF-fixdate (section 5.6.7 of RFC 9110). */
module RetryAfter {
  import opened Wrappers
  import opened CivilDate

  const NANOS_PER_SEC := 1_000_000_000
  const I64_MAX := 0x7FFF_FFFF_FFFF_FFFF
  const U64_MAX := 0xFFFF_FFFF_FFFF_FFFF

  // ----- the parser

  /** `str::is_char_boundary`: the byte is not in the middle of a UTF-8 sequence. */
  predicate IsCharBoundary(s: Bytes, i: nat) {
    i == 0 || i == |s| || (i < |s| && !(0x80 <= s[i] as int < 0xC0))
  }

  /** `str::get` on a range: `None` when it is out of bounds or splits a character. */
  function Get(s: Bytes, lo: nat, hi: nat): Option<Bytes> {
    if lo <= hi <= |s| && IsCharBoundary(s, lo) && IsCharBoundary(s, hi) then Some(s[lo..hi]) else None
  }

  predicate AllDigits(s: Bytes) {
    forall i :: 0 <= i < |s| ==> IsDigit(s[i])
  }

  function DigitOf(b: byte): (d: nat)
    requires IsDigit(b)
    ensures d < 10 && Digit(d) == b
  {
    b as int - '0' as int
  }

  function Value(s: Bytes): nat
    requires AllDigits(s)
  {
    if s == [] then 0 else Value(s[..|s| - 1]) * 10 + DigitOf(s[|s| - 1])
  }

  /** Digits only, and a number that fits an `i64`; the empty string does not parse. */
  function Num(s: Bytes): Option<nat> {
    if AllDigits(s) && s != [] && Value(s) <= I64_MAX then Some(Value(s)) else None
  }

  function MonthNumber(s: Bytes): Option<nat> {
    if s == "Jan" then Some(1)
    else if s == "Feb" then Some(2)
    else if s == "Mar" then Some(3)
    else if s == "Apr" then Some(4)
    else if s == "May" then Some(5)
    else if s == "Jun" then Some(6)
    else if s == "Jul" then Some(7)
    else if s == "Aug" then Some(8)
    else if s == "Sep" then Some(9)
    else if s == "Oct" then Some(10)
    else if s == "Nov" then Some(11)
    else if s == "Dec" then Some(12)
    else None
  }

  function NumAt(s: Bytes, lo: nat, hi: nat): Option<nat> {
    var text :- Get(s, lo, hi);
    Num(text)
  }

  datatype Civil = Civil(day: nat, month: nat, year: nat)
  datatype Time = Time(hour: nat, min: nat, sec: nat)

  /** The date of `06 Nov 1994 08:49:37 GMT`; separators are skipped without a look. */
  function CivilPart(rest: Bytes): Option<Civil> {
    var day :- NumAt(rest, 0, 2);
    var text :- Get(rest, 3, 6);
    var month :- MonthNumber(text);
    var year :- NumAt(rest, 7, 11);
    Some(Civil(day, month, year))
  }

  function TimePart(rest: Bytes): Option<Time> {
    var hour :- NumAt(rest, 12, 14);
    var min :- NumAt(rest, 15, 17);
    var sec :- NumAt(rest, 18, 20);
    Some(Time(hour, min, sec))
  }

  predicate TimesAndDayInRange(c: Civil, t: Time) {
    !(t.hour > 23 || t.min > 59 || t.sec > 60 || c.day == 0 || c.day > 31)
  }

  /** 86_400 seconds per day of the formula, plus the time of day. */
  function Seconds(c: Civil, t: Time): int {
    DaysFromCivil(c.year, c.month, c.day) * 86_400 + t.hour * 3600 + t.min * 60 + t.sec
  }

  /** Seconds since the epoch of an accepted date. Slicing is only ever done after the length and
      boundary checks that keep it in range. */
  function HttpDate(s: Bytes): Option<nat> {
    if |s| != 29 || !IsCharBoundary(s, 5) then None else
    var weekday, rest := s[..5], s[5..];
    if weekday[3..] != ", " || rest[20..] != " GMT" then None else
    var civil :- CivilPart(rest);
    var time :- TimePart(rest);
    if !TimesAndDayInRange(civil, time) then None else
    var secs := Seconds(civil, time);
    if secs < 0 then None else Some(secs)
  }

  predicate IsVisibleAscii(b: byte) {
    ' ' <= b <= '~' || b == '\t'
  }

  predicate IsBlank(b: byte) {
    b == ' ' || b == '\t'
  }

  function TrimStart(s: Bytes): Bytes {
    if s != [] && IsBlank(s[0]) then TrimStart(s[1..]) else s
  }

  function TrimEnd(s: Bytes): Bytes {
    if s != [] && IsBlank(s[|s| - 1]) then TrimEnd(s[..|s| - 1]) else s
  }

  /** `u64::from_str`: an optional plus sign and at least one digit, no overflow. */
  function ParseU64(s: Bytes): Option<nat> {
    var digits := if s != [] && s[0] == '+' then s[1..] else s;
    if digits != [] && AllDigits(digits) && Value(digits) <= U64_MAX then Some(Value(digits)) else None
  }

  /** How many nanoseconds to wait, for a wall clock that reads `now` nanoseconds. */
  function Parse(header: Option<Bytes>, now: nat): Option<nat> {
    var raw :- header;
    if exists i :: 0 <= i < |raw| && !IsVisibleAscii(raw[i]) then None else
    var value := TrimEnd(TrimStart(raw));
    var secs := ParseU64(value);
    if secs.Some? then Some(secs.value * NANOS_PER_SEC) else TimeUntil(HttpDate(value), now)
  }

  /** `SystemTime::duration_since`, which fails for a time already passed. */
  function TimeUntil(date: Option<nat>, now: nat): Option<nat> {
    var secs :- date;
    if secs * NANOS_PER_SEC < now then None else Some(secs * NANOS_PER_SEC - now)
  }

  // ----- printing

  const MONTHS: seq<Bytes> :=
    ["Jan", "Feb", "Mar", "Apr", "May", "Jun", "Jul", "Aug", "Sep", "Oct", "Nov", "Dec"]
  const WEEKDAYS: seq<Bytes> := ["Sun", "Mon", "Tue", "Wed", "Thu", "Fri", "Sat"]

  function TwoDigits(n: nat): (s: Bytes)
    requires n < 100
    ensures |s| == 2
  {
    [Digit(n / 10), Digit(n % 10)]
  }

  function FourDigits(n: nat): (s: Bytes)
    requires n < 10_000
    ensures |s| == 4
  {
    [Digit(n / 1000), Digit(n / 100 % 10), Digit(n / 10 % 10), Digit(n % 10)]
  }

  function Decimal(n: nat): (s: Bytes)
    ensures s != [] && AllDigits(s) && Value(s) == n
  {
    if n < 10 then
      assert Value([Digit(n)][..0]) == 0;
      [Digit(n)]
    else
      var s := Decimal(n / 10) + [Digit(n % 10)];
      assert s[..|s| - 1] == Decimal(n / 10);
      s
  }

  /** A date as the parser sees it: the weekday and the separators may be any bytes that do not
      continue a UTF-8 character. */
  datatype Printed = Printed(weekday: Bytes, separators: Bytes, civil: Civil, time: Time)

  predicate InRange(p: Printed) {
    && |p.weekday| == 3 && |p.separators| == 5
    && (forall i :: 0 <= i < 5 ==> !(0x80 <= p.separators[i] as int < 0xC0))
    && 1 <= p.civil.month <= 12 && p.civil.year < 10_000
    && p.time.hour <= 23 && p.time.min <= 59 && p.time.sec <= 60 && 1 <= p.civil.day <= 31
  }

  function PrintCivil(p: Printed): (s: Bytes)
    requires InRange(p)
    ensures |s| == 12
  {
    TwoDigits(p.civil.day) + [p.separators[0]] + MONTHS[p.civil.month - 1] + [p.separators[1]]
    + FourDigits(p.civil.year) + [p.separators[2]]
  }

  function PrintTime(p: Printed): (s: Bytes)
    requires InRange(p)
    ensures |s| == 12
  {
    TwoDigits(p.time.hour) + [p.separators[3]] + TwoDigits(p.time.min) + [p.separators[4]]
    + TwoDigits(p.time.sec) + " GMT"
  }

  function Print(p: Printed): (s: Bytes)
    requires InRange(p)
    ensures |s| == 29
  {
    p.weekday + ", " + (PrintCivil(p) + PrintTime(p))
  }

  /** The second `secs` as section 5.6.7 of RFC 9110 writes it, its date found by walking the
      calendar. */
  function ImfFixdate(secs: nat): (p: Printed)
    requires secs < 2_932_897 * 86_400
    ensures InRange(p)
  {
    var n, t := secs / 86_400, secs % 86_400;
    FourDigitYears(n);
    var d := DateOfDay(n);
    Printed(WEEKDAYS[(n + 4) % 7], "   ::", Civil(d.day, d.month, d.year), Time(t / 3600, t / 60 % 60, t % 60))
  }

  // ----- properties

  lemma TwoDigitsParse(n: nat)
    requires n < 100
    ensures Num(TwoDigits(n)) == Some(n)
  {
    var s := TwoDigits(n);
    assert s[..1] == [Digit(n / 10)] && s[..1][..0] == [];
    assert Value(s[..1]) == n / 10;
  }

  lemma FourDigitsParse(n: nat)
    requires n < 10_000
    ensures Num(FourDigits(n)) == Some(n)
  {
    hide Value, Digit;
    FourDigitsValue(Digit(n / 1000), Digit(n / 100 % 10), Digit(n / 10 % 10), Digit(n % 10));
    DigitsOfNumber(n);
  }

  lemma DigitsOfNumber(n: nat)
    ensures 10 * (10 * (10 * (n / 1000) + n / 100 % 10) + n / 10 % 10) + n % 10 == n
  {
    assert 10 * (n / 1000) + n / 100 % 10 == n / 100;
    assert 10 * (n / 100) + n / 10 % 10 == n / 10;
  }

  lemma FourDigitsValue(a: byte, b: byte, c: byte, d: byte)
    requires IsDigit(a) && IsDigit(b) && IsDigit(c) && IsDigit(d)
    ensures Value([a, b, c, d]) == 10 * (10 * (10 * DigitOf(a) + DigitOf(b)) + DigitOf(c)) + DigitOf(d)
  {
    var s: Bytes := [a, b, c, d];
    assert s[..3][..2] == s[..2] && s[..2][..1] == s[..1] && s[..1][..0] == [];
    assert Value(s[..1]) == DigitOf(a);
    assert Value(s[..2]) == 10 * DigitOf(a) + DigitOf(b);
    assert Value(s[..3]) == 10 * (10 * DigitOf(a) + DigitOf(b)) + DigitOf(c);
  }

  lemma TwoDigitsPrint(s: Bytes)
    requires |s| == 2 && Num(s).Some?
    ensures Num(s).value < 100 && TwoDigits(Num(s).value) == s
  {
    assert IsDigit(s[0]) && IsDigit(s[1]);
    assert s[..1][..0] == [] && s[..1][0] == s[0];
    assert Value(s[..1]) == s[0] as int - '0' as int;
  }

  lemma FourDigitsPrint(s: Bytes)
    requires |s| == 4 && Num(s).Some?
    ensures Num(s).value < 10_000 && FourDigits(Num(s).value) == s
  {
    assert IsDigit(s[0]) && IsDigit(s[1]) && IsDigit(s[2]) && IsDigit(s[3]);
    assert s == [s[0], s[1], s[2], s[3]];
    FourDigitsValue(s[0], s[1], s[2], s[3]);
    FourDigitsOf(DigitOf(s[0]), DigitOf(s[1]), DigitOf(s[2]), DigitOf(s[3]));
  }

  lemma FourDigitsOf(a: nat, b: nat, c: nat, d: nat)
    requires a < 10 && b < 10 && c < 10 && d < 10
    ensures 1000 * a + 100 * b + 10 * c + d < 10_000
    ensures FourDigits(1000 * a + 100 * b + 10 * c + d) == [Digit(a), Digit(b), Digit(c), Digit(d)]
  {
    var n := 1000 * a + 100 * b + 10 * c + d;
    assert n / 10 == 100 * a + 10 * b + c && n % 10 == d;
    assert n / 100 == 10 * a + b && n / 1000 == a;
  }

  lemma MonthNumberInverts(m: nat)
    requires 1 <= m <= 12
    ensures MonthNumber(MONTHS[m - 1]) == Some(m)
  {
  }

  lemma CivilPartOfPrinted(p: Printed)
    requires InRange(p)
    ensures CivilPart(PrintCivil(p) + PrintTime(p)) == Some(p.civil)
  {
    var c := PrintCivil(p);
    var rest := c + PrintTime(p);
    assert c[0..2] == TwoDigits(p.civil.day) == rest[0..2];
    assert c[3..6] == MONTHS[p.civil.month - 1] == rest[3..6];
    assert c[7..11] == FourDigits(p.civil.year) == rest[7..11];
    assert c[2] == p.separators[0] && c[6] == p.separators[1] && c[11] == p.separators[2];
    TwoDigitsParse(p.civil.day);
    FourDigitsParse(p.civil.year);
    MonthNumberInverts(p.civil.month);
    assert IsDigit(rest[7]);
  }

  lemma TimePartOfPrinted(p: Printed)
    requires InRange(p)
    ensures TimePart(PrintCivil(p) + PrintTime(p)) == Some(p.time)
  {
    var t := PrintTime(p);
    var rest := PrintCivil(p) + t;
    assert t[0..2] == TwoDigits(p.time.hour) == rest[12..14];
    assert t[3..5] == TwoDigits(p.time.min) == rest[15..17];
    assert t[6..8] == TwoDigits(p.time.sec) == rest[18..20];
    assert t[2] == p.separators[3] && t[5] == p.separators[4] && t[8] == ' ';
    TwoDigitsParse(p.time.hour);
    TwoDigitsParse(p.time.min);
    TwoDigitsParse(p.time.sec);
    assert IsDigit(rest[12]) && IsDigit(rest[15]) && IsDigit(rest[18]);
  }

  /** Whatever the weekday and the separators, the parser reads back the printed fields; the only
      reason left to refuse is a moment before the epoch. */
  lemma ParserReadsPrintedFields(p: Printed)
    requires InRange(p)
    ensures var secs := Seconds(p.civil, p.time);
            HttpDate(Print(p)) == if secs < 0 then None else Some(secs)
  {
    var s, rest := Print(p), PrintCivil(p) + PrintTime(p);
    assert s[..5] == p.weekday + ", " && s[5..] == rest;
    assert IsDigit(PrintCivil(p)[0]) && s[5] == PrintCivil(p)[0];
    assert rest[20..] == PrintTime(p)[8..] == " GMT";
    CivilPartOfPrinted(p);
    TimePartOfPrinted(p);
  }

  lemma CivilPartPrints(rest: Bytes, p: Printed)
    requires InRange(p) && |rest| == 24
    requires CivilPart(rest) == Some(p.civil)
    requires p.separators[..3] == [rest[2], rest[6], rest[11]]
    ensures PrintCivil(p) == rest[..12]
  {
    TwoDigitsPrint(rest[0..2]);
    FourDigitsPrint(rest[7..11]);
    assert rest[3..6] == MONTHS[p.civil.month - 1];
    assert p.separators[0] == p.separators[..3][0];
    assert p.separators[1] == p.separators[..3][1];
    assert p.separators[2] == p.separators[..3][2];
    assert rest[..12] == rest[0..2] + [rest[2]] + rest[3..6] + [rest[6]] + rest[7..11] + [rest[11]];
  }

  lemma TimePartPrints(rest: Bytes, p: Printed)
    requires InRange(p) && |rest| == 24
    requires TimePart(rest) == Some(p.time) && rest[20..] == " GMT"
    requires p.separators[3..] == [rest[14], rest[17]]
    ensures PrintTime(p) == rest[12..]
  {
    TwoDigitsPrint(rest[12..14]);
    TwoDigitsPrint(rest[15..17]);
    TwoDigitsPrint(rest[18..20]);
    assert p.separators[3] == p.separators[3..][0];
    assert p.separators[4] == p.separators[3..][1];
    assert rest[12..] == rest[12..14] + [rest[14]] + rest[15..17] + [rest[17]] + rest[18..20] + rest[20..];
  }

  lemma AcceptedShape(s: Bytes)
    requires HttpDate(s).Some?
    ensures |s| == 29 && s[3..5] == ", " && s[25..] == " GMT"
    ensures CivilPart(s[5..]).Some? && TimePart(s[5..]).Some?
    ensures var (c, t) := (CivilPart(s[5..]).value, TimePart(s[5..]).value);
            TimesAndDayInRange(c, t) && Seconds(c, t) == HttpDate(s).value
  {
    assert s[..5][3..] == s[3..5] && s[5..][20..] == s[25..];
  }

  lemma PartsInRange(rest: Bytes)
    requires |rest| == 24 && CivilPart(rest).Some? && TimePart(rest).Some?
    ensures 1 <= CivilPart(rest).value.month <= 12 && CivilPart(rest).value.year < 10_000
    ensures forall i :: i in {2, 6, 11, 14, 17} ==> IsCharBoundary(rest, i)
  {
    FourDigitsPrint(rest[7..11]);
  }

  /** Every accepted string is a printed date with all fields in range, and its value is 86_400
      times the day number plus the time of day. */
  lemma AcceptedIsPrinted(s: Bytes) returns (p: Printed)
    requires HttpDate(s).Some?
    ensures InRange(p) && Print(p) == s && Seconds(p.civil, p.time) == HttpDate(s).value
  {
    AcceptedShape(s);
    var rest := s[5..];
    PartsInRange(rest);
    var separators: Bytes := [rest[2], rest[6], rest[11], rest[14], rest[17]];
    p := Printed(s[..3], separators, CivilPart(rest).value, TimePart(rest).value);
    CivilPartPrints(rest, p);
    assert rest[20..] == s[25..];
    TimePartPrints(rest, p);
    assert s == s[..3] + s[3..5] + (rest[..12] + rest[12..]);
  }

  lemma SecondsOfDayAndTime(d: Date, n: nat, t: nat)
    requires Days(d) == n && t < 86_400
    requires 1 <= d.month && 1 <= d.day && 0 <= d.year
    ensures Seconds(Civil(d.day, d.month, d.year), Time(t / 3600, t / 60 % 60, t % 60)) == n * 86_400 + t
  {
    assert t / 3600 == t / 60 / 60;
  }

  lemma ImfFixdateKeepsSeconds(secs: nat)
    requires secs < 2_932_897 * 86_400
    ensures var p := ImfFixdate(secs); Seconds(p.civil, p.time) == secs
  {
    var n := secs / 86_400;
    DaysInvertsWalking(n);
    FourDigitYears(n);
    SecondsOfDayAndTime(DateOfDay(n), n, secs % 86_400);
  }

  /** Printing any second of the years 1970 to 9999 as an IMF-fixdate and parsing it back. */
  lemma DateRoundTrip(secs: nat)
    requires secs < 2_932_897 * 86_400
    ensures HttpDate(Print(ImfFixdate(secs))) == Some(secs)
  {
    ImfFixdateKeepsSeconds(secs);
    ParserReadsPrintedFields(ImfFixdate(secs));
  }

  // ----- the header as a whole

  predicate AllBlank(s: Bytes) {
    forall b :: b in s ==> b == ' ' || b == '\t'
  }

  /** Digits, with or without a plus sign and whatever blanks surround them, mean that many seconds; nothing if
      the number does not fit a `u64`. */
  lemma DelaySecondsExactly(text: Bytes, signed: bool, now: nat, before: Bytes, after: Bytes)
    requires text != [] && AllDigits(text) && AllBlank(before) && AllBlank(after)
    ensures Parse(Some(before + (if signed then ['+'] + text else text) + after), now)
            == if Value(text) <= 0xFFFF_FFFF_FFFF_FFFF then Some(Value(text) * 1_000_000_000) else None
  {
    hide HttpDate, Value, TrimStart, TrimEnd;
    var value := if signed then ['+'] + text else text;
    assert IsDigit(text[0]) && IsDigit(text[|text| - 1]);
    assert value[0] == '+' || IsDigit(value[0]);
    assert value[|value| - 1] == text[|text| - 1];
    assert signed ==> value[1..] == text;
    TrimBlanks(before, value, after);
    NumberIsNoDate(value);
    NumberIsVisible(before, value, after);
  }

  lemma NumberIsVisible(before: Bytes, value: Bytes, after: Bytes)
    requires AllBlank(before) && AllBlank(after) && forall b :: b in value ==> IsDigit(b) || b == '+'
    ensures var raw := before + value + after; forall i :: 0 <= i < |raw| ==> IsVisibleAscii(raw[i])
  {
    var raw := before + value + after;
    forall i | 0 <= i < |raw| ensures IsVisibleAscii(raw[i]) {
      assert raw[i] in before || raw[i] in value || raw[i] in after;
    }
  }

  lemma NumberIsNoDate(value: Bytes)
    requires forall b :: b in value ==> IsDigit(b) || b == '+'
    ensures HttpDate(value) == None
  {
    hide CivilPart, TimePart;
    if |value| == 29 {
      assert value[..5][3..][0] == value[3] && value[3] in value;
    }
  }

  /** Printing a number of seconds and parsing it back. */
  lemma DelaySecondsRoundTrip(secs: nat, now: nat, before: Bytes, after: Bytes)
    requires secs <= U64_MAX && AllBlank(before) && AllBlank(after)
    ensures Parse(Some(before + Decimal(secs) + after), now) == Some(secs * NANOS_PER_SEC)
  {
    DelaySecondsExactly(Decimal(secs), false, now, before, after);
  }

  /** Taking blanks off both ends takes nothing else. */
  lemma TrimParts(s: Bytes) returns (before: Bytes, after: Bytes)
    ensures AllBlank(before) && AllBlank(after) && s == before + TrimEnd(TrimStart(s)) + after
  {
    before := TrimmedStart(s);
    after := TrimmedEnd(TrimStart(s));
  }

  lemma {:induction false} TrimmedStart(s: Bytes) returns (before: Bytes)
    ensures AllBlank(before) && s == before + TrimStart(s)
  {
    if s != [] && IsBlank(s[0]) {
      before := TrimmedStart(s[1..]);
      assert s == [s[0]] + s[1..];
      before := [s[0]] + before;
    } else {
      before := [];
    }
  }

  lemma {:induction false} TrimmedEnd(s: Bytes) returns (after: Bytes)
    ensures AllBlank(after) && s == TrimEnd(s) + after
  {
    if s != [] && IsBlank(s[|s| - 1]) {
      after := TrimmedEnd(s[..|s| - 1]);
      assert s == s[..|s| - 1] + [s[|s| - 1]];
      after := after + [s[|s| - 1]];
    } else {
      after := [];
    }
  }

  /** What an accepted header holds: blanks around a number of seconds that is returned, or around a printed
      date, not yet passed, up to which the time is returned. */
  lemma AcceptedHeader(header: Option<Bytes>, now: nat)
    returns (before: Bytes, text: Bytes, after: Bytes, digits: Bytes, date: Option<Printed>)
    requires Parse(header, now).Some?
    ensures header == Some(before + text + after) && AllBlank(before) && AllBlank(after)
    ensures forall b :: b in header.value ==> b == '\t' || ' ' <= b <= '~'
    ensures date.None? ==>
              && (text == digits || text == ['+'] + digits) && digits != [] && AllDigits(digits)
              && Value(digits) <= 0xFFFF_FFFF_FFFF_FFFF && Parse(header, now) == Some(Value(digits) * 1_000_000_000)
    ensures date.Some? ==>
              && InRange(date.value) && text == Print(date.value)
              && var at := Seconds(date.value.civil, date.value.time) * 1_000_000_000;
                 at >= now && Parse(header, now) == Some(at - now)
  {
    hide HttpDate, Value, Seconds, TrimStart, TrimEnd;
    var raw := header.value;
    before, after := TrimParts(raw);
    text := TrimEnd(TrimStart(raw));
    digits := if text != [] && text[0] == '+' then text[1..] else text;
    date := None;
    forall b | b in raw ensures b == '\t' || ' ' <= b <= '~' {
      var i :| 0 <= i < |raw| && raw[i] == b;
      assert IsVisibleAscii(raw[i]);
    }
    if ParseU64(text).None? {
      var p := AcceptedIsPrinted(text);
      date := Some(p);
    } else {
      assert text == digits || text == ['+'] + digits;
    }
  }

  lemma LessIsBlank(s: Bytes, lo: nat, hi: nat)
    requires AllBlank(s) && lo <= hi <= |s|
    ensures AllBlank(s[lo..hi])
  {
    assert forall b :: b in s[lo..hi] ==> b in s;
  }

  lemma {:induction false} TrimBlanks(before: Bytes, text: Bytes, after: Bytes)
    requires AllBlank(before) && AllBlank(after)
    requires text != [] && !IsBlank(text[0]) && !IsBlank(text[|text| - 1])
    ensures TrimEnd(TrimStart(before + text + after)) == text
    decreases |before| + |after|
  {
    var s := before + text + after;
    if before != [] {
      assert s[0] == before[0] && before[0] in before;
      assert s[1..] == before[1..] + text + after && before[1..|before|] == before[1..];
      LessIsBlank(before, 1, |before|);
      TrimBlanks(before[1..], text, after);
    } else if after != [] {
      var last := after[|after| - 1];
      assert s[|s| - 1] == last && last in after;
      assert s[..|s| - 1] == before + text + after[..|after| - 1] && after[0..|after| - 1] == after[..|after| - 1];
      LessIsBlank(after, 0, |after| - 1);
      TrimBlanks(before, text, after[..|after| - 1]);
    } else {
      assert s == text;
    }
  }

  /** Any visible text that is no number is taken for a date. */
  lemma DateTextIsDate(s: Bytes, now: nat)
    requires s != [] && s[0] !in [' ', '\t'] && s[|s| - 1] !in [' ', '\t'] && ParseU64(s).None?
    requires forall b :: b in s ==> b == '\t' || ' ' <= b <= '~'
    ensures Parse(Some(s), now) == TimeUntil(HttpDate(s), now)
  {
    hide HttpDate, TimeUntil;
    assert TrimStart(s) == s && TrimEnd(s) == s;
    assert forall i :: 0 <= i < |s| ==> s[i] in s;
  }

  predicate WrittenAsImf(p: Printed) {
    InRange(p) && p.weekday in WEEKDAYS && p.separators == "   ::"
  }

  lemma PrintedEnds(p: Printed)
    requires WrittenAsImf(p)
    ensures 'A' <= Print(p)[0] <= 'Z' && Print(p)[28] == 'T'
  {
    assert PrintTime(p)[11] == 'T';
    assert Print(p)[0] == p.weekday[0];
  }

  lemma PrintedIsVisible(p: Printed)
    requires WrittenAsImf(p)
    ensures forall i :: 0 <= i < 29 ==> IsVisibleAscii(Print(p)[i])
  {
    var c, t := PrintCivil(p), PrintTime(p);
    assert forall i :: 0 <= i < 12 ==> IsVisibleAscii(c[i]);
    assert forall i :: 0 <= i < 12 ==> IsVisibleAscii(t[i]);
  }

  lemma PrintedHeader(p: Printed, now: nat)
    requires WrittenAsImf(p)
    ensures Parse(Some(Print(p)), now) == TimeUntil(HttpDate(Print(p)), now)
  {
    PrintedIsVisible(p);
    PrintedEnds(p);
    DateTextIsDate(Print(p), now);
  }

  /** A printed date means the time left until it, and nothing once it has passed. */
  lemma DateHeaderRoundTrip(secs: nat, now: nat)
    requires secs < 2_932_897 * 86_400
    ensures Parse(Some(Print(ImfFixdate(secs))), now)
            == if secs * 1_000_000_000 < now then None else Some(secs * 1_000_000_000 - now)
  {
    hide Parse, HttpDate, Print, DateOfDay, TimeUntil;
    assert WrittenAsImf(ImfFixdate(secs));
    PrintedHeader(ImfFixdate(secs), now);
    DateRoundTrip(secs);
    TimeLeft(secs, now);
  }

  lemma TimeLeft(secs: nat, now: nat)
    ensures TimeUntil(Some(secs), now)
            == if secs * 1_000_000_000 < now then None else Some(secs * 1_000_000_000 - now)
  {
  }

  // ----- an example

  const EXAMPLE: Bytes := "Sun, 06 Nov 1994 08:49:37 GMT"

  const EXAMPLE_DATE := Printed("Sun", "   ::", Civil(6, 11, 1994), Time(8, 49, 37))

  /** The example of the RFC, read and written. */
  lemma ExampleDate()
    ensures HttpDate(EXAMPLE) == Some(784_111_777)
    ensures Print(ImfFixdate(784_111_777)) == EXAMPLE
  {
    hide HttpDate, Print, Seconds, ImfFixdate;
    ExamplePrinted(EXAMPLE_DATE);
    ExampleSeconds();
    ParserReadsPrintedFields(EXAMPLE_DATE);
    ExampleFixdate();
  }

  lemma ExampleDay()
    ensures DaysFromCivil(1994, 11, 6) == 9075 && DateOfDay(9075) == Date(1994, 11, 6)
  {
    hide DaysFromCivil, DateOfDay;
    DaysByMarchYear(1994, 11, 6);
    DaysInvertsWalking(9075);
    DaysOrderEmbedding(DateOfDay(9075), Date(1994, 11, 6));
  }

  lemma ExampleSeconds()
    ensures Seconds(EXAMPLE_DATE.civil, EXAMPLE_DATE.time) == 784_111_777
  {
    hide DaysFromCivil;
    ExampleDay();
  }

  lemma ExampleFixdate()
    ensures ImfFixdate(784_111_777) == EXAMPLE_DATE
  {
    hide DateOfDay, Days, DaysFromCivil, Seconds, InRange;
    ExampleDay();
    FixdateParts(784_111_777, 9075, 31_777);
    assert WEEKDAYS[9079 % 7] == "Sun";
  }

  lemma FixdateParts(secs: nat, n: nat, t: nat)
    requires secs == n * 86_400 + t && t < 86_400 && secs < 2_932_897 * 86_400
    ensures var d := DateOfDay(n);
            d.day >= 0 && d.month >= 0 && d.year >= 0 &&
            ImfFixdate(secs)
            == Printed(WEEKDAYS[(n + 4) % 7], "   ::", Civil(d.day, d.month, d.year), Time(t / 3600, t / 60 % 60, t % 60))
  {
    hide DateOfDay;
    FourDigitYears(n);
    assert secs / 86_400 == n && secs % 86_400 == t;
  }

  lemma ExamplePrinted(p: Printed)
    requires p == EXAMPLE_DATE
    ensures InRange(p) && Print(p) == EXAMPLE
  {
    hide PrintCivil, PrintTime;
    ExamplePrintedDay(p);
    ExamplePrintedTime(p);
  }

  lemma ExamplePrintedDay(p: Printed)
    requires p == EXAMPLE_DATE
    ensures InRange(p) && PrintCivil(p) == "06 Nov 1994 "
  {
  }

  lemma ExamplePrintedTime(p: Printed)
    requires p == EXAMPLE_DATE
    ensures InRange(p) && PrintTime(p) == "08:49:37 GMT"
  {
  }
}
