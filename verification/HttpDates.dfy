/** HTTP dates in their three forms: the parser of support-runtime/src/retry.rs, and what it accepts. */
module HttpDates {
  import opened Sequences
  import opened Arithmetic
  import opened Calendar

  const SECONDS_PER_DAY := 86_400

  const SHORT_DAYS := ["Mon", "Tue", "Wed", "Thu", "Fri", "Sat", "Sun"]
  const LONG_DAYS := ["Monday", "Tuesday", "Wednesday", "Thursday", "Friday", "Saturday", "Sunday"]
  const MONTHS := ["Jan", "Feb", "Mar", "Apr", "May", "Jun", "Jul", "Aug", "Sep", "Oct", "Nov", "Dec"]

  predicate IsDigit(c: char) {
    '0' <= c <= '9'
  }

  predicate AllDigits(s: string) {
    forall i :: 0 <= i < |s| ==> IsDigit(s[i])
  }

  function DecimalValue(s: string): nat
    requires AllDigits(s)
  {
    if s == [] then 0 else 10 * DecimalValue(s[..|s| - 1]) + (s[|s| - 1] - '0') as nat
  }

  /** `text` as a decimal number, when it is exactly `len` digits, at least one. */
  function Digits(text: string, len: nat): Option<nat> {
    if |text| == len && AllDigits(text) && text != [] then Some(DecimalValue(text)) else None
  }

  function IndexOf(name: string, names: seq<string>): (index: Option<nat>)
    ensures index.Some? ==> index.value < |names| && names[index.value] == name
    ensures index.None? ==> name !in names
  {
    if names == [] then None
    else if names[0] == name then Some(0)
    else
      var rest := IndexOf(name, names[1..]);
      if rest.Some? then Some(rest.value + 1) else None
  }

  /** The 1-based month a three-letter name names. */
  function MonthNumber(name: string): Option<nat> {
    var index :- IndexOf(name, MONTHS);
    Some(index + 1)
  }

  /** `s` before and after the first ", ". */
  function SplitOnce(s: string): (parts: Option<(string, string)>)
    ensures parts.Some? ==> s == parts.value.0 + ", " + parts.value.1
  {
    if |s| < 2 then None
    else if s[0] == ',' && s[1] == ' ' then Some(([], s[2..]))
    else
      var parts :- SplitOnce(s[1..]);
      Some(([s[0]] + parts.0, parts.1))
  }

  function TrimStart(s: string): string {
    if s != [] && s[0] in " \t\n\r" + [11 as char, 12 as char] then TrimStart(s[1..]) else s
  }

  /** What a date text spells, its year as written. */
  datatype Written = Written(year: nat, month: nat, day: nat, hour: nat, minute: nat, second: nat)

  /** The year ending in `short` that a two-digit year means in the year `current`. */
  function PlaceYear(current: int, short: nat): int {
    var year := current - current % 100 + short;
    if year > current + 50 then year - 100 else year
  }

  function CurrentYear(now: int): int {
    YearOfDay(now / SECONDS_PER_DAY)
  }

  function ParseClock(time: string): Option<(nat, nat, nat)> {
    var fields := SplitOn(time, ':');
    if |fields| != 3 then None
    else
      var hour :- Digits(fields[0], 2);
      var minute :- Digits(fields[1], 2);
      var second :- Digits(fields[2], 2);
      Some((hour, minute, second))
  }

  /** `06 Nov 1994 08:49:37 GMT` */
  function ParseImf(rest: string): Option<Written> {
    var fields := SplitOn(rest, ' ');
    if |fields| != 5 || fields[4] != "GMT" then None
    else
      var day :- Digits(fields[0], 2);
      var month :- MonthNumber(fields[1]);
      var year :- Digits(fields[2], 4);
      var clock :- ParseClock(fields[3]);
      Some(Written(year, month, day, clock.0, clock.1, clock.2))
  }

  /** `06-Nov-94`, as day, month and two-digit year. */
  function ParseDashed(text: string): Option<(nat, nat, nat)> {
    var date := SplitOn(text, '-');
    if |date| != 3 then None
    else
      var day :- Digits(date[0], 2);
      var month :- MonthNumber(date[1]);
      var year :- Digits(date[2], 2);
      Some((day, month, year))
  }

  /** `06-Nov-94 08:49:37 GMT` */
  function ParseRfc850(rest: string): Option<Written> {
    var fields := SplitOn(rest, ' ');
    if |fields| != 3 || fields[2] != "GMT" then None
    else
      var date :- ParseDashed(fields[0]);
      var clock :- ParseClock(fields[1]);
      Some(Written(date.2, date.1, date.0, clock.0, clock.1, clock.2))
  }

  /** `Nov  6 08:49:37 1994`, after the day name, in its fixed columns. */
  function ParseAsctime(value: string): Option<Written> {
    if |value| != 24 || value[3] != ' ' || value[7] != ' ' || value[10] != ' ' || value[19] != ' ' then None
    else
      var month :- MonthNumber(value[4..7]);
      var padded := value[8..10];
      var day :- Digits(if padded[0] == ' ' then padded[1..] else padded, |TrimStart(padded)|);
      var year :- Digits(value[20..24], 4);
      var clock :- ParseClock(value[11..19]);
      Some(Written(year, month, day, clock.0, clock.1, clock.2))
  }

  predicate IsMoment(year: int, w: Written) {
    IsDate(year, w.month, w.day) && w.hour < 24 && w.minute < 60 && w.second <= 60
  }

  function SecondsAt(year: int, w: Written): int {
    DaysFromCivil(year, w.month, w.day) * SECONDS_PER_DAY + w.hour * 3600 + w.minute * 60 + w.second
  }

  function Checked(year: int, w: Written): Option<int> {
    if IsMoment(year, w) then Some(SecondsAt(year, w)) else None
  }

  /** An HTTP date as seconds since the epoch; `now`, in the same seconds, places a two-digit year. */
  function ParseHttpDate(value: string, now: int): Option<int> {
    var split := SplitOnce(value);
    if split.Some? then
      var (name, rest) := split.value;
      if name in SHORT_DAYS then
        var w :- ParseImf(rest);
        Checked(w.year, w)
      else if name in LONG_DAYS then
        var w :- ParseRfc850(rest);
        Checked(PlaceYear(CurrentYear(now), w.year), w)
      else None
    else if |value| >= 3 && value[..3] in SHORT_DAYS then
      var w :- ParseAsctime(value);
      Checked(w.year, w)
    else None
  }

  // ----- The three forms, written out -----

  /** `n` in `len` digits, zero-padded. */
  function Pad(n: nat, len: nat): (text: string)
    ensures |text| == len && AllDigits(text)
  {
    if len == 0 then [] else Pad(n / 10, len - 1) + ['0' + (n % 10) as char]
  }

  function Power10(len: nat): nat {
    if len == 0 then 1 else 10 * Power10(len - 1)
  }

  lemma {:induction false} PadValue(n: nat, len: nat)
    requires n < Power10(len)
    ensures DecimalValue(Pad(n, len)) == n
  {
    if len > 0 {
      PadValue(n / 10, len - 1);
      var front := Pad(n / 10, len - 1);
      assert (front + ['0' + (n % 10) as char])[..len - 1] == front;
    }
  }

  lemma {:induction false} ValuePad(text: string)
    requires AllDigits(text)
    ensures DecimalValue(text) < Power10(|text|) && Pad(DecimalValue(text), |text|) == text
  {
    if text != [] {
      ValuePad(text[..|text| - 1]);
      var front, last := text[..|text| - 1], text[|text| - 1];
      assert text == front + [last];
      assert '0' + ((last - '0') as nat) as char == last;
    }
  }

  /** A number of `len` digits reads as itself, and only its own padded text does. */
  lemma DigitsExactly(text: string, len: nat, n: nat)
    requires len > 0
    ensures Digits(text, len) == Some(n) <==> text == Pad(n, len) && n < Power10(len)
  {
    if Digits(text, len) == Some(n) {
      ValuePad(text);
    }
    if n < Power10(len) {
      PadValue(n, len);
    }
  }

  /** The name of a month (section 5.6.7 of RFC 9110). */
  function MonthName(month: nat): string
    requires 1 <= month <= 12
  {
    match month
    case 1 => "Jan" case 2 => "Feb" case 3 => "Mar" case 4 => "Apr" case 5 => "May" case 6 => "Jun"
    case 7 => "Jul" case 8 => "Aug" case 9 => "Sep" case 10 => "Oct" case 11 => "Nov" case _ => "Dec"
  }

  predicate IsShortDay(name: string) {
    || name == "Mon" || name == "Tue" || name == "Wed" || name == "Thu" || name == "Fri" || name == "Sat" || name == "Sun"
  }

  predicate IsLongDay(name: string) {
    || name == "Monday" || name == "Tuesday" || name == "Wednesday" || name == "Thursday" || name == "Friday"
    || name == "Saturday" || name == "Sunday"
  }

  lemma MonthExactly(name: string, month: nat)
    ensures MonthNumber(name) == Some(month) <==> 1 <= month <= 12 && name == MonthName(month)
  {
    assert forall i :: 1 <= i <= 12 ==> MONTHS[i - 1] == MonthName(i);
    if 1 <= month <= 12 && name == MonthName(month) {
      MonthsDiffer();
      assert name in MONTHS;
    }
  }

  lemma MonthsDiffer()
    ensures forall i, j :: 0 <= i < j < 12 ==> MONTHS[i] != MONTHS[j]
  {
    assert forall i :: 0 <= i < 12 ==> |MONTHS[i]| == 3;
    var keys := seq(12, i requires 0 <= i < 12 => (MONTHS[i][0], MONTHS[i][1], MONTHS[i][2]));
    assert keys == [('J', 'a', 'n'), ('F', 'e', 'b'), ('M', 'a', 'r'), ('A', 'p', 'r'), ('M', 'a', 'y'), ('J', 'u', 'n'),
                    ('J', 'u', 'l'), ('A', 'u', 'g'), ('S', 'e', 'p'), ('O', 'c', 't'), ('N', 'o', 'v'), ('D', 'e', 'c')];
    forall i, j | 0 <= i < j < 12
      ensures MONTHS[i] != MONTHS[j]
    {
      assert keys[i] != keys[j];
    }
  }

  // ----- What each part accepts -----

  function Clock(w: Written): string {
    Pad(w.hour, 2) + ":" + Pad(w.minute, 2) + ":" + Pad(w.second, 2)
  }

  /** The numbers of `w` fit the digits they are written in. */
  predicate Fits(w: Written, years: nat) {
    && w.day < 100 && 1 <= w.month <= 12 && w.year < years
    && w.hour < 100 && w.minute < 100 && w.second < 100
  }

  lemma Powers()
    ensures Power10(1) == 10 && Power10(2) == 100 && Power10(4) == 10_000
  {
    assert Power10(3) == 1000;
  }

  lemma ClockExactly(time: string, w: Written)
    ensures ParseClock(time) == Some((w.hour, w.minute, w.second))
       <==> time == Clock(w) && w.hour < 100 && w.minute < 100 && w.second < 100
  {
    Powers();
    var fields := SplitOn(time, ':');
    JoinSplit(time, ':');
    if |fields| == 3 {
      JoinThree(fields[0], fields[1], fields[2], ':');
      assert fields == [fields[0], fields[1], fields[2]];
      DigitsExactly(fields[0], 2, w.hour);
      DigitsExactly(fields[1], 2, w.minute);
      DigitsExactly(fields[2], 2, w.second);
    }
    var parts := [Pad(w.hour, 2), Pad(w.minute, 2), Pad(w.second, 2)];
    if time == Clock(w) && w.hour < 100 && w.minute < 100 && w.second < 100 {
      JoinThree(parts[0], parts[1], parts[2], ':');
      SplitJoin(parts, ':');
    }
  }

  function ImfText(w: Written): string
    requires 1 <= w.month <= 12
  {
    Pad(w.day, 2) + " " + MonthName(w.month) + " " + Pad(w.year, 4) + " " + Clock(w) + " " + "GMT"
  }

  lemma MonthsHaveNo(c: char)
    requires c == ' ' || c == ',' || c == '-'
    ensures forall i :: 1 <= i <= 12 ==> c !in MonthName(i)
  {
  }

  lemma ClockHasNo(w: Written, c: char)
    requires !IsDigit(c) && c != ':'
    ensures c !in Clock(w)
  {
  }

  lemma ImfExactly(rest: string, w: Written)
    ensures ParseImf(rest) == Some(w) <==> Fits(w, 10_000) && rest == ImfText(w)
  {
    Powers();
    var fields := SplitOn(rest, ' ');
    JoinSplit(rest, ' ');
    if |fields| == 5 && fields[4] == "GMT" {
      assert fields == [fields[0], fields[1], fields[2], fields[3], fields[4]];
      JoinFive(fields[0], fields[1], fields[2], fields[3], fields[4], ' ');
      DigitsExactly(fields[0], 2, w.day);
      MonthExactly(fields[1], w.month);
      DigitsExactly(fields[2], 4, w.year);
      ClockExactly(fields[3], w);
    }
    if Fits(w, 10_000) && rest == ImfText(w) {
      var parts := [Pad(w.day, 2), MonthName(w.month), Pad(w.year, 4), Clock(w), "GMT"];
      MonthsHaveNo(' ');
      ClockHasNo(w, ' ');
      JoinFive(parts[0], parts[1], parts[2], parts[3], parts[4], ' ');
      SplitJoin(parts, ' ');
    }
  }

  function Dashed(w: Written): string
    requires 1 <= w.month <= 12
  {
    Pad(w.day, 2) + "-" + MonthName(w.month) + "-" + Pad(w.year, 2)
  }

  lemma DashedExactly(text: string, w: Written)
    ensures ParseDashed(text) == Some((w.day, w.month, w.year))
       <==> w.day < 100 && 1 <= w.month <= 12 && w.year < 100 && text == Dashed(w)
  {
    Powers();
    var date := SplitOn(text, '-');
    JoinSplit(text, '-');
    if |date| == 3 {
      assert date == [date[0], date[1], date[2]];
      JoinThree(date[0], date[1], date[2], '-');
      DigitsExactly(date[0], 2, w.day);
      MonthExactly(date[1], w.month);
      DigitsExactly(date[2], 2, w.year);
    }
    if w.day < 100 && 1 <= w.month <= 12 && w.year < 100 && text == Dashed(w) {
      var parts := [Pad(w.day, 2), MonthName(w.month), Pad(w.year, 2)];
      MonthsHaveNo('-');
      JoinThree(parts[0], parts[1], parts[2], '-');
      SplitJoin(parts, '-');
    }
  }

  function Rfc850Text(w: Written): string
    requires 1 <= w.month <= 12
  {
    Dashed(w) + " " + Clock(w) + " " + "GMT"
  }

  lemma Rfc850Exactly(rest: string, w: Written)
    ensures ParseRfc850(rest) == Some(w) <==> Fits(w, 100) && rest == Rfc850Text(w)
  {
    hide ParseDashed;
    hide ParseClock;
    var fields := SplitOn(rest, ' ');
    JoinSplit(rest, ' ');
    if |fields| == 3 && fields[2] == "GMT" {
      assert fields == [fields[0], fields[1], fields[2]];
      JoinThree(fields[0], fields[1], fields[2], ' ');
      DashedExactly(fields[0], w);
      ClockExactly(fields[1], w);
    }
    if Fits(w, 100) && rest == Rfc850Text(w) {
      MonthsHaveNo(' ');
      ClockHasNo(w, ' ');
      var parts := [Dashed(w), Clock(w), "GMT"];
      JoinThree(parts[0], parts[1], parts[2], ' ');
      SplitJoin(parts, ' ');
    }
  }

  /** The day of month, padded to two columns with a space or a zero. */
  function DayText(day: nat, spaced: bool): string {
    if spaced then " " + Pad(day, 1) else Pad(day, 2)
  }

  function AsctimeText(w: Written, spaced: bool): string
    requires 1 <= w.month <= 12
  {
    " " + MonthName(w.month) + " " + DayText(w.day, spaced) + " " + Clock(w) + " " + Pad(w.year, 4)
  }

  lemma DayExactly(padded: string, day: nat)
    requires |padded| == 2
    ensures Digits(if padded[0] == ' ' then padded[1..] else padded, |TrimStart(padded)|) == Some(day)
       <==> (padded == DayText(day, true) && day < 10) || (padded == DayText(day, false) && day < 100)
  {
    if padded[0] == ' ' {
      SpacedDayExactly(padded[1..], day);
      assert padded == " " + padded[1..];
      SpacesTrim(padded[1..]);
    } else {
      PlainDayExactly(padded, day);
      hide Digits, TrimStart, DayText;
    }
  }

  lemma PlainDayExactly(padded: string, day: nat)
    requires |padded| == 2 && padded[0] != ' '
    ensures Digits(padded, |TrimStart(padded)|) == Some(day) <==> padded == DayText(day, false) && day < 100
    ensures padded != DayText(day, true)
  {
    Powers();
    DigitsExactly(padded, 2, day);
    assert DayText(day, true)[0] == ' ';
    if AllDigits(padded) {
      assert IsDigit(padded[0]);
      assert TrimStart(padded) == padded;
    }
    hide TrimStart, Pad;
  }

  lemma SpacesTrim(rest: string)
    requires |rest| == 1
    ensures TrimStart(" " + rest) == TrimStart(rest) && (|TrimStart(rest)| == 1 || TrimStart(rest) == [])
    ensures TrimStart(rest) == [] ==> !AllDigits(rest)
  {
    assert (" " + rest)[1..] == rest && rest[1..] == [];
    assert AllDigits(rest) ==> IsDigit(rest[0]);
  }

  lemma SpacedDayExactly(text: string, day: nat)
    requires |text| == 1
    ensures Digits(text, 1) == Some(day) <==> " " + text == DayText(day, true) && day < 10
    ensures " " + text != DayText(day, false)
  {
    Powers();
    DigitsExactly(text, 1, day);
    hide Digits;
    assert (" " + text)[1..] == text && DayText(day, true)[1..] == Pad(day, 1);
    assert IsDigit(Pad(day, 2)[0]);
    assert (" " + text)[0] == ' ';
  }

  lemma AsctimeColumns(name: string, month: string, day: string, clock: string, year: string)
    requires |name| == 3 && |month| == 3 && |day| == 2 && |clock| == 8 && |year| == 4
    ensures var value := name + (" " + month + " " + day + " " + clock + " " + year);
            && |value| == 24 && value[..3] == name && value[4..7] == month && value[8..10] == day
            && value[11..19] == clock && value[20..24] == year
            && value[3] == value[7] == value[10] == value[19] == ' '
  {
  }

  lemma FromColumns(value: string)
    requires |value| == 24 && value[3] == value[7] == value[10] == value[19] == ' '
    ensures value == value[..3] + (" " + value[4..7] + " " + value[8..10] + " " + value[11..19] + " " + value[20..24])
  {
  }

  lemma AsctimeExactly(value: string, w: Written)
    requires |value| >= 3
    ensures ParseAsctime(value) == Some(w)
       <==> Fits(w, 10_000) && exists spaced :: (spaced ==> w.day < 10) && value == value[..3] + AsctimeText(w, spaced)
  {
    Powers();
    hide DecimalValue, Digits, ParseClock, MonthNumber, TrimStart;
    if ParseAsctime(value) == Some(w) {
      FromColumns(value);
      MonthExactly(value[4..7], w.month);
      DayExactly(value[8..10], w.day);
      DigitsExactly(value[20..24], 4, w.year);
      ClockExactly(value[11..19], w);
      var spaced := value[8..10] == DayText(w.day, true) && w.day < 10;
      assert value == value[..3] + AsctimeText(w, spaced);
    }
    if Fits(w, 10_000) {
      forall spaced | (spaced ==> w.day < 10) && value == value[..3] + AsctimeText(w, spaced)
        ensures ParseAsctime(value) == Some(w)
      {
        AsctimeColumns(value[..3], MonthName(w.month), DayText(w.day, spaced), Clock(w), Pad(w.year, 4));
        MonthExactly(value[4..7], w.month);
        DayExactly(value[8..10], w.day);
        DigitsExactly(value[20..24], 4, w.year);
        ClockExactly(value[11..19], w);
      }
    }
  }

  // ----- The whole parser -----

  /** A form of date, with the day name it opens with. */
  datatype Form = Imf(name: string) | Rfc850(name: string) | Asctime(name: string, spaced: bool)

  /** Whether `w` can be written in `form`. */
  predicate Writable(form: Form, w: Written) {
    match form
    case Imf(name) => IsShortDay(name) && Fits(w, 10_000)
    case Rfc850(name) => IsLongDay(name) && Fits(w, 100)
    case Asctime(name, spaced) => IsShortDay(name) && Fits(w, 10_000) && (spaced ==> w.day < 10)
  }

  function Text(form: Form, w: Written): string
    requires Writable(form, w)
  {
    match form
    case Imf(name) => name + ", " + ImfText(w)
    case Rfc850(name) => name + ", " + Rfc850Text(w)
    case Asctime(name, spaced) => name + AsctimeText(w, spaced)
  }

  /** The year a date means. */
  function Year(form: Form, w: Written, now: int): int {
    if form.Rfc850? then PlaceYear(CurrentYear(now), w.year) else w.year
  }

  /** `value` is `w` written in `form`, and names a moment. */
  predicate Spells(value: string, now: int, form: Form, w: Written) {
    Writable(form, w) && NamesMoment(Year(form, w, now), w) && value == Text(form, w)
  }

  /** A day of the calendar and a time of day, a leap second included (section 5.6.7 of RFC 9110). */
  predicate NamesMoment(year: int, w: Written) {
    && w.day >= 1 && w.hour <= 23 && w.minute <= 59 && w.second <= 60
    && match w.month
       case 1 | 3 | 5 | 7 | 8 | 10 | 12 => w.day <= 31
       case 4 | 6 | 9 | 11 => w.day <= 30
       case 2 => w.day <= if year % 400 == 0 || (year % 4 == 0 && year % 100 != 0) then 29 else 28
       case _ => false
  }

  lemma EveryMoment()
    ensures forall year, w :: IsMoment(year, w) <==> NamesMoment(year, w)
  {
    forall year, w
      ensures IsMoment(year, w) <==> NamesMoment(year, w)
    {
      MomentExactly(year, w);
    }
  }

  lemma MomentExactly(year: int, w: Written)
    ensures IsMoment(year, w) <==> NamesMoment(year, w)
  {
  }

  lemma {:induction false} SplitAtComma(name: string, rest: string)
    requires ',' !in name
    ensures SplitOnce(name + ", " + rest) == Some((name, rest))
  {
    var s := name + ", " + rest;
    if name == [] {
      assert s == ", " + rest;
      assert s[2..] == rest;
    } else {
      SplitAtComma(name[1..], rest);
      assert s[1..] == name[1..] + ", " + rest;
      assert s[0] == name[0] && [name[0]] + name[1..] == name;
    }
  }

  lemma {:induction false} NoCommaNoSplit(s: string)
    requires ',' !in s
    ensures SplitOnce(s).None?
  {
    if |s| >= 2 {
      NoCommaNoSplit(s[1..]);
    }
  }

  lemma ShortDayName(name: string)
    ensures name in SHORT_DAYS <==> IsShortDay(name)
    ensures IsShortDay(name) ==> |name| == 3 && ',' !in name
  {
  }

  lemma LongDayName(name: string)
    ensures name in LONG_DAYS <==> IsLongDay(name)
    ensures IsLongDay(name) ==> |name| > 3 && ',' !in name && name !in SHORT_DAYS
  {
    assert forall i :: 0 <= i < 7 ==> |SHORT_DAYS[i]| == 3;
  }

  lemma AsctimeHasNoComma(w: Written, spaced: bool)
    requires 1 <= w.month <= 12
    ensures ',' !in AsctimeText(w, spaced)
  {
    MonthsHaveNo(',');
    ClockHasNo(w, ',');
  }

  /** A date written in any of the three forms parses to the moment it names. */
  lemma WrittenDatesParse(value: string, now: int, form: Form, w: Written)
    requires Spells(value, now, form, w)
    ensures ParseHttpDate(value, now) == Some(SecondsAt(Year(form, w, now), w))
  {
    hide ParseImf;
    hide ParseRfc850;
    hide ParseAsctime;
    EveryMoment();
    hide IsMoment, NamesMoment;
    hide SecondsAt;
    hide PlaceYear;
    match form
    case Imf(name) =>
      ShortDayName(name);
      SplitAtComma(name, ImfText(w));
      ImfExactly(ImfText(w), w);
    case Rfc850(name) =>
      LongDayName(name);
      SplitAtComma(name, Rfc850Text(w));
      Rfc850Exactly(Rfc850Text(w), w);
    case Asctime(name, spaced) =>
      ShortDayName(name);
      AsctimeHasNoComma(w, spaced);
      NoCommaNoSplit(value);
      assert value[..3] == name;
      AsctimeExactly(value, w);
  }

  lemma ParsedImf(name: string, rest: string, now: int, w: Written)
    requires name in SHORT_DAYS && ParseImf(rest) == Some(w) && NamesMoment(w.year, w)
    ensures Spells(name + ", " + rest, now, Imf(name), w)
  {
    hide ParseImf;
    hide IsMoment, NamesMoment;
    ImfExactly(rest, w);
  }

  lemma ParsedRfc850(name: string, rest: string, now: int, w: Written)
    requires name in LONG_DAYS && ParseRfc850(rest) == Some(w) && NamesMoment(PlaceYear(CurrentYear(now), w.year), w)
    ensures Spells(name + ", " + rest, now, Rfc850(name), w)
  {
    hide ParseRfc850;
    hide IsMoment, NamesMoment;
    hide PlaceYear;
    Rfc850Exactly(rest, w);
  }

  lemma ParsedAsctime(value: string, now: int, w: Written) returns (form: Form)
    requires |value| >= 3 && value[..3] in SHORT_DAYS && ParseAsctime(value) == Some(w) && NamesMoment(w.year, w)
    ensures Spells(value, now, form, w) && form.Asctime?
  {
    hide ParseAsctime;
    EveryMoment();
    hide IsMoment, NamesMoment;
    hide AsctimeText;
    AsctimeExactly(value, w);
    var spaced :| (spaced ==> w.day < 10) && value == value[..3] + AsctimeText(w, spaced);
    form := Asctime(value[..3], spaced);
  }

  /** Whatever parses is a date written in one of the three forms. */
  lemma ParsedDatesAreWritten(value: string, now: int, t: int) returns (form: Form, w: Written)
    requires ParseHttpDate(value, now) == Some(t)
    ensures Spells(value, now, form, w) && t == SecondsAt(Year(form, w, now), w)
  {
    hide ParseImf;
    hide ParseRfc850;
    hide ParseAsctime;
    EveryMoment();
    hide IsMoment, NamesMoment;
    hide SecondsAt;
    hide PlaceYear;
    hide Spells;
    var split := SplitOnce(value);
    hide SplitOnce;
    if split.Some? {
      var (name, rest) := split.value;
      if name in SHORT_DAYS {
        form, w := Imf(name), ParseImf(rest).value;
        ParsedImf(name, rest, now, w);
      } else {
        form, w := Rfc850(name), ParseRfc850(rest).value;
        ParsedRfc850(name, rest, now, w);
      }
    } else {
      w := ParseAsctime(value).value;
      form := ParsedAsctime(value, now, w);
    }
  }

  /** The year a two-digit year means: the reading in the current century unless that is over 50 years
      ahead, and then the most recent past year that ends so. */
  lemma PlacedYear(current: int, short: nat)
    requires short < 100
    ensures var year := PlaceYear(current, short);
            && year % 100 == short && current - 100 < year <= current + 50
            && (year / 100 == current / 100 || (year + 100) / 100 == current / 100)
            && (year / 100 != current / 100 <==> current - current % 100 + short > current + 50)
            && (year / 100 != current / 100 ==>
                  year < current && forall other :: other % 100 == short && other < current ==> other <= year)
  {
    var year := PlaceYear(current, short);
    var century := current / 100;
    assert current == 100 * century + current % 100;
    QuotientIs(100 * century + short, 100, century, short);
    QuotientIs(100 * (century - 1) + short, 100, century - 1, short);
    if year / 100 != current / 100 {
      forall other | other % 100 == short && other < current
        ensures other <= year
      {
        assert other == 100 * (other / 100) + short;
      }
    }
  }

  /** Years with the same last two digits are a century apart, or more. */
  lemma SameEnding(earlier: int, later: int)
    requires earlier % 100 == later % 100 && earlier < later
    ensures earlier + 100 <= later
  {
    assert earlier == 100 * (earlier / 100) + earlier % 100 && later == 100 * (later / 100) + later % 100;
  }

  /** It is the latest year that ends so and is at most 50 years ahead, unless that one lies in the next century. */
  lemma PlacedYearIsLatest(current: int, short: nat)
    requires short < 100
    ensures (forall other :: other % 100 == short && other <= current + 50 ==> other <= PlaceYear(current, short))
       <==> short + 50 > current % 100
  {
    var year := PlaceYear(current, short);
    PlacedYear(current, short);
    assert short + 50 > current % 100 <==> year + 100 > current + 50;
    hide PlaceYear;
    forall other | other % 100 == short && other <= current + 50 && year + 100 > current + 50
      ensures other <= year
    {
      if year < other {
        SameEnding(year, other);
      }
    }
    QuotientIs(year + 100, 100, year / 100 + 1, short);
  }

  // ----- Retry-After -----

  const U64_MAX: nat := 0xFFFF_FFFF_FFFF_FFFF

  function TrimBlanks(s: string): string {
    if s != [] && s[0] in " \t" then TrimBlanks(s[1..])
    else if s != [] && s[|s| - 1] in " \t" then TrimBlanks(s[..|s| - 1])
    else s
  }

  /** A `Retry-After` value as the delay in seconds that it asks for at `now`. */
  function ParseRetryAfter(value: string, now: nat): Option<nat> {
    var field := TrimBlanks(value);
    if field != "" && AllDigits(field) then
      Some(if DecimalValue(field) <= U64_MAX then DecimalValue(field) else U64_MAX)
    else
      var at :- ParseHttpDate(field, now);
      Some(if at >= now then at - now else 0)
  }

  // ----- Seconds -----

  /** The second after, and the year it is in. */
  function NextSecond(year: int, w: Written): (int, Written) {
    if w.second < 59 then (year, w.(second := w.second + 1))
    else if w.minute < 59 then (year, w.(minute := w.minute + 1, second := 0))
    else if w.hour < 23 then (year, w.(hour := w.hour + 1, minute := 0, second := 0))
    else
      var next := NextDate(Date(year, w.month, w.day));
      (next.year, Written(w.year, if next.month >= 0 then next.month else 0, if next.day >= 0 then next.day else 0, 0, 0, 0))
  }

  /** Seconds count on, across minutes, hours, days, months and years, from the start of 1970; a leap second counts as the next one. */
  lemma NextSecondIsOneMore(year: int, w: Written)
    requires NamesMoment(year, w)
    ensures SecondsAt(1970, Written(1970, 1, 1, 0, 0, 0)) == 0
    ensures w.second < 60 ==>
              var (nextYear, next) := NextSecond(year, w);
              NamesMoment(nextYear, next) && SecondsAt(nextYear, next) == SecondsAt(year, w) + 1
    ensures w.second == 60 ==> SecondsAt(year, w) == SecondsAt(year, w.(second := 59)) + 1
  {
    MomentExactly(year, w);
    hide DaysFromCivil;
    NextDateIsOneMore(Date(year, w.month, w.day));
  }

  /** The year that a date's seconds are in. */
  lemma CurrentYearIsYear(year: int, w: Written)
    requires NamesMoment(year, w) && w.second < 60
    ensures CurrentYear(SecondsAt(year, w)) == year
  {
    MomentExactly(year, w);
    YearOfDayInverts(year, w.month, w.day);
    hide DaysFromCivil, YearOfDay;
    QuotientIs(SecondsAt(year, w), 86_400, DaysFromCivil(year, w.month, w.day), w.hour * 3600 + w.minute * 60 + w.second);
  }

  lemma DatesAreNoNumbers(value: string, now: int, form: Form, w: Written)
    requires Spells(value, now, form, w)
    ensures value != "" && !AllDigits(value)
  {
    hide IsMoment, NamesMoment;
    hide ImfText, Rfc850Text, AsctimeText;
    assert value[0] == form.name[0] && !IsDigit(value[0]);
  }

  predicate IsBlank(s: string) {
    forall i :: 0 <= i < |s| ==> s[i] == ' ' || s[i] == '\t'
  }

  predicate HasNoBlankEnds(s: string) {
    s != [] ==> !IsBlank(s[..1]) && !IsBlank(s[|s| - 1..])
  }

  lemma {:induction false} TrailTrims(field: string, trail: string)
    requires IsBlank(trail) && HasNoBlankEnds(field)
    ensures TrimBlanks(field + trail) == field
    decreases |trail|
  {
    var value := field + trail;
    if trail == [] {
      assert value == field;
      assert field != [] ==> field[..1][0] == field[0] && field[|field| - 1..][0] == field[|field| - 1];
    } else if field == [] {
      assert value == trail && value[0] in " \t";
      TrailTrims(field, trail[1..]);
      assert field + trail[1..] == value[1..];
    } else {
      assert field[..1][0] == value[0] && value[|value| - 1] == trail[|trail| - 1] && value[|value| - 1] in " \t";
      TrailTrims(field, trail[..|trail| - 1]);
      assert field + trail[..|trail| - 1] == value[..|value| - 1];
    }
  }

  /** Blanks around a field are no part of it. */
  lemma {:induction false} BlanksTrim(lead: string, field: string, trail: string)
    requires IsBlank(lead) && IsBlank(trail) && HasNoBlankEnds(field)
    ensures TrimBlanks(lead + field + trail) == field
  {
    if lead == [] {
      TrailTrims(field, trail);
      assert lead + field + trail == field + trail;
    } else {
      BlanksTrim(lead[1..], field, trail);
      var value, rest := lead + field + trail, lead[1..] + field + trail;
      assert value[0] in " \t" && value[1..] == rest;
    }
  }

  /** `delay` is the number that `field` is, held at the largest of 64 bits. */
  predicate IsDelaySeconds(field: string, delay: nat) {
    exists n: nat :: n < Power10(|field|) && field == Pad(n, |field|) && field != ""
                     && delay == if n <= 0xFFFF_FFFF_FFFF_FFFF then n else 0xFFFF_FFFF_FFFF_FFFF
  }

  lemma DelaySeconds(field: string, delay: nat)
    ensures IsDelaySeconds(field, delay)
       <==> field != "" && AllDigits(field) && delay == if DecimalValue(field) <= U64_MAX then DecimalValue(field) else U64_MAX
  {
    if AllDigits(field) {
      ValuePad(field);
    }
    forall n: nat | n < Power10(|field|) && field == Pad(n, |field|)
      ensures AllDigits(field) && DecimalValue(field) == n
    {
      PadValue(n, |field|);
    }
  }

  /** The delay is a saturated number of seconds, or the time until a date in one of the three forms, blanks around it aside. */
  lemma RetryAfterExactly(lead: string, field: string, trail: string, now: nat, delay: nat)
    requires IsBlank(lead) && IsBlank(trail) && HasNoBlankEnds(field)
    ensures ParseRetryAfter(lead + field + trail, now) == Some(delay)
            <==> || IsDelaySeconds(field, delay)
                 || exists form, w :: Spells(field, now, form, w)
                                      && var at := SecondsAt(Year(form, w, now), w);
                                         delay == if at >= now then at - now else 0
  {
    hide ParseHttpDate, Spells, SecondsAt, Year, TrimBlanks, IsDelaySeconds;
    BlanksTrim(lead, field, trail);
    DelaySeconds(field, delay);
    forall form, w | Spells(field, now, form, w)
      ensures !AllDigits(field) && ParseHttpDate(field, now) == Some(SecondsAt(Year(form, w, now), w))
    {
      DatesAreNoNumbers(field, now, form, w);
      WrittenDatesParse(field, now, form, w);
    }
    if !AllDigits(field) || field == "" {
      var at := ParseHttpDate(field, now);
      if at.Some? {
        var form, w := ParsedDatesAreWritten(field, now, at.value);
      }
    }
  }
}
