// RotateDir.pl: the names of slots, without the prefix, and what is read out of them.
module SlotNames {
  import opened Wrappers

  const FIRST_SEQUENCE_SEQUENCE_NUMBER: nat := 1
  const FIRST_TIMESTAMP_SEQUENCE_NUMBER: nat := 2
  const DATE_SEPARATOR: char := '-'

  // "use integer": the largest 64-bit integer.
  const MAX_INTEGER: nat := 0x7FFF_FFFF_FFFF_FFFF

  datatype Date = Date(year: nat, month: nat, day: nat)

  // CSlotInfo
  datatype Slot = Slot(id: string, date: Option<Date>, sequenceNumber: nat)

  // ----- Decimal numbers -----

  predicate IsDigit(c: char) {
    '0' <= c <= '9'
  }

  // How many digits a string starts with: what \d+ matches.
  function DigitRun(s: string): (n: nat)
    ensures n <= |s|
  {
    if s == "" || !IsDigit(s[0]) then 0 else 1 + DigitRun(s[1..])
  }

  // not has_non_digits
  predicate AllDigits(s: string) {
    DigitRun(s) == |s|
  }

  lemma {:induction false} DigitRunIs(s: string)
    ensures forall i :: 0 <= i < DigitRun(s) ==> '0' <= s[i] <= '9'
    ensures DigitRun(s) < |s| ==> !('0' <= s[DigitRun(s)] <= '9')
  {
    if s != "" && IsDigit(s[0]) {
      DigitRunIs(s[1..]);
      assert forall i :: 1 <= i < |s| ==> s[i] == s[1..][i - 1];
    }
  }

  lemma {:induction false} DigitRunJoin(d: string, rest: string)
    requires AllDigits(d)
    ensures DigitRun(d + rest) == |d| + DigitRun(rest)
  {
    if d == "" {
      assert d + rest == rest;
    } else {
      assert (d + rest)[1..] == d[1..] + rest;
      DigitRunJoin(d[1..], rest);
    }
  }

  function Decimal(n: nat): (s: string)
    ensures s != ""
  {
    var last := '0' + (n % 10) as char;
    if n < 10 then [last] else Decimal(n / 10) + [last]
  }

  function DigitValue(c: char): nat {
    if IsDigit(c) then (c - '0') as nat else 0
  }

  function NumberOf(s: string): nat {
    if s == "" then 0 else 10 * NumberOf(s[..|s| - 1]) + DigitValue(s[|s| - 1])
  }

  // A string of digits as a number; one that is too big for an integer reads as zero.
  function Number(s: string): (n: nat)
    ensures n <= MAX_INTEGER
  {
    if NumberOf(s) <= MAX_INTEGER then NumberOf(s) else 0
  }

  lemma {:induction false} DecimalValue(n: nat)
    ensures AllDigits(Decimal(n)) && NumberOf(Decimal(n)) == n
  {
    var last := '0' + (n % 10) as char;
    assert DigitRun([last]) == 1 + DigitRun([last][1..]);
    if n >= 10 {
      DecimalValue(n / 10);
      DigitRunJoin(Decimal(n / 10), [last]);
      assert Decimal(n)[..|Decimal(n)| - 1] == Decimal(n / 10);
    }
  }

  // sprintf( "%0<width>d" )
  function Padded(s: string, width: nat): (r: string)
    ensures |r| >= |s|
    decreases width - |s|
  {
    if |s| >= width then s else Padded("0" + s, width)
  }

  lemma {:induction false} LeadingZero(s: string)
    ensures NumberOf("0" + s) == NumberOf(s)
  {
    if s == "" {
      assert "0" + s == "0";
    } else {
      assert ("0" + s)[..|s|] == "0" + s[..|s| - 1];
      LeadingZero(s[..|s| - 1]);
    }
  }

  lemma {:induction false} PaddedValue(s: string, width: nat)
    requires AllDigits(s)
    ensures AllDigits(Padded(s, width)) && NumberOf(Padded(s, width)) == NumberOf(s)
    decreases width - |s|
  {
    if |s| < width {
      LeadingZero(s);
      assert ("0" + s)[1..] == s;
      PaddedValue("0" + s, width);
    }
  }

  // ----- Timestamps -----

  function PaddedDecimal(n: nat, width: nat): (s: string)
    ensures s != ""
  {
    Padded(Decimal(n), width)
  }

  lemma PaddedDecimalValue(n: nat, width: nat)
    ensures AllDigits(PaddedDecimal(n, width)) && NumberOf(PaddedDecimal(n, width)) == n
  {
    DecimalValue(n);
    PaddedValue(Decimal(n), width);
  }

  // format_timestamp
  function FormatTimestamp(d: Date): string {
    PaddedDecimal(d.year, 4) + [DATE_SEPARATOR] + PaddedDecimal(d.month, 2) + [DATE_SEPARATOR] + PaddedDecimal(d.day, 2)
  }

  function Digit(n: nat): char {
    '0' + (n % 10) as char
  }

  lemma DecimalIs(n: nat)
    ensures n < 10 ==> Decimal(n) == [Digit(n)]
    ensures 10 <= n < 100 ==> Decimal(n) == [Digit(n / 10), Digit(n)]
    ensures 1000 <= n < 10000 ==> Decimal(n) == [Digit(n / 1000), Digit(n / 100), Digit(n / 10), Digit(n)]
  {
    if 1000 <= n < 10000 {
      assert n / 10 / 10 == n / 100 && n / 10 / 10 / 10 == n / 1000;
      assert Decimal(n / 10) == Decimal(n / 100) + [Digit(n / 10)];
      assert Decimal(n / 100) == Decimal(n / 1000) + [Digit(n / 100)];
    }
  }

  lemma TwoDigits(n: nat)
    requires n < 100
    ensures PaddedDecimal(n, 2) == [Digit(n / 10), Digit(n)]
  {
    DecimalIs(n);
    if n < 10 {
      assert Padded("0" + Decimal(n), 2) == "0" + Decimal(n);
    }
  }

  // The ten characters of a date: YYYY-MM-DD.
  lemma DateIs(d: Date)
    requires 1000 <= d.year < 10000 && d.month < 100 && d.day < 100
    ensures FormatTimestamp(d)
         == [Digit(d.year / 1000), Digit(d.year / 100), Digit(d.year / 10), Digit(d.year), '-',
             Digit(d.month / 10), Digit(d.month), '-', Digit(d.day / 10), Digit(d.day)]
  {
    DecimalIs(d.year);
    TwoDigits(d.month);
    TwoDigits(d.day);
  }

  // n numbers of at least one digit each, with separators between them, and what is behind.
  function NumberFields(s: string, n: nat): (r: Option<(seq<nat>, string)>)
    requires n > 0
    ensures r.Some? ==> |r.value.0| == n
    decreases n
  {
    var k := DigitRun(s);
    if k == 0 then None
    else if n == 1 then Some(([Number(s[..k])], s[k..]))
    else if k == |s| || s[k] != DATE_SEPARATOR then None
    else
      var others := NumberFields(s[k + 1..], n - 1);
      if others.None? then None else Some(([Number(s[..k])] + others.value.0, others.value.1))
  }

  lemma FirstField(d: string, rest: string, n: nat)
    requires AllDigits(d) && d != "" && NumberOf(d) <= MAX_INTEGER && n > 1 && NumberFields(rest, n - 1).Some?
    ensures NumberFields(d + [DATE_SEPARATOR] + rest, n)
         == Some(([NumberOf(d)] + NumberFields(rest, n - 1).value.0, NumberFields(rest, n - 1).value.1))
  {
    var s := d + [DATE_SEPARATOR] + rest;
    DigitRunJoin(d, [DATE_SEPARATOR] + rest);
    assert s == d + ([DATE_SEPARATOR] + rest);
    assert s[..|d|] == d && s[|d| + 1..] == rest;
  }

  lemma LastField(d: string, rest: string)
    requires AllDigits(d) && d != "" && NumberOf(d) <= MAX_INTEGER && (rest != "" ==> !IsDigit(rest[0]))
    ensures NumberFields(d + rest, 1) == Some(([NumberOf(d)], rest))
  {
    DigitRunJoin(d, rest);
    assert (d + rest)[..|d|] == d && (d + rest)[|d|..] == rest;
  }

  predicate GoodDate(d: Date) {
    2010 <= d.year <= MAX_INTEGER && 1 <= d.month <= 12 && 1 <= d.day <= 31
  }

  // The part of a timestamp behind the date.
  function ParseSequenceNumber(rest: string, allowSequenceNumber: bool): Option<nat> {
    if rest == "" then Some(FIRST_TIMESTAMP_SEQUENCE_NUMBER - 1)
    else if !allowSequenceNumber || rest[0] != DATE_SEPARATOR || |rest| < 2 || !AllDigits(rest[1..]) then None
    else if Number(rest[1..]) < FIRST_TIMESTAMP_SEQUENCE_NUMBER then None
    else Some(Number(rest[1..]))
  }

  // parse_timestamp; None is any of its errors.
  function ParseTimestamp(s: string, allowSequenceNumber: bool): (r: Option<Slot>)
    ensures r.Some? ==> r.value.id == s && r.value.date.Some? && GoodDate(r.value.date.value)
    ensures r.Some? ==> 0 < r.value.sequenceNumber <= MAX_INTEGER
    ensures r.Some? ==>
              var d := r.value.date.value;
              2010 <= d.year <= MAX_INTEGER && 1 <= d.month <= 12 && 1 <= d.day <= 31
  {
    var fields := NumberFields(s, 3);
    if fields.None? then None
    else
      var (numbers, rest) := fields.value;
      var date, number := Date(numbers[0], numbers[1], numbers[2]), ParseSequenceNumber(rest, allowSequenceNumber);
      if !GoodDate(date) || number.None? then None else Some(Slot(s, Some(date), number.value))
  }

  // The name for a date and a sequence number.
  function TimestampName(d: Date, number: nat): string {
    FormatTimestamp(d) + Suffix(number)
  }

  function Suffix(number: nat): string {
    if number < FIRST_TIMESTAMP_SEQUENCE_NUMBER then "" else [DATE_SEPARATOR] + Decimal(number)
  }

  lemma SuffixRoundTrip(number: nat)
    requires 0 < number <= MAX_INTEGER
    ensures ParseSequenceNumber(Suffix(number), true) == Some(number)
  {
    DecimalValue(number);
    if number >= FIRST_TIMESTAMP_SEQUENCE_NUMBER {
      assert Suffix(number)[1..] == Decimal(number);
    }
  }

  lemma ParseParts(y: string, m: string, day: string, suffix: string, d: Date, number: nat)
    requires AllDigits(y) && AllDigits(m) && AllDigits(day) && y != "" && m != "" && day != ""
    requires d == Date(NumberOf(y), NumberOf(m), NumberOf(day)) && GoodDate(d)
    requires (suffix != "" ==> !IsDigit(suffix[0])) && ParseSequenceNumber(suffix, true) == Some(number)
    ensures var s := y + [DATE_SEPARATOR] + (m + [DATE_SEPARATOR] + (day + suffix));
            ParseTimestamp(s, true) == Some(Slot(s, Some(d), number))
  {
    LastField(day, suffix);
    FirstField(m, day + suffix, 2);
    FirstField(y, m + [DATE_SEPARATOR] + (day + suffix), 3);
  }

  lemma Regroup(y: string, m: string, day: string, suffix: string)
    ensures y + [DATE_SEPARATOR] + m + [DATE_SEPARATOR] + day + suffix
         == y + [DATE_SEPARATOR] + (m + [DATE_SEPARATOR] + (day + suffix))
  {
  }

  // Parsing undoes formatting.
  lemma TimestampRoundTrip(d: Date, number: nat)
    requires 2010 <= d.year <= MAX_INTEGER && 1 <= d.month <= 12 && 1 <= d.day <= 31 && 0 < number <= MAX_INTEGER
    ensures ParseTimestamp(TimestampName(d, number), true) == Some(Slot(TimestampName(d, number), Some(d), number))
  {
    var y, m, day := PaddedDecimal(d.year, 4), PaddedDecimal(d.month, 2), PaddedDecimal(d.day, 2);
    PaddedDecimalValue(d.year, 4);
    PaddedDecimalValue(d.month, 2);
    PaddedDecimalValue(d.day, 2);
    SuffixRoundTrip(number);
    Regroup(y, m, day, Suffix(number));
    ParseParts(y, m, day, Suffix(number), d, number);
  }

  // A plain sequence number; None is an error.
  function ParseSequenceSlot(id: string): (r: Option<Slot>)
    ensures r.Some? ==> r.value.id == id && r.value.date == None
  {
    if id == "" || !AllDigits(id) || Number(id) < FIRST_SEQUENCE_SEQUENCE_NUMBER then None
    else Some(Slot(id, None, Number(id)))
  }

  // The names of plain slots are all runs of digits for a positive integer that fits.
  lemma SequenceNamesAre(id: string)
    ensures ParseSequenceSlot(id).Some? <==>
            && id != "" && (forall i :: 0 <= i < |id| ==> '0' <= id[i] <= '9')
            && 1 <= NumberOf(id) <= 0x7FFF_FFFF_FFFF_FFFF
    ensures ParseSequenceSlot(id).Some? ==> ParseSequenceSlot(id).value.sequenceNumber == NumberOf(id)
  {
    DigitRunIs(id);
  }

  predicate DigitsOnly(s: string) {
    s != "" && forall i :: 0 <= i < |s| ==> '0' <= s[i] <= '9'
  }

  lemma FieldIs(s: string, n: nat) returns (field: string, rest: string)
    requires n > 0 && NumberFields(s, n).Some?
    ensures DigitsOnly(field) && NumberFields(s, n).value.0[0] == Number(field)
    ensures n == 1 ==> s == field + rest && NumberFields(s, 1).value.1 == rest
    ensures n > 1 ==> s == field + ['-'] + rest && NumberFields(rest, n - 1).Some?
    ensures n > 1 ==> NumberFields(rest, n - 1).value.0 == NumberFields(s, n).value.0[1..]
    ensures n > 1 ==> NumberFields(rest, n - 1).value.1 == NumberFields(s, n).value.1
  {
    var k := DigitRun(s);
    DigitRunIs(s);
    field, rest := s[..k], if n == 1 then s[k..] else s[k + 1..];
  }

  // What is read as a timestamp is a date in digits with hyphens between them and, with numbers from 2 on, a
  // further hyphen and the number.
  lemma TimestampNamesAre(s: string) returns (y: string, m: string, d: string, suffix: string)
    requires ParseTimestamp(s, true).Some?
    ensures DigitsOnly(y) && DigitsOnly(m) && DigitsOnly(d) && s == y + ['-'] + (m + ['-'] + (d + suffix))
    ensures ParseTimestamp(s, true).value.date == Some(Date(Number(y), Number(m), Number(d)))
    ensures var number := ParseTimestamp(s, true).value.sequenceNumber;
            if suffix == "" then number == 1
            else suffix[0] == '-' && DigitsOnly(suffix[1..]) && number == Number(suffix[1..]) >= 2
  {
    hide NumberFields, Number;
    var r1, r2;
    y, r1 := FieldIs(s, 3);
    m, r2 := FieldIs(r1, 2);
    d, suffix := FieldIs(r2, 1);
    if suffix != "" {
      DigitRunIs(suffix[1..]);
    }
  }

  lemma SequenceRoundTrip(number: nat)
    requires FIRST_SEQUENCE_SEQUENCE_NUMBER <= number <= MAX_INTEGER
    ensures ParseSequenceSlot(Decimal(number)) == Some(Slot(Decimal(number), None, number))
  {
    DecimalValue(number);
  }

  // ----- Naming schemes -----

  // Whether slots have dates, how names are read, and the name for a date and a number.
  datatype Scheme = Scheme(dated: bool, parse: string -> Option<Slot>, name: (Option<Date>, nat) -> string)

  function SequenceScheme(): Scheme {
    Scheme(false, ParseSequenceSlot, (date, number: nat) => Decimal(number))
  }

  function DateScheme(): Scheme {
    Scheme(true, id => ParseTimestamp(id, true),
           (date: Option<Date>, number: nat) => if date.Some? then TimestampName(date.value, number) else "")
  }

  predicate GoodKey(scheme: Scheme, date: Option<Date>, number: nat) {
    date.Some? == scheme.dated && (date.Some? ==> GoodDate(date.value)) && 0 < number <= MAX_INTEGER
  }

  // Names say whose they are, and can be read back.
  ghost predicate Sound(scheme: Scheme) {
    && (forall id :: scheme.parse(id).Some? ==>
          scheme.parse(id).value.id == id && scheme.parse(id).value.date.Some? == scheme.dated)
    && (forall date, number :: GoodKey(scheme, date, number) ==>
          scheme.parse(scheme.name(date, number)) == Some(Slot(scheme.name(date, number), date, number)))
  }

  lemma SequenceSchemeIsSound()
    ensures Sound(SequenceScheme())
  {
    var scheme := SequenceScheme();
    forall date: Option<Date>, number | GoodKey(scheme, date, number)
      ensures scheme.parse(scheme.name(date, number)) == Some(Slot(scheme.name(date, number), date, number))
    {
      SequenceRoundTrip(number);
    }
  }

  lemma DateSchemeIsSound()
    ensures Sound(DateScheme())
  {
    var scheme := DateScheme();
    forall date, number | GoodKey(scheme, date, number)
      ensures scheme.parse(scheme.name(date, number)) == Some(Slot(scheme.name(date, number), date, number))
    {
      TimestampRoundTrip(date.value, number);
    }
  }

  // ----- Order -----

  // left <=> right
  function Compare(left: nat, right: nat): int {
    if left < right then -1 else if left == right then 0 else 1
  }

  // compare_timestamps
  function CompareTimestamps(left: Date, right: Date): int {
    if left.year != right.year then Compare(left.year, right.year)
    else if left.month != right.month then Compare(left.month, right.month)
    else Compare(left.day, right.day)
  }

  // compare_slots; 0 stands for its error about a duplicate.
  function CompareSlots(left: Slot, right: Slot): int {
    if left.date.Some? && right.date.Some? && CompareTimestamps(left.date.value, right.date.value) != 0
    then CompareTimestamps(left.date.value, right.date.value)
    else Compare(left.sequenceNumber, right.sequenceNumber)
  }

  predicate Older(left: Slot, right: Slot) {
    CompareSlots(left, right) < 0
  }

  // With dates, slots are ordered by year, month, day and then number; without, by number alone.
  lemma OlderIs(a: Slot, b: Slot)
    requires a.date.Some? == b.date.Some?
    ensures a.date.None? ==> (Older(a, b) <==> a.sequenceNumber < b.sequenceNumber)
    ensures a.date.Some? ==>
              var d, e := a.date.value, b.date.value;
              Older(a, b) <==>
              || d.year < e.year
              || (d.year == e.year && d.month < e.month)
              || (d.year == e.year && d.month == e.month && d.day < e.day)
              || (d == e && a.sequenceNumber < b.sequenceNumber)
  {
  }

  predicate SameScheme(a: Slot, b: Slot) {
    a.date.Some? == b.date.Some?
  }

  lemma OlderIsTransitive(a: Slot, b: Slot, c: Slot)
    requires SameScheme(a, b) && SameScheme(b, c) && Older(a, b) && Older(b, c)
    ensures Older(a, c)
  {
  }
}
