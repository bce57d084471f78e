// The names of history files and the text cursor into them: how a file key
// orders, how it is written as a file name and read back, and how a position
// in a file survives the trip through a client.
module LogFileKey {
  import opened Decimal

  // ----- Days

  datatype Date = Date(year: nat, month: nat, day: nat)

  predicate IsLeap(year: nat) { year % 4 == 0 && (year % 100 != 0 || year % 400 == 0) }

  function DaysIn(year: nat, month: nat): (d: nat)
    ensures 28 <= d <= 31
  {
    if month == 2 then (if IsLeap(year) then 29 else 28)
    else if month in {4, 6, 9, 11} then 30 else 31
  }

  /** A calendar date with a four-digit year. */
  predicate ValidDate(d: Date) {
    d.year <= 9999 && 1 <= d.month <= 12 && 1 <= d.day <= DaysIn(d.year, d.month)
  }

  predicate DateLess(a: Date, b: Date) {
    a.year < b.year || (a.year == b.year && (a.month < b.month || (a.month == b.month && a.day < b.day)))
  }

  function NextDate(d: Date): Date {
    if d.day < DaysIn(d.year, d.month) then d.(day := d.day + 1)
    else if d.month < 12 then Date(d.year, d.month + 1, 1)
    else Date(d.year + 1, 1, 1)
  }

  /** The date `n` days after 1 January of year 1. */
  function DateOf(n: nat): Date {
    if n == 0 then Date(1, 1, 1) else NextDate(DateOf(n - 1))
  }

  const NS_PER_DAY: nat := 86_400_000_000_000

  /** The UTC date of an instant, in nanoseconds since the start of year 1. */
  function DateAt(t: nat): Date { DateOf(t / NS_PER_DAY) }

  lemma {:induction false} DateOfOrder(m: nat, n: nat)
    ensures m < n ==> DateLess(DateOf(m), DateOf(n))
    ensures DateLess(DateOf(m), DateOf(n)) ==> m < n
    decreases m + n
  {
    if m < n {
      if m < n - 1 { DateOfOrder(m, n - 1); }
    } else if n < m {
      if n < m - 1 { DateOfOrder(n, m - 1); }
    }
  }

  // ----- Keys

  datatype Key = Key(date: Date, part: nat)

  predicate Less(a: Key, b: Key) {
    if a.date != b.date then DateLess(a.date, b.date) else a.part < b.part
  }

  const MAX_PART: nat := 0x7fff_ffff_ffff_ffff
  const MAX_OFFSET: nat := 0x7fff_ffff

  predicate ValidKey(k: Key) { ValidDate(k.date) && k.part <= MAX_PART }

  lemma LessTotal(a: Key, b: Key)
    ensures a == b || Less(a, b) || Less(b, a)
    ensures !(Less(a, b) && Less(b, a)) && !Less(a, a)
  {
  }

  function DayText(d: Date): (s: string)
    ensures |s| == 10
  {
    Padded(d.year, 4) + "-" + Padded(d.month, 2) + "-" + Padded(d.day, 2)
  }

  function Name(k: Key): string {
    "owncord-" + DayText(k.date) + (if k.part == 0 then "" else "." + Digits(k.part)) + ".log"
  }

  // ----- Reading a name back

  /** \d{4}-\d{2}-\d{2}, a date that exists. */
  function ParseDay(s: string): Option<Date> {
    if |s| == 10 && AllDigits(s[..4]) && s[4] == '-' && AllDigits(s[5..7]) && s[7] == '-' && AllDigits(s[8..])
    then
      var d := Date(Value(s[..4]), Value(s[5..7]), Value(s[8..]));
      if ValidDate(d) then Some(d) else None
    else None
  }

  /** Nothing, or a dot and a part number from 1 to the largest 64-bit integer. */
  function ParsePart(s: string): Option<nat> {
    if s == [] then Some(0)
    else if s[0] == '.' && |s| > 1 && AllDigits(s[1..]) && 0 < Value(s[1..]) <= MAX_PART then Some(Value(s[1..]))
    else None
  }

  function ParseName(s: string): Option<Key> {
    if |s| < 22 || s[..8] != "owncord-" || s[|s| - 4..] != ".log" then None
    else
      match (ParseDay(s[8..18]), ParsePart(s[18..|s| - 4]))
      case (Some(d), Some(p)) => Some(Key(d, p))
      case _ => None
  }

  lemma Pow10Small()
    ensures Pow10(2) == 100 && Pow10(4) == 10000
  {
    assert Pow10(0) == 1 && Pow10(1) == 10 && Pow10(3) == 1000;
  }

  lemma DayRoundTrip(d: Date)
    requires ValidDate(d)
    ensures ParseDay(DayText(d)) == Some(d)
  {
    Pow10Small();
    hide Padded, Value, Pow10;
    PaddedValue(d.year, 4);
    PaddedValue(d.month, 2);
    PaddedValue(d.day, 2);
    var s := DayText(d);
    assert s[..4] == Padded(d.year, 4);
    assert s[5..7] == Padded(d.month, 2);
    assert s[8..] == Padded(d.day, 2);
  }

  lemma PartRoundTrip(p: nat)
    requires p <= MAX_PART
    ensures ParsePart(if p == 0 then "" else "." + Digits(p)) == Some(p)
  {
    if p > 0 {
      DigitsValue(p);
      assert ("." + Digits(p))[1..] == Digits(p);
    }
  }

  /** Every key's name reads back as that key. */
  lemma NameRoundTrip(k: Key)
    requires ValidKey(k)
    ensures ParseName(Name(k)) == Some(k)
  {
    hide DayText, Digits, ParseDay, ParsePart;
    DayRoundTrip(k.date);
    PartRoundTrip(k.part);
    var part := if k.part == 0 then "" else "." + Digits(k.part);
    var s := Name(k);
    assert s[..8] == "owncord-";
    assert s[8..18] == DayText(k.date);
    assert s[18..|s| - 4] == part;
    assert s[|s| - 4..] == ".log";
  }

  lemma DayTextOfParsed(s: string)
    requires ParseDay(s).Some?
    ensures DayText(ParseDay(s).value) == s
  {
    ValuePadded(s[..4]);
    ValuePadded(s[5..7]);
    ValuePadded(s[8..]);
    assert s == s[..4] + "-" + s[5..7] + "-" + s[8..];
  }

  /**
   * A name that reads as a key is that key's own name unless its part number
   * is written with a leading zero; the reader would then open another file.
   */
  lemma ParsedNameIsOwnName(s: string)
    requires ParseName(s).Some?
    ensures Name(ParseName(s).value) == s <==> |s| == 22 || s[19] != '0'
  {
    hide DayText, Digits, ParseDay, Value;
    var k := ParseName(s).value;
    var mid := s[18..|s| - 4];
    DayTextOfParsed(s[8..18]);
    assert s == "owncord-" + s[8..18] + mid + ".log";
    if |s| > 22 {
      assert mid != [];
      ValueDigits(mid[1..]);
      assert mid[1..][0] == s[19];
      assert mid == "." + mid[1..];
      if Name(k) == s {
        assert Name(k)[18..|s| - 4] == "." + Digits(k.part);
        assert ("." + Digits(k.part))[1..] == Digits(k.part);
      }
      assert Value(mid[1..]) > 0;
      ZeroText();
    }
  }

  lemma ZeroText()
    ensures Value("0") == 0
  {
    assert "0"[..0] == "";
  }

  /** Comparing two days as text, as the reader does, is comparing them as dates. */
  lemma DayTextOrder(a: Date, b: Date)
    requires ValidDate(a) && ValidDate(b)
    ensures TextLess(DayText(a), DayText(b)) <==> DateLess(a, b)
  {
    Pow10Small();
    hide Padded, Pow10, TextLess;
    var ya, yb := Padded(a.year, 4), Padded(b.year, 4);
    var ma, mb := Padded(a.month, 2), Padded(b.month, 2);
    var da, db := Padded(a.day, 2), Padded(b.day, 2);
    var ra, rb := "-" + ma + "-" + da, "-" + mb + "-" + db;
    assert DayText(a) == ya + ra && DayText(b) == yb + rb;
    PaddedOrder(a.year, b.year, 4);
    if a.year != b.year {
      PaddedValue(a.year, 4);
      PaddedValue(b.year, 4);
      TextLessHead(ya, yb, ra, rb);
    } else {
      TextLessPrefix(ya, ra, rb);
      assert ra == "-" + (ma + ("-" + da)) && rb == "-" + (mb + ("-" + db));
      TextLessPrefix("-", ma + ("-" + da), mb + ("-" + db));
      PaddedOrder(a.month, b.month, 2);
      if a.month != b.month {
        PaddedValue(a.month, 2);
        PaddedValue(b.month, 2);
        TextLessHead(ma, mb, "-" + da, "-" + db);
      } else {
        TextLessPrefix(ma, "-" + da, "-" + db);
        TextLessPrefix("-", da, db);
        PaddedOrder(a.day, b.day, 2);
      }
    }
  }

  // ----- The cursor

  datatype Cursor = Start | Before(key: Key, offset: nat)

  /** The text inside a cursor: the file name, a colon and the byte offset. */
  function EncodeCursor(key: Key, offset: nat): string {
    Name(key) + ":" + Digits(offset)
  }

  /** The index of the first colon, or -1. */
  function FirstColon(s: string): (i: int)
    ensures -1 <= i < |s|
    ensures i >= 0 ==> s[i] == ':'
  {
    if s == [] then -1
    else if s[0] == ':' then 0
    else
      var i := FirstColon(s[1..]);
      if i < 0 then -1 else i + 1
  }

  /** An optional sign and digits, in the range of a 32-bit integer (strconv.ParseInt). */
  function ParseInt32(s: string): Option<int> {
    var signed := s != [] && (s[0] == '+' || s[0] == '-');
    var digits := if signed then s[1..] else s;
    if digits == [] || !AllDigits(digits) then None
    else
      var v := if s[0] == '-' then -(Value(digits) as int) else Value(digits);
      if -(MAX_OFFSET as int) - 1 <= v <= MAX_OFFSET then Some(v) else None
  }

  /** Reading a cursor's text; no text at all starts at the newest entry. */
  function DecodeCursor(s: string): Option<Cursor> {
    if s == [] then Some(Start)
    else
      var i := FirstColon(s);
      if i < 0 then None
      else
        match (ParseName(s[..i]), ParseInt32(s[i + 1..]))
        case (Some(key), Some(offset)) => if offset < 0 then None else Some(Before(key, offset))
        case _ => None
  }

  predicate NoColon(s: string) { forall i :: 0 <= i < |s| ==> s[i] != ':' }

  lemma {:induction false} FirstColonAfter(p: string, rest: string)
    requires NoColon(p)
    ensures FirstColon(p + ":" + rest) == |p|
  {
    var s := p + ":" + rest;
    if p == [] {
      assert s[0] == ':';
    } else {
      FirstColonAfter(p[1..], rest);
      assert s[1..] == p[1..] + ":" + rest;
    }
  }

  lemma NameHasNoColon(k: Key)
    ensures NoColon(Name(k))
  {
    hide Padded, Digits;
  }

  /** A cursor the server hands out reads back as the same position, as long as the offset fits 32 bits. */
  lemma CursorRoundTrip(key: Key, offset: nat)
    requires ValidKey(key) && offset <= MAX_OFFSET
    ensures DecodeCursor(EncodeCursor(key, offset)) == Some(Before(key, offset))
  {
    hide Name, Digits, ParseName, Value, FirstColon;
    var s := EncodeCursor(key, offset);
    NameRoundTrip(key);
    NameHasNoColon(key);
    FirstColonAfter(Name(key), Digits(offset));
    DigitsValue(offset);
    assert s[..|Name(key)|] == Name(key);
    assert s[|Name(key)| + 1..] == Digits(offset);
  }

  /** Past 32 bits the server refuses its own cursor. */
  lemma CursorTooFar(key: Key, offset: nat)
    requires offset > MAX_OFFSET
    ensures DecodeCursor(EncodeCursor(key, offset)) == None
  {
    hide Name, Digits, ParseName, Value, FirstColon;
    var s := EncodeCursor(key, offset);
    NameHasNoColon(key);
    FirstColonAfter(Name(key), Digits(offset));
    DigitsValue(offset);
    assert s[|Name(key)| + 1..] == Digits(offset);
  }
}
