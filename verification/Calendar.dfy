/** The timestamp layout 2006-01-02T15:04:05.000Z, read the way the engine's decoder reads
    24 bytes: fixed digit groups, fixed marks, calendar ranges. */
module Calendar {
  import opened Strings
  import opened LogFormat
  import opened LogChunks
  import opened LogScan

  predicate IsDigit(c: char) { '0' <= c <= '9' }

  function Digit(c: char): (d: nat)
    ensures d <= 9
  {
    if IsDigit(c) then (c as int) - ('0' as int) else 0
  }

  function Two(s: string, i: nat): (n: nat)
    requires i + 2 <= |s|
    ensures n <= 99
  {
    10 * Digit(s[i]) + Digit(s[i + 1])
  }

  predicate Shape(s: string) {
    && |s| == STAMP
    && (forall i :: 0 <= i < STAMP && i !in {4, 7, 10, 13, 16, 19, 23} ==> IsDigit(s[i]))
    && s[4] == '-' && s[7] == '-' && s[10] == 'T' && s[13] == ':' && s[16] == ':'
    && (s[19] == '.' || s[19] == ',') && s[23] == 'Z'
  }

  predicate Leap(year: nat) { year % 4 == 0 && (year % 100 != 0 || year % 400 == 0) }

  function DaysIn(month: nat, year: nat): nat {
    if month == 2 then (if Leap(year) then 29 else 28)
    else if month in {4, 6, 9, 11} then 30
    else 31
  }

  datatype Civil = Civil(year: nat, month: nat, day: nat, hour: nat, minute: nat, second: nat, milli: nat) {
    predicate InRange() {
      && 1 <= month <= 12 && 1 <= day <= DaysIn(month, year)
      && hour < 24 && minute < 60 && second < 60 && milli < 1000
    }

    /** A number that orders calendar times; year 1, January 1, midnight is ZERO_TIME. */
    function Code(): int {
      ((((((year - 1) * 12 + month - 1) * 31 + day - 1) * 24 + hour) * 60 + minute) * 60 + second) * 1000 + milli
    }
  }

  function Read(s: string): Civil
    requires |s| == STAMP
  {
    Civil(Two(s, 0) * 100 + Two(s, 2), Two(s, 5), Two(s, 8), Two(s, 11), Two(s, 14), Two(s, 17),
          Two(s, 20) * 10 + Digit(s[22]))
  }

  function Decode(s: string): Option<int> {
    if Shape(s) && Read(s).InRange() then Some(Read(s).Code()) else None
  }

  /** The real layout has what the query engine's soundness needs of it. */
  lemma DecodeIsLayout()
    ensures Layout(Decode)
  {
    forall s: string | |s| == STAMP && Decode(s).Some?
      ensures s[STAMP - 1] == 'Z' && '\n' !in s && '\t' !in s
    {
      assert Shape(s);
      forall i | 0 <= i < STAMP
        ensures s[i] != '\n' && s[i] != '\t'
      {
        if i !in {4, 7, 10, 13, 16, 19, 23} {
          assert IsDigit(s[i]);
        }
      }
    }
  }

  predicate Earlier(a: Civil, b: Civil) {
    if a.year != b.year then a.year < b.year
    else if a.month != b.month then a.month < b.month
    else if a.day != b.day then a.day < b.day
    else if a.hour != b.hour then a.hour < b.hour
    else if a.minute != b.minute then a.minute < b.minute
    else if a.second != b.second then a.second < b.second
    else a.milli <= b.milli
  }

  /** Decoded times are ordered as the calendar orders them: by year, month, day and so on. */
  lemma CodeOrders(a: Civil, b: Civil)
    requires a.InRange() && b.InRange()
    ensures a.Code() <= b.Code() <==> Earlier(a, b)
  {
  }

  // ---------- Printing ----------

  function DigitChar(d: nat): (c: char)
    requires d <= 9
    ensures IsDigit(c) && Digit(c) == d
  {
    '0' + d as char
  }

  function TwoText(n: nat): (t: string)
    requires n <= 99
    ensures |t| == 2 && IsDigit(t[0]) && IsDigit(t[1]) && Two(t, 0) == n
  {
    [DigitChar(n / 10), DigitChar(n % 10)]
  }

  /** A time in the layout, as the encoder writes it. */
  function Print(c: Civil): (s: string)
    requires c.InRange() && c.year <= 9999
    ensures |s| == STAMP
  {
    TwoText(c.year / 100) + TwoText(c.year % 100) + "-" + TwoText(c.month) + "-" + TwoText(c.day) + "T"
    + TwoText(c.hour) + ":" + TwoText(c.minute) + ":" + TwoText(c.second) + "."
    + TwoText(c.milli / 10) + [DigitChar(c.milli % 10)] + "Z"
  }

  /** Where the digits and the marks stand. */
  lemma PrintAt(c: Civil)
    requires c.InRange() && c.year <= 9999
    ensures var s := Print(c);
            && TwoText(c.year / 100) == [s[0], s[1]] && TwoText(c.year % 100) == [s[2], s[3]] && s[4] == '-'
            && TwoText(c.month) == [s[5], s[6]] && s[7] == '-' && TwoText(c.day) == [s[8], s[9]] && s[10] == 'T'
            && TwoText(c.hour) == [s[11], s[12]] && s[13] == ':' && TwoText(c.minute) == [s[14], s[15]] && s[16] == ':'
            && TwoText(c.second) == [s[17], s[18]] && s[19] == '.' && TwoText(c.milli / 10) == [s[20], s[21]]
            && s[22] == DigitChar(c.milli % 10) && s[23] == 'Z'
  {
    hide TwoText, DigitChar;
  }

  /** A printed time reads back. */
  lemma DecodeOfPrint(c: Civil)
    requires c.InRange() && c.year <= 9999
    ensures Decode(Print(c)) == Some(c.Code())
  {
    var s := Print(c);
    PrintAt(c);
    hide Print;
    assert Shape(s);
    assert Read(s) == c;
  }

  /** Printed times are in the order of the calendar, so entries logged in order are stored in
      order. */
  lemma PrintOrders(a: Civil, b: Civil)
    requires a.InRange() && b.InRange() && a.year <= 9999 && b.year <= 9999
    ensures Decode(Print(a)).Some? && Decode(Print(b)).Some?
    ensures Decode(Print(a)).value <= Decode(Print(b)).value <==> Earlier(a, b)
  {
    hide Print, Decode, Civil.InRange, Civil.Code, Earlier;
    DecodeOfPrint(a);
    DecodeOfPrint(b);
    CodeOrders(a, b);
  }

  lemma DigitBack(c: char)
    requires IsDigit(c)
    ensures DigitChar(Digit(c)) == c
  {
  }

  lemma TwoBack(a: char, b: char)
    requires IsDigit(a) && IsDigit(b)
    ensures TwoText(Two([a, b], 0)) == [a, b]
  {
  }

  lemma DigitsBack(s: string, i: nat)
    requires i + 2 <= |s| && IsDigit(s[i]) && IsDigit(s[i + 1])
    ensures TwoText(Two(s, i)) == [s[i], s[i + 1]]
  {
    TwoBack(s[i], s[i + 1]);
    hide TwoText;
  }

  lemma ShapeDigits(s: string)
    requires Shape(s)
    ensures IsDigit(s[0]) && IsDigit(s[1]) && IsDigit(s[2]) && IsDigit(s[3]) && IsDigit(s[5]) && IsDigit(s[6])
    ensures IsDigit(s[8]) && IsDigit(s[9]) && IsDigit(s[11]) && IsDigit(s[12]) && IsDigit(s[14]) && IsDigit(s[15])
    ensures IsDigit(s[17]) && IsDigit(s[18]) && IsDigit(s[20]) && IsDigit(s[21]) && IsDigit(s[22])
    ensures s[4] == '-' && s[7] == '-' && s[10] == 'T' && s[13] == ':' && s[16] == ':' && s[19] in {'.', ','} && s[23] == 'Z'
  {
    hide IsDigit;
  }

  lemma DecodeParts(s: string)
    requires Decode(s).Some?
    ensures |s| == STAMP == 24 && Shape(s) && Read(s).InRange() && Decode(s) == Some(Read(s).Code())
  {
    hide Read, Civil.InRange, Civil.Code;
  }

  lemma ReadFields(s: string)
    requires |s| == STAMP
    ensures var c := Read(s);
            && c.year / 100 == Two(s, 0) && c.year % 100 == Two(s, 2) && c.month == Two(s, 5) && c.day == Two(s, 8)
            && c.hour == Two(s, 11) && c.minute == Two(s, 14) && c.second == Two(s, 17)
            && c.milli / 10 == Two(s, 20) && c.milli % 10 == Digit(s[22]) && c.year <= 9999
  {
    hide Two, Digit;
  }

  /** The digits read are the digits that stood there. */
  lemma ReadDigits(s: string)
    requires Decode(s).Some?
    ensures var c := Read(s);
            && c.InRange() && c.year <= 9999 && |s| == STAMP
            && TwoText(c.year / 100) == [s[0], s[1]] && TwoText(c.year % 100) == [s[2], s[3]] && s[4] == '-'
            && TwoText(c.month) == [s[5], s[6]] && s[7] == '-' && TwoText(c.day) == [s[8], s[9]] && s[10] == 'T'
            && TwoText(c.hour) == [s[11], s[12]] && s[13] == ':' && TwoText(c.minute) == [s[14], s[15]] && s[16] == ':'
            && TwoText(c.second) == [s[17], s[18]] && s[19] in {'.', ','} && TwoText(c.milli / 10) == [s[20], s[21]]
            && s[22] == DigitChar(c.milli % 10) && s[23] == 'Z' && Decode(s) == Some(c.Code())
  {
    hide *;
    DecodeParts(s);
    ReadFields(s);
    ShapeDigits(s);
    DigitsBack(s, 0);
    DigitsBack(s, 2);
    DigitsBack(s, 5);
    DigitsBack(s, 8);
    DigitsBack(s, 11);
    DigitsBack(s, 14);
    DigitsBack(s, 17);
    DigitsBack(s, 20);
    DigitBack(s[22]);
  }

  /** What decodes is a printed time of the calendar, with a point or a comma before the
      milliseconds. */
  lemma DecodeIff(s: string)
    requires |s| == STAMP
    ensures Decode(s).Some? <==>
            exists c: Civil :: c.InRange() && c.year <= 9999 && Decode(s) == Some(c.Code())
                               && s[..19] == Print(c)[..19] && s[20..] == Print(c)[20..] && s[19] in {'.', ','}
  {
    if Decode(s).Some? {
      var c := Read(s);
      PrintAt(c);
      ReadDigits(s);
      hide Print, Decode, Read, TwoText, DigitChar;
      var p := Print(c);
      assert forall i :: 0 <= i < STAMP && i != 19 ==> s[i] == p[i];
      assert s[..19] == p[..19] && s[20..] == p[20..];
    }
  }

  /** The Gregorian calendar: 97 leap years in 400, and the months of a year. */
  lemma LeapYears(y: nat)
    ensures Leap(y) <==> Leap(y + 400)
    ensures Leap(4 * y) <==> (4 * y) % 100 != 0 || (4 * y) % 400 == 0
    ensures !Leap(4 * y + 1) && !Leap(4 * y + 2) && !Leap(4 * y + 3)
    ensures DaysIn(1, y) + DaysIn(2, y) + DaysIn(3, y) + DaysIn(4, y) + DaysIn(5, y) + DaysIn(6, y) + DaysIn(7, y)
            + DaysIn(8, y) + DaysIn(9, y) + DaysIn(10, y) + DaysIn(11, y) + DaysIn(12, y) == if Leap(y) then 366 else 365
  {
  }

  // ---------- An input that loses a result ----------

  const NEW_YEAR := "2024-01-01T00:00:00.000Z"

  const ASKS_X := Query(Decode, Request(NEW_YEAR, NEW_YEAR, None, Some("X"), None, ["time", "message"], map[]))

  lemma NewYearTrims()
    ensures |NEW_YEAR| == STAMP && TrimBlank(NEW_YEAR) == NEW_YEAR
  {
  }

  lemma NewYearShape()
    ensures Shape(NEW_YEAR)
  {
  }

  lemma NewYearRead()
    ensures Read(NEW_YEAR) == Civil(2024, 1, 1, 0, 0, 0, 0)
  {
  }

  lemma NewYearDecodes()
    ensures Decode(NEW_YEAR).Some?
  {
    NewYearShape();
    NewYearRead();
    hide Shape, Read;
  }

  lemma NewYear()
    ensures Decode(NEW_YEAR).Some? && ASKS_X.From() == Decode(NEW_YEAR).value == ASKS_X.To()
  {
    NewYearDecodes();
    NewYearTrims();
    hide Decode, TrimBlank;
    assert NEW_YEAR[..STAMP] == NEW_YEAR;
  }

  /** A request for "X" and a file of two lines, the last without a newline: one entry passes, the
      chunk returns none. */
  lemma LostOnNewYear(room: int)
    requires room > 1
    ensures var data := NEW_YEAR + "\tX\nX";
            && Select(ASKS_X, LinesIn(data, 0, |data|)) == [map["time" := NEW_YEAR, "message" := "X"]]
            && ChunkResult(ASKS_X, data, Chunk(0, |data|), room) == []
  {
    NewYear();
    DecodeIsLayout();
    hide Decode, Layout, Query.From, Query.To;
    HitOnLastLineLosesAll(ASKS_X, NEW_YEAR, room);
  }
}
