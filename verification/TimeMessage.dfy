/** The clock message sent to the microcontroller. */
module TimeMessage {
  import opened Bytes
  import opened Text
  import opened Wrappers

  const RUN_SIZE: nat := 64
  const AMPERSAND: byte := 38
  const SPACE: byte := 32

  datatype Time = Time(second: nat, minute: nat, hour: nat, day: nat, weekday: nat, month: nat, year: nat)

  /** What `localtime` yields, after the shifts of month and year; 60 is a leap second. */
  predicate Calendar(t: Time)
  {
    && t.second <= 60 && t.minute <= 59 && t.hour <= 23
    && 1 <= t.day <= 31 && t.weekday <= 6 && 1 <= t.month <= 12
    && t.year <= INT_MAX
  }

  function Prefix(): (r: seq<byte>)
    ensures r == [65, 88, 88, 43, 84, 73, 77, 43]
  {
    Ascii("AXX+TIM+")
  }

  /** The output of the format `AXX+TIM+%02d%02d%02d%02d%d%02d%4d&`. */
  function TimeText(t: Time): seq<byte>
  {
    Prefix() + TwoDigits(t.second) + TwoDigits(t.minute) + TwoDigits(t.hour) + TwoDigits(t.day)
    + Decimal(t.weekday) + TwoDigits(t.month) + PadLeft(Decimal(t.year), 4, SPACE) + [AMPERSAND]
  }

  function SkipSpaces(s: seq<byte>): (r: seq<byte>)
    ensures |r| <= |s| && r == s[|s| - |r|..]
  {
    if s != [] && s[0] == SPACE then SkipSpaces(s[1..]) else s
  }

  function Field(s: seq<byte>, from: nat, to: nat): Option<nat>
    requires from <= to <= |s|
  {
    if AllDigits(s[from..to]) then Some(ParseDecimal(s[from..to])) else None
  }

  /** A reader of the message at the front of a byte stream: the fields at their fixed places, the year up to
      the ampersand. It yields the time and the number of bytes used. */
  function ParseTime(s: seq<byte>): Option<(Time, nat)>
  {
    if |s| < 19 || s[..8] != Prefix() then None
    else
      var end := Find(s, AMPERSAND, 19);
      if end == |s| then None
      else
        var year := SkipSpaces(s[19..end]);
        match (Field(s, 8, 10), Field(s, 10, 12), Field(s, 12, 14), Field(s, 14, 16), Field(s, 16, 17),
               Field(s, 17, 19), Field(year, 0, |year|))
        case (Some(sec), Some(min), Some(hour), Some(day), Some(wday), Some(month), Some(y)) =>
          Some((Time(sec, min, hour, day, wday, month, y), end + 1))
        case _ => None
  }

  lemma {:induction false} SkipsFill(n: nat, s: seq<byte>)
    requires s != [] && s[0] != SPACE
    ensures SkipSpaces(Fill(SPACE, n) + s) == s
  {
    if n == 0 {
      assert Fill(SPACE, n) + s == s;
    } else {
      var padded := Fill(SPACE, n) + s;
      assert padded[0] == SPACE;
      assert padded[1..] == Fill(SPACE, n - 1) + s;
      SkipsFill(n - 1, s);
    }
  }

  /** Padding with spaces is undone by skipping them. */
  lemma PadRoundTrip(s: seq<byte>, width: nat)
    requires s != [] && s[0] != SPACE
    ensures SkipSpaces(PadLeft(s, width, SPACE)) == s
  {
    if |s| < width {
      SkipsFill(width - |s|, s);
    } else {
      SkipsFill(0, s);
      assert Fill(SPACE, 0) + s == s;
    }
  }

  lemma PadIsClean(s: seq<byte>, width: nat)
    requires AllDigits(s)
    ensures var p := PadLeft(s, width, SPACE);
            |p| == (if |s| < width then width else |s|) && forall i :: 0 <= i < |p| ==> p[i] != AMPERSAND
  {
  }

  lemma OneDigit(n: nat)
    requires n < 10
    ensures |Decimal(n)| == 1
  {
  }

  lemma NinePieces(prefix: seq<byte>, sec: seq<byte>, min: seq<byte>, hour: seq<byte>, day: seq<byte>,
                   wday: seq<byte>, month: seq<byte>, year: seq<byte>)
    requires |prefix| == 8 && |sec| == |min| == |hour| == |day| == |month| == 2 && |wday| == 1
    ensures var s := prefix + sec + min + hour + day + wday + month + year + [AMPERSAND];
            && |s| == 20 + |year| && s[..8] == prefix && s[8..10] == sec && s[10..12] == min && s[12..14] == hour
            && s[14..16] == day && s[16..17] == wday && s[17..19] == month
            && s[19..19 + |year|] == year && s[19 + |year|] == AMPERSAND
  {
  }

  /** The layout of the text: nine consecutive pieces. */
  lemma TextLayout(t: Time)
    requires Calendar(t)
    ensures var s := TimeText(t);
            var year := PadLeft(Decimal(t.year), 4, SPACE);
            && |s| == 20 + |year| && s[..8] == Prefix()
            && s[8..10] == TwoDigits(t.second) && s[10..12] == TwoDigits(t.minute)
            && s[12..14] == TwoDigits(t.hour) && s[14..16] == TwoDigits(t.day)
            && s[16..17] == Decimal(t.weekday) && s[17..19] == TwoDigits(t.month)
            && s[19..19 + |year|] == year && s[19 + |year|] == AMPERSAND
  {
    TwoDigitsRoundTrip(t.second);
    TwoDigitsRoundTrip(t.minute);
    TwoDigitsRoundTrip(t.hour);
    TwoDigitsRoundTrip(t.day);
    TwoDigitsRoundTrip(t.month);
    OneDigit(t.weekday);
    PadIsClean(Decimal(t.year), 4);
    NinePieces(Prefix(), TwoDigits(t.second), TwoDigits(t.minute), TwoDigits(t.hour), TwoDigits(t.day),
               Decimal(t.weekday), TwoDigits(t.month), PadLeft(Decimal(t.year), 4, SPACE));
  }

  /** The fields at fixed places, read from a stream that begins with the message. */
  lemma FixedFieldsRoundTrip(t: Time, stream: seq<byte>)
    requires Calendar(t) && TimeText(t) <= stream
    ensures |stream| >= 19 && stream[..8] == Prefix()
    ensures Field(stream, 8, 10) == Some(t.second) && Field(stream, 10, 12) == Some(t.minute)
    ensures Field(stream, 12, 14) == Some(t.hour) && Field(stream, 14, 16) == Some(t.day)
    ensures Field(stream, 16, 17) == Some(t.weekday) && Field(stream, 17, 19) == Some(t.month)
  {
    var s := TimeText(t);
    TextLayout(t);
    assert forall i, j :: 0 <= i <= j <= |s| ==> stream[i..j] == s[i..j];
    assert stream[..8] == s[..8];
    TwoDigitsRoundTrip(t.second);
    TwoDigitsRoundTrip(t.minute);
    TwoDigitsRoundTrip(t.hour);
    TwoDigitsRoundTrip(t.day);
    DecimalRoundTrip(t.weekday);
    TwoDigitsRoundTrip(t.month);
  }

  /** The year field, from its fixed start to the first ampersand behind it. */
  lemma YearFieldLocated(t: Time, stream: seq<byte>)
    requires Calendar(t) && TimeText(t) <= stream
    ensures 20 <= |TimeText(t)| && Find(stream, AMPERSAND, 19) == |TimeText(t)| - 1
    ensures var year := SkipSpaces(stream[19..|TimeText(t)| - 1]); Field(year, 0, |year|) == Some(t.year)
  {
    TextLayout(t);
    PadIsClean(Decimal(t.year), 4);
    FieldLocated(TimeText(t), stream, PadLeft(Decimal(t.year), 4, SPACE));
    YearReads(t.year);
  }

  /** A field from position 19 to the ampersand at the end of a message. */
  lemma FieldLocated(s: seq<byte>, stream: seq<byte>, field: seq<byte>)
    requires s <= stream && |s| == 20 + |field| && s[19..19 + |field|] == field && s[19 + |field|] == AMPERSAND
    requires forall i :: 0 <= i < |field| ==> field[i] != AMPERSAND
    ensures Find(stream, AMPERSAND, 19) == |s| - 1 && stream[19..|s| - 1] == field
  {
    assert stream[19..|s| - 1] == s[19..|s| - 1];
    assert forall i :: 19 <= i < |s| - 1 ==> stream[i] == field[i - 19];
    FindStopsAt(stream, AMPERSAND, 19, |s| - 1);
  }

  lemma YearReads(n: nat)
    ensures var year := SkipSpaces(PadLeft(Decimal(n), 4, SPACE)); Field(year, 0, |year|) == Some(n)
  {
    var d := Decimal(n);
    PadRoundTrip(d, 4);
    DecimalRoundTrip(n);
    assert d[0..|d|] == d;
  }

  /** Reading back any clock message, whatever follows it in the stream, recovers every field. */
  lemma TimeRoundTrip(t: Time, rest: seq<byte>)
    requires Calendar(t)
    ensures ParseTime(TimeText(t) + rest) == Some((t, |TimeText(t)|))
  {
    var stream := TimeText(t) + rest;
    assert TimeText(t) <= stream;
    FixedFieldsRoundTrip(t, stream);
    YearFieldLocated(t, stream);
  }

  /** The text has 24 bytes exactly up to the year 9999, and always fits the local buffer with its terminator. */
  lemma TextLength(t: Time)
    requires Calendar(t)
    ensures |TimeText(t)| == 24 <==> t.year <= 9999
    ensures 24 <= |TimeText(t)| <= 30 < RUN_SIZE
  {
    TextLayout(t);
    DecimalLength(t.year, 4);
    DecimalLength(t.year, 10);
    assert Power10(4) == 10000;
    assert Power10(5) == 100000;
    assert Power10(10) == 10000000000;
  }

  /** The two bytes of the decimal number `n`. */
  predicate IsTwoDigits(s: seq<byte>, n: nat)
  {
    |s| == 2 && s[0] as int == 48 + n / 10 && s[1] as int == 48 + n % 10
  }

  /** The character of a year in its column, a space in front of the first digit. */
  function YearColumn(year: nat, unit: nat): int
    requires unit > 0
  {
    if year < unit then 32 else 48 + year / unit % 10
  }

  /** Byte by byte what the clock text is, in characters and digits, up to the year 9999. */
  lemma ClockBytes(t: Time)
    requires Calendar(t)
    ensures var s := TimeText(t);
            && |s| >= 24 && s[..8] == [65, 88, 88, 43, 84, 73, 77, 43] && s[|s| - 1] == 38
            && IsTwoDigits(s[8..10], t.second) && IsTwoDigits(s[10..12], t.minute)
            && IsTwoDigits(s[12..14], t.hour) && IsTwoDigits(s[14..16], t.day)
            && s[16] as int == 48 + t.weekday && IsTwoDigits(s[17..19], t.month)
            && (t.year <= 9999 ==>
                  && |s| == 24 && s[19] as int == YearColumn(t.year, 1000) && s[20] as int == YearColumn(t.year, 100)
                  && s[21] as int == YearColumn(t.year, 10) && s[22] as int == 48 + t.year % 10)
  {
    TextLength(t);
    TextLayout(t);
    TwoDigitsBytes(t.second);
    TwoDigitsBytes(t.minute);
    TwoDigitsBytes(t.hour);
    TwoDigitsBytes(t.day);
    TwoDigitsBytes(t.month);
    WeekdayByte(t);
    if t.year <= 9999 {
      YearBytes(t.year);
      var s, year := TimeText(t), PadLeft(Decimal(t.year), 4, SPACE);
      assert s[19..23] == year;
      assert s[19] == year[0] && s[20] == year[1] && s[21] == year[2] && s[22] == year[3];
    }
  }

  lemma WeekdayByte(t: Time)
    requires Calendar(t) && |TimeText(t)| >= 17 && TimeText(t)[16..17] == Decimal(t.weekday)
    ensures TimeText(t)[16] as int == 48 + t.weekday
  {
    assert TimeText(t)[16] == TimeText(t)[16..17][0];
  }

  lemma TwoDigitsBytes(n: nat)
    requires n < 100
    ensures IsTwoDigits(TwoDigits(n), n)
  {
    if n >= 10 {
      assert Decimal(n) == Decimal(n / 10) + [(48 + n % 10) as byte];
    }
  }

  lemma YearBytes(year: nat)
    requires year <= 9999
    ensures var s := PadLeft(Decimal(year), 4, SPACE);
            && |s| == 4 && s[0] as int == YearColumn(year, 1000) && s[1] as int == YearColumn(year, 100)
            && s[2] as int == YearColumn(year, 10) && s[3] as int == 48 + year % 10
  {
    var last := [(48 + year % 10) as byte];
    var tens := [(48 + year / 10 % 10) as byte];
    var hundreds := [(48 + year / 10 / 10 % 10) as byte];
    assert year / 10 / 10 == year / 100 && year / 10 / 10 / 10 == year / 1000;
    if year < 10 {
      assert Decimal(year) == last;
    } else if year < 100 {
      assert Decimal(year) == tens + last;
    } else if year < 1000 {
      assert Decimal(year / 10) == hundreds + tens;
      assert Decimal(year) == hundreds + tens + last;
    } else {
      assert Decimal(year / 10 / 10) == [(48 + year / 1000) as byte] + hundreds;
      assert Decimal(year / 10) == [(48 + year / 1000) as byte] + hundreds + tens;
      assert Decimal(year) == [(48 + year / 1000) as byte] + hundreds + tens + last;
    }
  }

  /** A C string never holds a zero byte, so `strlen` sees all of the text. */
  lemma TextHasNoZero(t: Time)
    requires Calendar(t)
    ensures forall i :: 0 <= i < |TimeText(t)| ==> TimeText(t)[i] != 0
  {
    var s := TimeText(t);
    assert forall i :: 0 <= i < |Prefix()| ==> Prefix()[i] != 0;
    assert forall n: nat :: forall i :: 0 <= i < |TwoDigits(n)| ==> TwoDigits(n)[i] != 0;
  }
}
