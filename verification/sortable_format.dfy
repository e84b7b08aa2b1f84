/** The ISO 8601 "sortable" date-time pattern of .NET's standard format
    string "s", `yyyy-MM-ddTHH:mm:ss`, and its exact parse with the invariant
    culture and no style flags: nineteen characters, fixed-width digit fields,
    fixed separators, no surrounding white space, and a valid date. */
module SortableFormat {

  import opened Wrappers
  import opened Calendar

  predicate IsDigit(c: char) {
    '0' <= c <= '9'
  }

  predicate AllDigits(s: string) {
    forall k :: 0 <= k < |s| ==> IsDigit(s[k])
  }

  function DigitChar(d: int): (c: char)
    requires 0 <= d <= 9
    ensures IsDigit(c)
  {
    (('0' as int) + d) as char
  }

  function DigitValue(c: char): (d: int)
    requires IsDigit(c)
    ensures 0 <= d <= 9
  {
    (c as int) - ('0' as int)
  }

  /** The number a run of decimal digits spells, most significant first. */
  function ReadNumber(s: string): nat
    requires AllDigits(s)
  {
    if s == [] then 0 else ReadNumber(s[..|s| - 1]) * 10 + DigitValue(s[|s| - 1])
  }

  /** A number below 100 in exactly two digits. */
  function Pad2(n: int): (s: string)
    requires 0 <= n < 100
    ensures |s| == 2 && AllDigits(s)
  {
    [DigitChar(n / 10), DigitChar(n % 10)]
  }

  /** A number below 10000 in exactly four digits. */
  function Pad4(n: int): (s: string)
    requires 0 <= n < 10000
    ensures |s| == 4 && AllDigits(s)
  {
    Pad2(n / 100) + Pad2(n % 100)
  }

  /** DateTime.ToString("s"). */
  function Format(p: DateParts): (s: string)
    requires ValidParts(p)
    ensures |s| == 19
  {
    var date := Pad4(p.year) + "-" + Pad2(p.month) + "-" + Pad2(p.day);
    var time := Pad2(p.hour) + ":" + Pad2(p.minute) + ":" + Pad2(p.second);
    date + "T" + time
  }

  /** The layout of the pattern: separators at fixed places, digits
      everywhere else. */
  predicate HasLayout(s: string) {
    && |s| == 19
    && s[4] == '-' && s[7] == '-' && s[10] == 'T' && s[13] == ':' && s[16] == ':'
    && AllDigits(s[0..4]) && AllDigits(s[5..7]) && AllDigits(s[8..10])
    && AllDigits(s[11..13]) && AllDigits(s[14..16]) && AllDigits(s[17..19])
  }

  /** DateTime.TryParseExact(s, "s", InvariantInfo, None): the date, or None
      where the parse fails. */
  function Parse(s: string): (r: Option<DateParts>)
    ensures r.Some? ==> ValidParts(r.value)
  {
    if !HasLayout(s) then None
    else
      var p := DateParts(
        ReadNumber(s[0..4]), ReadNumber(s[5..7]), ReadNumber(s[8..10]),
        ReadNumber(s[11..13]), ReadNumber(s[14..16]), ReadNumber(s[17..19]));
      if ValidParts(p) then Some(p) else None
  }

  // ---------------------------------------------------------------------
  // Lemmas

  lemma DigitRoundTrip(d: int, c: char)
    ensures 0 <= d <= 9 ==> DigitValue(DigitChar(d)) == d
    ensures IsDigit(c) ==> DigitChar(DigitValue(c)) == c
  {}

  lemma ReadTwoDigits(s: string)
    requires |s| == 2 && AllDigits(s)
    ensures ReadNumber(s) == 10 * DigitValue(s[0]) + DigitValue(s[1])
  {
    assert s[..1][..0] == [];
    assert ReadNumber(s[..1]) == DigitValue(s[0]);
  }

  lemma ReadFourDigits(s: string)
    requires |s| == 4 && AllDigits(s)
    ensures ReadNumber(s) == 100 * ReadNumber(s[0..2]) + ReadNumber(s[2..4])
  {
    var s3, s2 := s[..3], s[..2];
    assert s3[..2] == s2 == s[0..2];
    ReadTwoDigits(s2);
    ReadTwoDigits(s[2..4]);
    assert ReadNumber(s3) == ReadNumber(s2) * 10 + DigitValue(s[2]);
  }

  lemma Pad2RoundTrip(n: int)
    requires 0 <= n < 100
    ensures ReadNumber(Pad2(n)) == n
  {
    ReadTwoDigits(Pad2(n));
    DigitRoundTrip(n / 10, ' ');
    DigitRoundTrip(n % 10, ' ');
  }

  lemma Pad4RoundTrip(n: int)
    requires 0 <= n < 10000
    ensures ReadNumber(Pad4(n)) == n
  {
    var s := Pad4(n);
    ReadFourDigits(s);
    assert s[0..2] == Pad2(n / 100) && s[2..4] == Pad2(n % 100);
    Pad2RoundTrip(n / 100);
    Pad2RoundTrip(n % 100);
  }

  lemma ReadPad2(s: string)
    requires |s| == 2 && AllDigits(s)
    ensures ReadNumber(s) < 100
    ensures Pad2(ReadNumber(s)) == s
  {
    ReadTwoDigits(s);
    DigitRoundTrip(0, s[0]);
    DigitRoundTrip(0, s[1]);
  }

  lemma ReadPad4(s: string)
    requires |s| == 4 && AllDigits(s)
    ensures ReadNumber(s) < 10000
    ensures Pad4(ReadNumber(s)) == s
  {
    ReadFourDigits(s);
    ReadPad2(s[0..2]);
    ReadPad2(s[2..4]);
    var n := ReadNumber(s);
    assert n / 100 == ReadNumber(s[0..2]) && n % 100 == ReadNumber(s[2..4]);
    assert s == s[0..2] + s[2..4];
  }

  /** Where each field of the formatted string sits. */
  lemma FormatFields(p: DateParts)
    requires ValidParts(p)
    ensures var s := Format(p);
      && s[0..4] == Pad4(p.year) && s[5..7] == Pad2(p.month) && s[8..10] == Pad2(p.day)
      && s[11..13] == Pad2(p.hour) && s[14..16] == Pad2(p.minute) && s[17..19] == Pad2(p.second)
      && s[4] == '-' && s[7] == '-' && s[10] == 'T' && s[13] == ':' && s[16] == ':'
  {
    var date := Pad4(p.year) + "-" + Pad2(p.month) + "-" + Pad2(p.day);
    var time := Pad2(p.hour) + ":" + Pad2(p.minute) + ":" + Pad2(p.second);
    var s := Format(p);
    assert s[..10] == date && s[11..] == time;
    assert date[0..4] == Pad4(p.year) && date[5..7] == Pad2(p.month) && date[8..10] == Pad2(p.day);
    assert time[0..2] == Pad2(p.hour) && time[3..5] == Pad2(p.minute) && time[6..8] == Pad2(p.second);
  }

  /** Parsing a formatted date gives the date back. */
  lemma ParseFormat(p: DateParts)
    requires ValidParts(p)
    ensures Parse(Format(p)) == Some(p)
  {
    FormatFields(p);
    Pad4RoundTrip(p.year);
    Pad2RoundTrip(p.month);
    Pad2RoundTrip(p.day);
    Pad2RoundTrip(p.hour);
    Pad2RoundTrip(p.minute);
    Pad2RoundTrip(p.second);
  }

  /** Only the canonical spelling of a date parses: whatever parses is the
      formatting of its result. */
  lemma FormatParse(s: string)
    requires Parse(s).Some?
    ensures Format(Parse(s).value) == s
  {
    var p := Parse(s).value;
    ReadPad4(s[0..4]);
    ReadPad2(s[5..7]);
    ReadPad2(s[8..10]);
    ReadPad2(s[11..13]);
    ReadPad2(s[14..16]);
    ReadPad2(s[17..19]);
    FormatFields(p);
    var f := Format(p);
    assert forall k :: 0 <= k < 19 ==> f[k] == s[k] by {
      forall k | 0 <= k < 19
        ensures f[k] == s[k]
      {
        if k < 4 { assert f[k] == f[0..4][k] && s[k] == s[0..4][k]; }
        else if 5 <= k < 7 { assert f[k] == f[5..7][k - 5] && s[k] == s[5..7][k - 5]; }
        else if 8 <= k < 10 { assert f[k] == f[8..10][k - 8] && s[k] == s[8..10][k - 8]; }
        else if 11 <= k < 13 { assert f[k] == f[11..13][k - 11] && s[k] == s[11..13][k - 11]; }
        else if 14 <= k < 16 { assert f[k] == f[14..16][k - 14] && s[k] == s[14..16][k - 14]; }
        else if 17 <= k < 19 { assert f[k] == f[17..19][k - 17] && s[k] == s[17..19][k - 17]; }
      }
    }
  }
}
