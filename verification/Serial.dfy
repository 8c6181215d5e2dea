/** Serial numbers: the printer in the GET_INFO request (esd/src/esdcan_common.c) and the parser
    `osif_make_ntcan_serial` (esd/src/osif.c). */
module Serial {
  import opened Division
  import opened Formatting
  import Vsnprintf
  import opened Basics

  // ---------------------------------------------------------------- printing

  const SERIAL_FORMAT: CString := "%c%c%06ld"

  function SerialArgs(serial: UInt32): Args {
    (k: nat) =>
      Arg(if k == 0 then 'A' as int + serial / 0x1000_0000 % 16
          else if k == 1 then 'A' as int + serial / 0x100_0000 % 16
          else serial % 0x100_0000, None)
  }

  /** What GET_INFO reports unless the board layer has set a string of its own. */
  function PrintSerial(serial: UInt32): string {
    if serial != 0 then Format(SERIAL_FORMAT, Scan(0, 0), SerialArgs(serial)) else "N/A"
  }

  function Letter(n: nat): char
    requires n < 16
  {
    ('A' as int + n) as char
  }

  function SixDigits(low: nat): string {
    var digits := DigitsText(low, 10, false);
    Repeat('0', 6 - |digits|) + digits
  }

  lemma CharDirective(i: nat, args: Args)
    requires i == 0 || i == 2
    requires 0 <= args(i / 2).word < 256
    ensures Directive(SERIAL_FORMAT, Scan(i, i / 2), args) == ([args(i / 2).word as char], Scan(i + 2, i / 2 + 1))
  {
    var p := Scan(i + 1, i / 2);
    var c := args(i / 2).word as char;
    assert CharAt(SERIAL_FORMAT, i + 1) == 'c';
    assert ScanFlags(SERIAL_FORMAT, i + 1, NO_FLAGS) == (NO_FLAGS, i + 1);
    assert ScanWidth(SERIAL_FORMAT, p, NO_FLAGS, args) == (-1, NO_FLAGS, p);
    assert ScanPrecision(SERIAL_FORMAT, p, args) == (-1, p);
    assert Justify(false, [c], -1) == Repeat(' ', -2) + [c] == [c];
  }

  lemma NumberDirective(args: Args)
    requires 0 <= args(2).word < 0x100_0000
    ensures Directive(SERIAL_FORMAT, Scan(4, 2), args) == (SixDigits(args(2).word), Scan(9, 3))
  {
    var padded := NO_FLAGS.(zeropad := true);
    assert SERIAL_FORMAT[5..] == "06ld";
    assert CharAt(SERIAL_FORMAT, 5) == '0' && CharAt(SERIAL_FORMAT, 6) == '6';
    assert CharAt(SERIAL_FORMAT, 7) == 'l' && CharAt(SERIAL_FORMAT, 8) == 'd';
    assert ScanFlags(SERIAL_FORMAT, 6, padded) == (padded, 6);
    assert ScanFlags(SERIAL_FORMAT, 5, NO_FLAGS) == (padded, 6);
    assert Atoi(SERIAL_FORMAT, 7, 6) == (6, 7);
    assert Atoi(SERIAL_FORMAT, 6, 0) == (6, 7);
    assert ScanWidth(SERIAL_FORMAT, Scan(6, 2), padded, args) == (6, padded, Scan(7, 2));
    assert ScanPrecision(SERIAL_FORMAT, Scan(7, 2), args) == (-1, Scan(7, 2));
    assert ScanQualifier(SERIAL_FORMAT, 7) == ('l', 8);
    ZeroPadded(args(2).word);
  }

  lemma ZeroPadded(low: nat)
    requires low < 0x100_0000
    ensures IntegerArgument('l', true, low) == low
    ensures NumberText(low, 10, 6, -1, NO_FLAGS.(zeropad := true, sign := true)) == SixDigits(low)
  {
  }

  lemma FormatChar(i: nat, args: Args) returns (c: char)
    requires i == 0 || i == 2
    requires 0 <= args(i / 2).word < 256
    ensures c == args(i / 2).word as char
    ensures Format(SERIAL_FORMAT, Scan(i, i / 2), args) == [c] + Format(SERIAL_FORMAT, Scan(i + 2, i / 2 + 1), args)
  {
    c := args(i / 2).word as char;
    CharDirective(i, args);
    FormatFrom(Scan(i, i / 2), args, [c], Scan(i + 2, i / 2 + 1));
  }

  lemma FormatNumber(args: Args)
    requires 0 <= args(2).word < 0x100_0000
    ensures Format(SERIAL_FORMAT, Scan(4, 2), args) == SixDigits(args(2).word)
  {
    NumberDirective(args);
    FormatFrom(Scan(4, 2), args, SixDigits(args(2).word), Scan(9, 3));
    FormatEnds(Scan(9, 3), args);
    assert SixDigits(args(2).word) + "" == SixDigits(args(2).word);
  }

  lemma FormatEnds(p: Scan, args: Args)
    requires p.i >= 9
    ensures Format(SERIAL_FORMAT, p, args) == ""
  {
  }

  lemma Joined(x: string, c0: char, y: string, c1: char, z: string)
    requires x == [c0] + y && y == [c1] + z
    ensures x == [c0, c1] + z
  {
  }

  lemma FormatSerial(args: Args)
    requires 0 <= args(0).word < 256 && 0 <= args(1).word < 256 && 0 <= args(2).word < 0x100_0000
    ensures Format(SERIAL_FORMAT, Scan(0, 0), args)
         == [args(0).word as char, args(1).word as char] + SixDigits(args(2).word)
  {
    var c0 := FormatChar(0, args);
    var c1 := FormatChar(2, args);
    FormatNumber(args);
    Joined(Format(SERIAL_FORMAT, Scan(0, 0), args), c0, Format(SERIAL_FORMAT, Scan(2, 1), args), c1,
           Format(SERIAL_FORMAT, Scan(4, 2), args));
  }

  /** The printed form: two letters and the low 24 bits in decimal, with at least six digits. */
  function SerialText(serial: UInt32): string {
    if serial != 0
    then [Letter(serial / 0x1000_0000), Letter(serial / 0x100_0000 % 16)] + SixDigits(serial % 0x100_0000)
    else "N/A"
  }

  /** A serial prints as two letters and its low part, and fits the 16 characters of the buffer with its NUL. */
  lemma PrintedForm(serial: UInt32)
    ensures PrintSerial(serial) == SerialText(serial)
    ensures |PrintSerial(serial)| <= 10
  {
    if serial != 0 {
      SerialWords(serial);
      FormatSerial(SerialArgs(serial));
      assert Power10(4) == 10000 && Power10(8) == 100000000;
      DecimalsAreFew(serial % 0x100_0000, 8);
    }
  }

  function Power10(k: nat): nat {
    if k == 0 then 1 else 10 * Power10(k - 1)
  }

  lemma {:induction false} DecimalsAreFew(m: nat, k: nat)
    requires k >= 1 && m < Power10(k)
    ensures |DigitsText(m, 10, false)| <= k
  {
    if m >= 10 {
      DecimalsAreFew(m / 10, k - 1);
    }
  }

  const NO_SERIAL: CString := "N/A"

  lemma FormatOfNoSerial(args: Args)
    ensures Format(NO_SERIAL, Scan(0, 0), args) == "N/A"
  {
    assert Format(NO_SERIAL, Scan(3, 0), args) == "";
    assert Format(NO_SERIAL, Scan(2, 0), args) == "A";
    assert Format(NO_SERIAL, Scan(1, 0), args) == "/A";
  }

  /** What GET_INFO does with the string of its reply: the printed form gets in whole, with a NUL behind it. */
  method FillSerialString(buf: array<char>, serial: UInt32)
    requires buf.Length == 16
    modifies buf
    ensures var text := PrintSerial(serial); |text| < 16 && buf[..|text|] == text && buf[|text|] == '\0'
  {
    PrintedForm(serial);
    var len;
    if serial != 0 {
      len := Vsnprintf.Vsnprintf(buf, 16, SERIAL_FORMAT, SerialArgs(serial));
    } else {
      FormatOfNoSerial(SerialArgs(0));
      len := Vsnprintf.Vsnprintf(buf, 16, NO_SERIAL, SerialArgs(0));
    }
  }

  lemma SerialWords(serial: UInt32)
    ensures var args := SerialArgs(serial);
            && 0 <= args(0).word < 256 && args(0).word as char == Letter(serial / 0x1000_0000)
            && 0 <= args(1).word < 256 && args(1).word as char == Letter(serial / 0x100_0000 % 16)
            && args(2).word == serial % 0x100_0000
  {
  }

  lemma FormatFrom(p: Scan, args: Args, text: string, q: Scan)
    requires p.i < 9 && SERIAL_FORMAT[p.i] == '%' && Directive(SERIAL_FORMAT, p, args) == (text, q)
    ensures Format(SERIAL_FORMAT, p, args) == text + Format(SERIAL_FORMAT, q, args)
  {
  }

  // ---------------------------------------------------------------- parsing

  /** simple_strtoul in base 10: the digits up to the first other character, in 64 bits. */
  function StrToUl(s: CString, i: nat, acc: UInt64): UInt64
    decreases |s| - i
  {
    if IsDigit(CharAt(s, i)) then StrToUl(s, i + 1, Truncate64(acc * 10 + s[i] as nat - '0' as nat)) else acc
  }

  /** Bitwise or. */
  function BitOr(x: nat, y: nat): nat {
    if x == 0 then y else if y == 0 then x
    else 2 * BitOr(x / 2, y / 2) + if x % 2 == 1 || y % 2 == 1 then 1 else 0
  }

  predicate IsLetter(c: char) { 'A' <= c <= 'P' }

  function ParseSerial(s: CString): nat {
    if IsLetter(CharAt(s, 0)) && IsLetter(CharAt(s, 1)) then
      var temp := (s[0] as nat - 'A' as nat) * 0x1000_0000 + (s[1] as nat - 'A' as nat) * 0x100_0000;
      BitOr(Truncate32(StrToUl(s, 2, 0)), temp)
    else 0
  }

  lemma OrWithEven(x: nat, y: nat, z: nat)
    requires z == 2 * y
    ensures BitOr(x, z) == 2 * BitOr(x / 2, y) + x % 2
  {
  }

  lemma {:induction false} OrOfDisjoint(low: nat, high: nat, k: nat)
    requires low < Pow2(k)
    ensures BitOr(low, high * Pow2(k)) == low + high * Pow2(k)
  {
    if k > 0 {
      OrOfDisjoint(low / 2, high, k - 1);
      Doubled(high, Pow2(k - 1), Pow2(k));
      var h: nat, g: nat := high * Pow2(k - 1), high * Pow2(k);
      OrWithEven(low, h, g);
    }
  }

  lemma ReadsOne(s: CString, i: nat, acc: UInt64, c: char)
    requires i < |s| && s[i] == c && IsDigit(c) && acc * 10 + DigitValue(c) < TWO_64
    ensures StrToUl(s, i, acc) == StrToUl(s, i + 1, acc * 10 + DigitValue(c))
  {
  }

  /** Reading the digits `d` that end the string: after `j` of them the accumulator is the value of these. */
  lemma {:induction false} StrToUlIsValue(s: CString, d: string, j: nat, acc: UInt64)
    requires j <= |d| <= |s| && s[|s| - |d|..] == d && AllDigits(d) && Value(d, 10) < TWO_64
    requires acc == Value(d[..j], 10)
    ensures StrToUl(s, |s| - |d| + j, acc) == Value(d, 10)
    decreases |d| - j
  {
    if j < |d| {
      var c := d[j];
      assert s[|s| - |d| + j] == c;
      assert d[..j + 1] == d[..j] + [c];
      ValueAppend(d[..j], c, 10);
      ValueGrows(d, j + 1);
      ReadsOne(s, |s| - |d| + j, acc, c);
      StrToUlIsValue(s, d, j + 1, acc * 10 + DigitValue(c));
    } else {
      assert d[..j] == d;
    }
  }

  /** Two letters and digits of value below 2^24: no bits overlap. */
  lemma ParsedForm(s: CString)
    requires |s| > 2 && IsLetter(s[0]) && IsLetter(s[1]) && AllDigits(s[2..]) && Value(s[2..], 10) < 0x100_0000
    ensures ParseSerial(s)
         == (s[0] as nat - 'A' as nat) * 0x1000_0000 + (s[1] as nat - 'A' as nat) * 0x100_0000 + Value(s[2..], 10)
  {
    StrToUlReadsTail(s);
    NoBitsOverlap(s[0] as nat - 'A' as nat, s[1] as nat - 'A' as nat, Value(s[2..], 10));
  }

  lemma StrToUlReadsTail(s: CString)
    requires |s| > 2 && AllDigits(s[2..]) && Value(s[2..], 10) < TWO_64
    ensures StrToUl(s, 2, 0) == Value(s[2..], 10)
  {
    assert s[2..][..0] == "";
    StrToUlIsValue(s, s[2..], 0, 0);
  }

  lemma NoBitsOverlap(a: nat, b: nat, low: nat)
    requires low < 0x100_0000
    ensures BitOr(low, a * 0x1000_0000 + b * 0x100_0000) == a * 0x1000_0000 + b * 0x100_0000 + low
  {
    Pow2Of24();
    OrOfDisjoint(low, a * 16 + b, 24);
  }

  lemma Pow2Of24()
    ensures Pow2(24) == 0x100_0000
  {
    assert Pow2(8) == 0x100;
    Pow2Splits(8, 8);
    Pow2Splits(16, 8);
  }

  lemma SixDigitsMean(low: nat)
    ensures AllDigits(SixDigits(low)) && Value(SixDigits(low), 10) == low
  {
    DecimalDigits(low, false);
    DigitsEvaluate(low, 10, false);
    LeadingZeros(Max(6 - |DigitsText(low, 10, false)|, 0), DigitsText(low, 10, false));
  }

  lemma ParseOfText(serial: UInt32)
    ensures '\0' !in SerialText(serial) && ParseSerial(SerialText(serial)) == serial
  {
    if serial != 0 {
      var c0, c1, low := Letter(serial / 0x1000_0000), Letter(serial / 0x100_0000 % 16), serial % 0x100_0000;
      var s := [c0, c1] + SixDigits(low);
      SixDigitsMean(low);
      assert s[2..] == SixDigits(low);
      assert '\0' !in SixDigits(low);
      ParsedForm(s);
      LettersAndLow(serial);
    }
  }

  /** Parsing what was printed gives back every serial number, also 0 and those whose low part needs more than six
      digits. */
  lemma ParseOfPrint(serial: UInt32)
    ensures '\0' !in PrintSerial(serial)
    ensures ParseSerial(PrintSerial(serial)) == serial
  {
    PrintedForm(serial);
    ParseOfText(serial);
  }

  lemma LettersAndLow(serial: UInt32)
    ensures serial == serial / 0x1000_0000 * 0x1000_0000 + serial / 0x100_0000 % 16 * 0x100_0000 + serial % 0x100_0000
  {
  }

  /** A digit string is the zero-padded form of its value. */
  lemma {:induction false} PaddedFormIsUnique(s: string)
    requires s != "" && AllDigits(s)
    ensures var d := DigitsText(Value(s, 10), 10, false);
            |d| <= |s| && s == Repeat('0', |s| - |d|) + d
  {
    var t, c := s[..|s| - 1], s[|s| - 1];
    var v := DigitValue(c);
    assert s == t + [c] && Digit(v, false) == c;
    if t == "" {
      assert Value(t, 10) == 0;
    } else {
      PaddedFormIsUnique(t);
      var d := DigitsText(Value(t, 10), 10, false);
      if Value(t, 10) == 0 {
        assert d == "0";
        assert t == Repeat('0', |t|);
      } else {
        DivisionIsUnique(Value(s, 10), 10, Value(t, 10), v);
        assert DigitsText(Value(s, 10), 10, false) == d + [c];
      }
    }
  }

  lemma {:induction false} ValueBelow(s: string, bound: nat)
    requires AllDigits(s) && bound == Power10(|s|)
    ensures Value(s, 10) < bound
  {
    if s != "" {
      ValueBelow(s[..|s| - 1], Power10(|s| - 1));
    }
  }

  lemma PartsOf(a: nat, b: nat, low: nat)
    requires a < 16 && b < 16 && low < 0x100_0000
    ensures var serial := a * 0x1000_0000 + b * 0x100_0000 + low;
            && serial < TWO_32 && serial / 0x1000_0000 == a && serial / 0x100_0000 % 16 == b
            && serial % 0x100_0000 == low
  {
  }

  lemma SixDigitsAreUnique(low: string)
    requires |low| == 6 && AllDigits(low)
    ensures Value(low, 10) < 0x100_0000 && low == SixDigits(Value(low, 10))
  {
    assert Power10(3) == 1000 && Power10(6) == 1000000;
    ValueBelow(low, 1000000);
    PaddedFormIsUnique(low);
  }

  lemma TextOfParts(a: nat, b: nat, low: nat)
    requires a < 16 && b < 16 && low < 0x100_0000
    ensures var serial, s := a * 0x1000_0000 + b * 0x100_0000 + low, [Letter(a), Letter(b)] + SixDigits(low);
            serial < TWO_32 && SerialText(serial) == if s == "AA000000" then "N/A" else s
  {
    PartsOf(a, b, low);
    var s := [Letter(a), Letter(b)] + SixDigits(low);
    SixDigitsOfZero();
    if s == "AA000000" {
      assert s[0] == 'A' && s[1] == 'A' && s[2..] == SixDigits(low);
      SixDigitsMean(low);
      ZerosHaveNoValue();
    }
  }

  lemma TextOfParse(s: CString)
    requires |s| == 8 && IsLetter(s[0]) && IsLetter(s[1]) && AllDigits(s[2..])
    ensures ParseSerial(s) < TWO_32
    ensures SerialText(ParseSerial(s)) == if s == "AA000000" then "N/A" else s
  {
    var a, b, low := s[0] as nat - 'A' as nat, s[1] as nat - 'A' as nat, Value(s[2..], 10);
    SixDigitsAreUnique(s[2..]);
    ParsedForm(s);
    TextOfParts(a, b, low);
    assert s == [Letter(a), Letter(b)] + SixDigits(low);
  }

  /** Printing what was parsed gives back every string of two letters A..P and six digits, except the one that stands
      for "no serial number". */
  lemma PrintOfParse(s: CString)
    requires |s| == 8 && IsLetter(s[0]) && IsLetter(s[1]) && AllDigits(s[2..])
    ensures ParseSerial(s) < TWO_32
    ensures PrintSerial(ParseSerial(s)) == if s == "AA000000" then "N/A" else s
  {
    TextOfParse(s);
    PrintedForm(ParseSerial(s));
  }

  lemma SixDigitsOfZero()
    ensures [Letter(0), Letter(0)] + SixDigits(0) == "AA000000"
  {
  }

  lemma ZerosHaveNoValue()
    ensures "AA000000"[2..] == "000000" && Value("000000", 10) == 0
  {
    LeadingZeros(6, "");
    assert Repeat('0', 6) + "" == "000000";
  }
}
