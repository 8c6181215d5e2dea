/** The formatted output of esd/src/osif.c: `number`, `skip_atoi` and `osif_vsnprintf`. This module says what
    text a format stands for; module Vsnprintf is the code that writes it into a bounded buffer. */
module Formatting {
  import opened Division
  import opened Basics

  /** A C string: what precedes the terminating NUL. */
  type CString = s: string | '\0' !in s witness ""

  /** One variable argument: the machine word it holds and the string it points to, if any. */
  datatype Arg = Arg(word: int, text: Option<CString>)
  type Args = nat -> Arg

  datatype Flags = Flags(zeropad: bool, sign: bool, plus: bool, space: bool, left: bool, special: bool, large: bool)
  const NO_FLAGS := Flags(false, false, false, false, false, false, false)

  const POINTER_BYTES := 8
  type Int64 = x: int | -TWO_63 <= x < TWO_63

  /** A word cut down to a power of two and read as signed or unsigned. */
  function Wrap(word: int, modulus: int, signed: bool): (r: int)
    requires modulus > 0 && modulus % 2 == 0
    ensures signed ==> -(modulus / 2) <= r < modulus / 2
    ensures !signed ==> 0 <= r < modulus
  {
    var u := word % modulus;
    if signed && u >= modulus / 2 then u - modulus else u
  }

  function CharAt(s: CString, i: nat): char {
    if i < |s| then s[i] else '\0'
  }

  function Repeat(c: char, n: int): (s: string)
    ensures |s| == Max(n, 0) && forall i | 0 <= i < |s| :: s[i] == c
  {
    seq(Max(n, 0), _ => c)
  }

  function Justify(left: bool, body: string, width: int): string {
    if left then body + Repeat(' ', width - |body|) else Repeat(' ', width - |body|) + body
  }

  // ---------------------------------------------------------------- numbers

  function Digit(d: nat, large: bool): char
    requires d < 36
  {
    if d < 10 then ('0' as int + d) as char
    else if large then ('A' as int + d - 10) as char
    else ('a' as int + d - 10) as char
  }

  function DigitsText(m: nat, base: nat, large: bool): string
    requires 2 <= base <= 36
  {
    if m < base then [Digit(m, large)]
    else
      QuotientShrinks(m, base);
      DigitsText(m / base, base, large) + [Digit(m % base, large)]
  }

  /** The magnitude `do_div` works on: negative numbers are negated if the conversion is signed, and read as
      unsigned otherwise. */
  function Magnitude(num: Int64, signed: bool): UInt64 {
    var n: int := num;
    if n >= 0 then n else if signed then -n else n + TWO_64
  }

  function SignText(num: Int64, f: Flags): string {
    if !f.sign then ""
    else if num < 0 then "-"
    else if f.plus then "+"
    else if f.space then " "
    else ""
  }

  function PrefixText(base: nat, f: Flags): string {
    if !f.special then ""
    else if base == 16 then ['0', Digit(33, f.large)]
    else if base == 8 then "0"
    else ""
  }

  function NumberText(num: Int64, base: nat, size: int, precision: int, f: Flags): string
    requires 2 <= base <= 36
  {
    var head := SignText(num, f) + PrefixText(base, f);
    var digits := DigitsText(Magnitude(num, f.sign), base, f.large);
    var body := Repeat('0', precision - |digits|) + digits;
    if f.zeropad && !f.left
    then head + Repeat('0', size - |head| - |body|) + body
    else Justify(f.left, head + body, size)
  }

  // ---------------------------------------------------------------- conversions

  function IsDigit(c: char): bool { '0' <= c <= '9' }

  /** skip_atoi: the number read and the index behind it. */
  function Atoi(s: CString, i: nat, acc: nat): (nat, nat)
    decreases |s| - i
  {
    if IsDigit(CharAt(s, i)) then Atoi(s, i + 1, acc * 10 + (s[i] as int) - ('0' as int)) else (acc, i)
  }

  function ScanFlags(fmt: CString, i: nat, f: Flags): (Flags, nat)
    decreases |fmt| - i
  {
    var c := CharAt(fmt, i);
    if c == '-' then ScanFlags(fmt, i + 1, f.(left := true))
    else if c == '+' then ScanFlags(fmt, i + 1, f.(plus := true))
    else if c == ' ' then ScanFlags(fmt, i + 1, f.(space := true))
    else if c == '#' then ScanFlags(fmt, i + 1, f.(special := true))
    else if c == '0' then ScanFlags(fmt, i + 1, f.(zeropad := true))
    else (f, i)
  }

  /** The position reached in the format and the number of arguments consumed. */
  datatype Scan = Scan(i: nat, k: nat)

  function ScanWidth(fmt: CString, p: Scan, f: Flags, args: Args): (int, Flags, Scan) {
    var c := CharAt(fmt, p.i);
    if IsDigit(c) then
      var (w, j) := Atoi(fmt, p.i, 0);
      (w, f, Scan(j, p.k))
    else if c == '*' then
      var w := Wrap(args(p.k).word, TWO_32, true);
      if w < 0 then (-w, f.(left := true), Scan(p.i + 1, p.k + 1)) else (w, f, Scan(p.i + 1, p.k + 1))
    else (-1, f, p)
  }

  function ScanPrecision(fmt: CString, p: Scan, args: Args): (int, Scan) {
    if CharAt(fmt, p.i) != '.' then (-1, p)
    else
      var c := CharAt(fmt, p.i + 1);
      if IsDigit(c) then
        var (w, j) := Atoi(fmt, p.i + 1, 0);
        (w, Scan(j, p.k))
      else if c == '*' then
        (Max(Wrap(args(p.k).word, TWO_32, true), 0), Scan(p.i + 2, p.k + 1))
      else (0, Scan(p.i + 1, p.k))
  }

  /** The qualifier, '\0' for none; "ll" counts as 'L'. */
  function ScanQualifier(fmt: CString, i: nat): (char, nat) {
    var c := CharAt(fmt, i);
    if c == 'h' || c == 'L' || c == 'Z' then (c, i + 1)
    else if c == 'l' then if CharAt(fmt, i + 1) == 'l' then ('L', i + 2) else ('l', i + 1)
    else ('\0', i)
  }

  function IntegerArgument(qualifier: char, signed: bool, word: int): Int64 {
    if qualifier == 'L' || qualifier == 'Z' then Wrap(word, TWO_64, true)
    else if qualifier == 'h' then Wrap(word, 0x1_0000, signed)
    else Wrap(word, TWO_32, signed)
  }

  function IsInteger(c: char): bool {
    c == 'o' || c == 'x' || c == 'X' || c == 'd' || c == 'i' || c == 'u'
  }

  function Base(c: char): nat {
    if c == 'o' then 8 else if c == 'x' || c == 'X' then 16 else 10
  }

  /** What the conversion character `c` prints, and how many arguments it takes. */
  function Converted(c: char, f: Flags, width: int, precision: int, qualifier: char, arg: Arg): (string, nat) {
    if c == 'c' then (Justify(f.left, [Wrap(arg.word, 256, false) as char], width), 1)
    else if c == 's' then
      var s: string := if arg.text.None? then "<NULL>" else arg.text.value;
      (Justify(f.left, if 0 <= precision < |s| then s[..precision] else s, width), 1)
    else if c == 'p' then
      (NumberText(Wrap(arg.word, TWO_32, true), 16, if width == -1 then 2 * POINTER_BYTES else width, precision,
                  if width == -1 then f.(zeropad := true) else f), 1)
    else if c == 'n' then ("", 1)
    else if c == '%' then ("%", 0)
    else if IsInteger(c) then
      var f' := f.(sign := c == 'd' || c == 'i', large := c == 'X');
      (NumberText(IntegerArgument(qualifier, f'.sign, arg.word), Base(c), width, precision, f'), 1)
    else if c == '\0' then ("%", 0)
    else (['%', c], 0)
  }

  /** What has been read of a directive in front of its conversion character; the argument of that is `k`. */
  datatype Reading = Reading(f: Flags, width: int, precision: int, qualifier: char, k: nat)

  /** Flags and width of the directive at `p`, and where they end. */
  function ReadFront(fmt: CString, p: Scan, args: Args): (int, Flags, Scan) {
    var (f, i) := ScanFlags(fmt, p.i + 1, NO_FLAGS);
    ScanWidth(fmt, Scan(i, p.k), f, args)
  }

  /** Precision and qualifier, and where they end. */
  function ReadBack(fmt: CString, p: Scan, args: Args): (int, char, Scan) {
    var (precision, p') := ScanPrecision(fmt, p, args);
    var (qualifier, j) := ScanQualifier(fmt, p'.i);
    (precision, qualifier, Scan(j, p'.k))
  }

  /** The reading and where the conversion character is. */
  function Read(fmt: CString, p: Scan, args: Args): (Reading, nat) {
    var (width, f, p1) := ReadFront(fmt, p, args);
    var (precision, qualifier, p2) := ReadBack(fmt, p1, args);
    (Reading(f, width, precision, qualifier, p2.k), p2.i)
  }

  function ConvertedAs(c: char, r: Reading, args: Args): (string, nat) {
    Converted(c, r.f, r.width, r.precision, r.qualifier, args(r.k))
  }

  /** The directive whose '%' is at `p.i`: its text and where to go on. */
  function Directive(fmt: CString, p: Scan, args: Args): (r: (string, Scan))
    requires p.i < |fmt|
  {
    var (r, j) := Read(fmt, p, args);
    var c := CharAt(fmt, j);
    var (text, taken) := ConvertedAs(c, r, args);
    (text, Scan(if c == '\0' then j else j + 1, r.k + taken))
  }

  /** The untruncated output of the format from `p` on. */
  function Format(fmt: CString, p: Scan, args: Args): string
    decreases |fmt| - p.i
  {
    if p.i >= |fmt| then ""
    else if fmt[p.i] != '%' then [fmt[p.i]] + Format(fmt, Scan(p.i + 1, p.k), args)
    else
      DirectiveAdvances(fmt, p, args);
      var (text, p') := Directive(fmt, p, args);
      text + Format(fmt, p', args)
  }

  lemma {:induction false} ScanFlagsAdvances(fmt: CString, i: nat, f: Flags)
    ensures i <= ScanFlags(fmt, i, f).1
    ensures i <= |fmt| ==> ScanFlags(fmt, i, f).1 <= |fmt|
    decreases |fmt| - i
  {
    var c := CharAt(fmt, i);
    if i < |fmt| && (c == '-' || c == '+' || c == ' ' || c == '#' || c == '0') {
      ScanFlagsAdvances(fmt, i + 1, ScanFlagsOne(c, f));
    }
  }

  function ScanFlagsOne(c: char, f: Flags): Flags {
    if c == '-' then f.(left := true)
    else if c == '+' then f.(plus := true)
    else if c == ' ' then f.(space := true)
    else if c == '#' then f.(special := true)
    else f.(zeropad := true)
  }

  lemma {:induction false} AtoiAdvances(s: CString, i: nat, acc: nat)
    ensures i <= Atoi(s, i, acc).1
    ensures i <= |s| ==> Atoi(s, i, acc).1 <= |s|
    decreases |s| - i
  {
    if IsDigit(CharAt(s, i)) {
      AtoiAdvances(s, i + 1, acc * 10 + (s[i] as int) - ('0' as int));
    }
  }

  /** A directive always moves forward and never past the end, even one the format ends inside. */
  lemma DirectiveAdvances(fmt: CString, p: Scan, args: Args)
    requires p.i < |fmt|
    ensures p.i < Directive(fmt, p, args).1.i <= |fmt|
  {
    var (f, i) := ScanFlags(fmt, p.i + 1, NO_FLAGS);
    ScanFlagsAdvances(fmt, p.i + 1, NO_FLAGS);
    AtoiAdvances(fmt, i, 0);
    var (width, f', p1) := ScanWidth(fmt, Scan(i, p.k), f, args);
    AtoiAdvances(fmt, p1.i + 1, 0);
  }

  // ---------------------------------------------------------------- what a number's text means

  function DigitValue(c: char): nat {
    if '0' <= c <= '9' then c as nat - '0' as nat
    else if 'a' <= c <= 'z' then c as nat - 'a' as nat + 10
    else if 'A' <= c <= 'Z' then c as nat - 'A' as nat + 10
    else 0
  }

  /** The value of a digit string. */
  function Value(s: string, base: nat): nat {
    if s == "" then 0 else Value(s[..|s| - 1], base) * base + DigitValue(s[|s| - 1])
  }

  lemma DigitHasValue(d: nat, large: bool)
    requires d < 36
    ensures DigitValue(Digit(d, large)) == d
    ensures d < 10 ==> Digit(d, large) == ('0' as nat + d) as char
  {
  }

  lemma ValueAppend(s: string, c: char, base: nat)
    ensures Value(s + [c], base) == Value(s, base) * base + DigitValue(c)
  {
  }

  /** The digits evaluate back to the magnitude, in every base. */
  lemma {:induction false} DigitsEvaluate(m: nat, base: nat, large: bool)
    requires 2 <= base <= 36
    ensures Value(DigitsText(m, base, large), base) == m
  {
    if m < base {
      ValueAppend("", Digit(m, large), base);
      DigitHasValue(m, large);
    } else {
      var q, r := Euclid(m, base);
      FactorAtMostProduct(q, base - 1);
      DigitsEvaluate(q, base, large);
      DigitHasValue(r, large);
      ValueAppend(DigitsText(q, base, large), Digit(r, large), base);
    }
  }

  /** A magnitude below 2^k has at most k digits; the code's buffer of 66 characters is never exceeded. */
  lemma {:induction false} DigitsAreFew(m: nat, base: nat, large: bool, k: nat)
    requires 2 <= base <= 36 && k >= 1 && m < Pow2(k)
    ensures 1 <= |DigitsText(m, base, large)| <= k
  {
    if m >= base {
      assert m / base <= m / 2 by { QuotientShrinks(m, base); }
      DigitsAreFew(m / base, base, large, k - 1);
    }
  }

  lemma QuotientShrinks(m: nat, base: nat)
    requires base >= 2
    ensures m / base <= m / 2
  {
    var q, r := Euclid(m, base);
    MulMonotone(2, base, q);
  }

  /** The length of a printed number: the field width, or sign, prefix and digits if these are longer. */
  lemma NumberLength(num: Int64, base: nat, size: int, precision: int, f: Flags)
    requires 2 <= base <= 36
    ensures var digits := |DigitsText(Magnitude(num, f.sign), base, f.large)|;
            && 1 <= digits <= 64
            && |NumberText(num, base, size, precision, f)|
               == Max(size, |SignText(num, f)| + |PrefixText(base, f)| + Max(digits, precision))
  {
    FewerThan65(Magnitude(num, f.sign), base, f.large);
  }

  lemma FewerThan65(m: UInt64, base: nat, large: bool)
    requires 2 <= base <= 36
    ensures 1 <= |DigitsText(m, base, large)| <= 64
    ensures m == 0 ==> DigitsText(m, base, large) == "0"
  {
    Pow2Of32();
    Pow2Splits(32, 32);
    DigitsAreFew(m, base, large, 64);
  }

  // ---------------------------------------------------------------- reading a printed number back

  ghost predicate AllDigits(s: string) {
    forall i | 0 <= i < |s| :: IsDigit(s[i])
  }

  lemma {:induction false} DecimalDigits(m: nat, large: bool)
    ensures AllDigits(DigitsText(m, 10, large))
  {
    if m < 10 {
      DigitHasValue(m, large);
    } else {
      DecimalDigits(m / 10, large);
      DigitHasValue(m % 10, large);
    }
  }

  /** skip_atoi on a string that ends with digits from `i` on: Horner's rule from the left is Value. */
  lemma {:induction false} AtoiIsValue(s: CString, i: nat)
    requires i <= |s| && AllDigits(s)
    ensures Atoi(s, i, Value(s[..i], 10)) == (Value(s, 10), |s|)
    decreases |s| - i
  {
    if i < |s| {
      assert s[..i + 1][..i] == s[..i];
      AtoiIsValue(s, i + 1);
    } else {
      assert s[..i] == s;
    }
  }

  lemma {:induction false} LeadingZeros(n: nat, s: string)
    ensures Value(Repeat('0', n) + s, 10) == Value(s, 10)
    decreases |s| + n
  {
    var t := Repeat('0', n) + s;
    if s != "" {
      LeadingZeros(n, s[..|s| - 1]);
      assert t[..|t| - 1] == Repeat('0', n) + s[..|s| - 1];
    } else if n > 0 {
      LeadingZeros(n - 1, s);
      assert t[..n - 1] == Repeat('0', n - 1) + s;
    }
  }

  /** The largest value an intermediate of skip_atoi reaches: each turn adds the character before it takes '0' off. */
  function AtoiPeak(s: CString, i: nat, acc: nat): nat
    decreases |s| - i
  {
    if IsDigit(CharAt(s, i))
    then Max(acc * 10 + s[i] as nat, AtoiPeak(s, i + 1, acc * 10 + s[i] as nat - '0' as nat))
    else 0
  }

  lemma {:induction false} PeakIsLast(s: CString, i: nat)
    requires i < |s| && AllDigits(s)
    ensures AtoiPeak(s, i, Value(s[..i], 10)) == Value(s, 10) + 48
    decreases |s| - i
  {
    var acc := Value(s[..i], 10);
    assert s[..i + 1][..i] == s[..i];
    if i + 1 < |s| {
      PeakIsLast(s, i + 1);
      ValueGrows(s, i + 1);
    } else {
      assert s[..i + 1] == s;
      assert AtoiPeak(s, i + 1, Value(s, 10)) == 0;
    }
  }

  lemma {:induction false} ValueGrows(s: string, i: nat)
    requires i <= |s|
    ensures Value(s[..i], 10) <= Value(s, 10)
  {
    if i < |s| {
      ValueGrows(s[..|s| - 1], i);
      assert s[..|s| - 1][..i] == s[..i];
    } else {
      assert s[..i] == s;
    }
  }

  lemma MoreZeros(a: int, b: int, digits: string) returns (zeros: nat)
    ensures Repeat('0', a) + (Repeat('0', b) + digits) == Repeat('0', zeros) + digits
  {
    zeros := Max(a, 0) + Max(b, 0);
  }

  lemma JustifyFits(left: bool, body: string, width: int)
    requires width <= |body|
    ensures Justify(left, body, width) == body
  {
  }

  lemma BlankFree(n: Int64, size: int, precision: int, f: Flags) returns (zeros: nat)
    requires n >= 0 && !f.sign
    requires (f.zeropad && !f.left) || size <= Max(|DigitsText(n, 10, f.large)|, precision)
    ensures NumberText(n, 10, size, precision, f) == Repeat('0', zeros) + DigitsText(n, 10, f.large)
  {
    var digits := DigitsText(n, 10, f.large);
    var body := Repeat('0', precision - |digits|) + digits;
    assert "" + "" + body == body;
    if f.zeropad && !f.left {
      zeros := MoreZeros(size - |body|, precision - |digits|, digits);
    } else {
      JustifyFits(f.left, body, size);
      zeros := MoreZeros(0, precision - |digits|, digits);
    }
  }

  lemma DigitsReadBack(s: CString)
    requires s != "" && AllDigits(s)
    ensures Atoi(s, 0, 0) == (Value(s, 10), |s|) && AtoiPeak(s, 0, 0) == Value(s, 10) + 48
  {
    assert s[..0] == "";
    AtoiIsValue(s, 0);
    PeakIsLast(s, 0);
  }

  /** skip_atoi reads back every number printed unsigned in base 10 without blanks, and it stays within 32 bits
      exactly for numbers up to 2^31 - 49. */
  lemma AtoiReadsNumber(n: Int64, size: int, precision: int, f: Flags)
    requires n >= 0 && !f.sign
    requires (f.zeropad && !f.left) || size <= Max(|DigitsText(n, 10, f.large)|, precision)
    ensures var s := NumberText(n, 10, size, precision, f);
            && '\0' !in s
            && Atoi(s, 0, 0) == (n, |s|)
            && (AtoiPeak(s, 0, 0) < 0x8000_0000 <==> n <= 0x8000_0000 - 49)
  {
    var zeros := BlankFree(n, size, precision, f);
    PaddedDigitsReadBack(n, zeros, f.large);
  }

  lemma PaddedDigitsReadBack(n: nat, zeros: nat, large: bool)
    ensures var s := Repeat('0', zeros) + DigitsText(n, 10, large);
            '\0' !in s && Atoi(s, 0, 0) == (n, |s|) && AtoiPeak(s, 0, 0) == n + 48
  {
    var digits := DigitsText(n, 10, large);
    DecimalDigits(n, large);
    DigitsEvaluate(n, 10, large);
    LeadingZeros(zeros, digits);
    DigitsReadBack(Repeat('0', zeros) + digits);
  }
}
