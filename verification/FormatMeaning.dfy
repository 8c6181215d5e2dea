/** What the output of a format means: how its directives are read, what value an integer conversion shows and how it
    is laid out. Nothing here repeats how the text is made; values are read off the digits. */
module FormatMeaning {
  import opened Division
  import opened Formatting
  import opened Basics

  // ---------------------------------------------------------------- arguments

  function Shifted(word: int, q: int, modulus: int): int {
    word + q * modulus
  }

  /** `v` is the word read as a signed or unsigned number of the width that has `modulus` values: it is in the range of
      such numbers and differs from the word by a multiple of `modulus`. */
  ghost predicate IsArgument(v: int, word: int, modulus: int, signed: bool) {
    && (exists q: int :: v == Shifted(word, q, modulus))
    && if signed then -modulus <= 2 * v < modulus else 0 <= v < modulus
  }

  lemma WrapReads(word: int, modulus: int, signed: bool)
    requires modulus > 0 && modulus % 2 == 0
    ensures IsArgument(Wrap(word, modulus, signed), word, modulus, signed)
  {
    var q := word / modulus;
    RemainderIs(word, modulus, q);
    assert word % modulus == Shifted(word, -q, modulus);
    assert word % modulus - modulus == Shifted(word, -q - 1, modulus);
  }

  lemma RemainderIs(word: int, m: int, q: int)
    requires m > 0 && q == word / m
    ensures word % m == word + -q * m && word % m - m == word + (-q - 1) * m
  {
  }

  /** The number of values an integer argument can have: 16 bits for h, 64 for L, ll and Z, else 32. */
  function Values(qualifier: char): int {
    if qualifier == 'h' then 0x1_0000 else if qualifier == 'L' || qualifier == 'Z' then TWO_64 else TWO_32
  }

  // ---------------------------------------------------------------- integer conversions

  /** The radix ISO C gives a conversion. */
  function Radix(c: char): nat {
    match c
    case 'o' => 8
    case 'x' => 16
    case 'X' => 16
    case _ => 10
  }

  predicate IsSigned(c: char) {
    c == 'd' || c == 'i'
  }

  /** A digit of that radix; letters are upper case or lower case as asked. */
  predicate IsDigitOf(ch: char, radix: nat, upper: bool) {
    && ('0' <= ch <= '9' || (if upper then 'A' <= ch <= 'Z' else 'a' <= ch <= 'z'))
    && DigitValue(ch) < radix
  }

  /** Digits without a leading zero, but for zero itself. */
  ghost predicate ProperDigits(digits: string, radix: nat, upper: bool) {
    && digits != "" && (forall ch | ch in digits :: IsDigitOf(ch, radix, upper))
    && (|digits| > 1 ==> digits[0] != '0')
  }

  datatype Layout = Layout(front: nat, sign: string, prefix: string, zeros: nat, digits: string, back: nat)

  function TextOf(l: Layout): string {
    Repeat(' ', l.front) + l.sign + l.prefix + Repeat('0', l.zeros) + l.digits + Repeat(' ', l.back)
  }

  /** The parts of a number have the lengths that width, precision and flags ask for. */
  predicate LaidOut(l: Layout, f: Flags, width: int, precision: int) {
    var inner := |l.sign| + |l.prefix| + |l.digits|;
    && l.zeros == Max(0, Max(precision - |l.digits|, if f.zeropad && !f.left then width - inner else 0))
    && l.front == (if f.left || f.zeropad then 0 else Max(0, width - inner - l.zeros))
    && l.back == (if f.left then Max(0, width - inner - l.zeros) else 0)
  }

  function SignFor(negative: bool, signed: bool, f: Flags): string {
    if negative then "-" else if signed && f.plus then "+" else if signed && f.space then " " else ""
  }

  function PrefixFor(c: char, f: Flags): string {
    if !f.special then "" else if c == 'x' then "0x" else if c == 'X' then "0X" else if c == 'o' then "0" else ""
  }

  lemma {:induction false} DigitsAreProper(m: nat, base: nat, large: bool)
    requires 2 <= base <= 36
    ensures ProperDigits(DigitsText(m, base, large), base, large)
    ensures m > 0 ==> DigitsText(m, base, large)[0] != '0'
  {
    if m >= base {
      QuotientShrinks(m, base);
      QuotientPositive(m, base);
      DigitsAreProper(m / base, base, large);
    }
  }

  lemma QuotientPositive(m: nat, base: nat)
    requires base > 0 && m >= base
    ensures m / base > 0
  {
  }

  lemma ZerosAdd(a: int, b: int)
    ensures Repeat('0', a) + Repeat('0', b) == Repeat('0', Max(a, 0) + Max(b, 0))
  {
  }

  /** Parts of these lengths, side by side. */
  function Laid(sign: string, prefix: string, digits: string, f: Flags, width: int, precision: int): Layout {
    var inner := |sign| + |prefix| + |digits|;
    var zeros: nat := Max(0, Max(precision - |digits|, if f.zeropad && !f.left then width - inner else 0));
    var pad: nat := Max(0, width - inner - zeros);
    Layout(if f.left || f.zeropad then 0 else pad, sign, prefix, zeros, digits, if f.left then pad else 0)
  }

  lemma JoinZeros(sign: string, prefix: string, a: int, b: int, digits: string)
    ensures (sign + prefix) + Repeat('0', a) + (Repeat('0', b) + digits)
         == sign + prefix + Repeat('0', Max(a, 0) + Max(b, 0)) + digits
  {
    ZerosAdd(a, b);
    Regroup(sign, prefix, Repeat('0', a), Repeat('0', b), digits);
  }

  lemma Unpadded(l: Layout)
    requires l.front == 0 && l.back == 0
    ensures TextOf(l) == l.sign + l.prefix + Repeat('0', l.zeros) + l.digits
  {
    assert Repeat(' ', 0) == "";
  }

  lemma PaddedText(sign: string, prefix: string, digits: string, f: Flags, size: int, precision: int)
    requires f.zeropad && !f.left
    ensures var body := Repeat('0', precision - |digits|) + digits;
            (sign + prefix) + Repeat('0', size - |sign + prefix| - |body|) + body
            == TextOf(Laid(sign, prefix, digits, f, size, precision))
  {
    var few := precision - |digits|;
    var many := size - |sign + prefix| - |Repeat('0', few) + digits|;
    JoinZeros(sign, prefix, many, few, digits);
    Unpadded(Laid(sign, prefix, digits, f, size, precision));
  }

  lemma Regroup(a: string, b: string, c: string, d: string, e: string)
    ensures (a + b) + c + (d + e) == a + b + (c + d) + e
  {
  }

  lemma Unblanked(s: string)
    ensures "" + s + "" == s
  {
  }

  lemma JustifiedText(sign: string, prefix: string, digits: string, f: Flags, size: int, precision: int)
    requires !(f.zeropad && !f.left)
    ensures var body := Repeat('0', precision - |digits|) + digits;
            Justify(f.left, (sign + prefix) + body, size) == TextOf(Laid(sign, prefix, digits, f, size, precision))
  {
    var l := Laid(sign, prefix, digits, f, size, precision);
    var zeros := Repeat('0', precision - |digits|);
    assert zeros == Repeat('0', l.zeros);
    Sided(Repeat(' ', l.front), sign, prefix, zeros, digits, Repeat(' ', l.back));
    var body := (sign + prefix) + (zeros + digits);
    assert |body| == |sign| + |prefix| + |digits| + l.zeros;
    assert Repeat(' ', 0) == "";
    Unblanked(body);
  }

  lemma Sided(front: string, a: string, b: string, c: string, d: string, back: string)
    ensures front + ((a + b) + (c + d)) + back == front + a + b + c + d + back
  {
  }

  lemma NumberIsLaid(num: Int64, base: nat, size: int, precision: int, f: Flags)
    requires 2 <= base <= 36
    ensures NumberText(num, base, size, precision, f)
         == TextOf(Laid(SignText(num, f), PrefixText(base, f), DigitsText(Magnitude(num, f.sign), base, f.large), f, size,
                        precision))
  {
    var sign, prefix, digits := SignText(num, f), PrefixText(base, f), DigitsText(Magnitude(num, f.sign), base, f.large);
    if f.zeropad && !f.left {
      PaddedText(sign, prefix, digits, f, size, precision);
    } else {
      JustifiedText(sign, prefix, digits, f, size, precision);
    }
  }

  lemma LaidIsLaidOut(sign: string, prefix: string, digits: string, f: Flags, width: int, precision: int)
    ensures LaidOut(Laid(sign, prefix, digits, f, width, precision), f, width, precision)
  {
  }

  lemma NumberMeans(num: Int64, base: nat, size: int, precision: int, f: Flags) returns (l: Layout)
    requires 2 <= base <= 36
    ensures NumberText(num, base, size, precision, f) == TextOf(l) && LaidOut(l, f, size, precision)
    ensures ProperDigits(l.digits, base, f.large) && Value(l.digits, base) == Magnitude(num, f.sign)
    ensures l.sign == SignText(num, f) && l.prefix == PrefixText(base, f)
  {
    var digits := DigitsText(Magnitude(num, f.sign), base, f.large);
    l := Laid(SignText(num, f), PrefixText(base, f), digits, f, size, precision);
    NumberIsLaid(num, base, size, precision, f);
    LaidIsLaidOut(SignText(num, f), PrefixText(base, f), digits, f, size, precision);
    DigitsEvaluate(Magnitude(num, f.sign), base, f.large);
    DigitsAreProper(Magnitude(num, f.sign), base, f.large);
  }

  lemma ConvertedInteger(c: char, f: Flags, width: int, precision: int, qualifier: char, arg: Arg)
    requires c in {'o', 'x', 'X', 'd', 'i', 'u'}
    ensures Converted(c, f, width, precision, qualifier, arg)
         == (NumberText(IntegerArgument(qualifier, IsSigned(c), arg.word), Radix(c), width, precision,
                        f.(sign := IsSigned(c), large := c == 'X')), 1)
  {
  }

  lemma HeadOfInteger(c: char, f: Flags, num: Int64)
    requires c in {'o', 'x', 'X', 'd', 'i', 'u'}
    ensures var f' := f.(sign := IsSigned(c), large := c == 'X');
            && SignText(num, f') == SignFor(IsSigned(c) && num < 0, IsSigned(c), f)
            && PrefixText(Radix(c), f') == PrefixFor(c, f)
  {
  }

  lemma SameLayout(l: Layout, f: Flags, g: Flags, width: int, precision: int)
    requires LaidOut(l, f, width, precision) && f.zeropad == g.zeropad && f.left == g.left
    ensures LaidOut(l, g, width, precision)
  {
  }

  /** Every integer conversion shows its argument, as its qualifier and signedness read it, in its radix: the digits
      evaluate to the absolute value, a minus stands for negative numbers only, letters are upper case for X only,
      and the prefix, the leading zeros and the blanks on either side are those the flags, the width and the
      precision ask for. */
  lemma IntegerConversion(c: char, f: Flags, width: int, precision: int, qualifier: char, arg: Arg)
      returns (v: int, l: Layout)
    requires c in {'o', 'x', 'X', 'd', 'i', 'u'} && !f.sign && !f.large
    ensures Converted(c, f, width, precision, qualifier, arg) == (TextOf(l), 1)
    ensures IsArgument(v, arg.word, Values(qualifier), IsSigned(c))
    ensures ProperDigits(l.digits, Radix(c), c == 'X') && Value(l.digits, Radix(c)) == if v < 0 then -v else v
    ensures l.sign == SignFor(v < 0, IsSigned(c), f) && l.prefix == PrefixFor(c, f)
    ensures LaidOut(l, f, width, precision)
  {
    var f' := f.(sign := IsSigned(c), large := c == 'X');
    var num := IntegerArgument(qualifier, IsSigned(c), arg.word);
    ConvertedInteger(c, f, width, precision, qualifier, arg);
    l := NumberMeans(num, Radix(c), width, precision, f');
    v := ArgumentShown(qualifier, IsSigned(c), arg.word);
    HeadOfInteger(c, f, num);
    SameLayout(l, f', f, width, precision);
  }

  lemma ArgumentShown(qualifier: char, signed: bool, word: int) returns (v: int)
    ensures IsArgument(v, word, Values(qualifier), signed)
    ensures var num := IntegerArgument(qualifier, signed, word);
            && Magnitude(num, signed) == (if v < 0 then -v else v) && (signed ==> v == num)
  {
    v := Wrap(word, Values(qualifier), signed);
    WrapReads(word, Values(qualifier), signed);
  }

  /** A pointer shows the 64-bit pattern its low 32 bits become when they are read as signed: sixteen digits, zero-padded,
      unless a width is given. */
  lemma PointerConversion(f: Flags, width: int, precision: int, qualifier: char, arg: Arg) returns (v: int, l: Layout)
    requires !f.sign && !f.large
    ensures Converted('p', f, width, precision, qualifier, arg) == (TextOf(l), 1)
    ensures IsArgument(v, arg.word, TWO_32, true)
    ensures ProperDigits(l.digits, 16, false) && Value(l.digits, 16) == if v < 0 then v + TWO_64 else v
    ensures l.sign == "" && l.prefix == if f.special then "0x" else ""
    ensures if width == -1 then LaidOut(l, f.(zeropad := true), 16, precision) else LaidOut(l, f, width, precision)
  {
    v := Wrap(arg.word, TWO_32, true);
    WrapReads(arg.word, TWO_32, true);
    var size, f' := if width == -1 then 16 else width, if width == -1 then f.(zeropad := true) else f;
    l := NumberMeans(v, 16, size, precision, f');
  }

  // ---------------------------------------------------------------- the other conversions

  /** Blanks before a text, or behind it if it is to stand on the left, up to the width. */
  function Beside(left: bool, text: string, width: int): string {
    if left then text + Repeat(' ', Max(0, width - |text|)) else Repeat(' ', Max(0, width - |text|)) + text
  }

  lemma RepeatOfMax(c: char, n: int)
    ensures Repeat(c, n) == Repeat(c, Max(0, n))
  {
  }

  /** %c shows the character with that code in eight bits; the precision does not count. */
  lemma CharConversion(f: Flags, width: int, precision: int, qualifier: char, arg: Arg) returns (code: int)
    ensures IsArgument(code, arg.word, 256, false)
    ensures Converted('c', f, width, precision, qualifier, arg) == (Beside(f.left, [code as char], width), 1)
  {
    code := Wrap(arg.word, 256, false);
    WrapReads(arg.word, 256, false);
    RepeatOfMax(' ', width - 1);
  }

  /** %s shows the whole string, or its first characters if the precision is smaller; zero padding does not count. */
  lemma StringConversion(f: Flags, width: int, precision: int, qualifier: char, arg: Arg) returns (shown: string)
    ensures var whole: string := if arg.text.Some? then arg.text.value else "<NULL>";
            && shown <= whole
            && |shown| == if precision < 0 || |whole| < precision then |whole| else precision
    ensures Converted('s', f, width, precision, qualifier, arg) == (Beside(f.left, shown, width), 1)
  {
    var whole: string := if arg.text.Some? then arg.text.value else "<NULL>";
    shown := if 0 <= precision < |whole| then whole[..precision] else whole;
    RepeatOfMax(' ', width - |shown|);
  }

  /** %% is a percent sign, %n shows nothing, and an unknown character is shown behind its percent sign. */
  lemma OtherConversions(c: char, f: Flags, width: int, precision: int, qualifier: char, arg: Arg)
    ensures Converted('%', f, width, precision, qualifier, arg) == ("%", 0)
    ensures Converted('n', f, width, precision, qualifier, arg) == ("", 1)
    ensures c !in {'o', 'x', 'X', 'd', 'i', 'u', 'p', 'c', 's', 'n', '%', '\0'} ==>
              Converted(c, f, width, precision, qualifier, arg) == (['%', c], 0)
    ensures Converted('\0', f, width, precision, qualifier, arg) == ("%", 0)
  {
  }

  // ---------------------------------------------------------------- how a directive is read

  datatype Number = Nothing | Digits(text: string) | Star

  /** The parts of a directive behind its percent sign, as they are written. Without a conversion character the format
      ends inside the directive. */
  datatype Spec = Spec(
    flags: string,
    width: Number,
    precision: Option<Number>,
    qualifier: string,
    conversion: Option<char>)

  function NumberAsText(n: Number): string {
    match n
    case Nothing => ""
    case Digits(text) => text
    case Star => "*"
  }

  function PrecisionAsText(n: Option<Number>): string {
    if n.None? then "" else "." + NumberAsText(n.value)
  }

  function LastAsText(c: Option<char>): string {
    if c.None? then "" else [c.value]
  }

  function Concat(parts: seq<string>): string {
    if parts == [] then "" else parts[0] + Concat(parts[1..])
  }

  /** The parts as they are written, the percent sign in front. */
  function PartsOf(d: Spec): (parts: seq<string>)
    ensures |parts| == 6
  {
    ["%", d.flags, NumberAsText(d.width), PrecisionAsText(d.precision), d.qualifier, LastAsText(d.conversion)]
  }

  /** What is written from part `k` on. */
  function From(d: Spec, k: nat): string
    requires k <= 6
  {
    Concat(PartsOf(d)[k..])
  }

  function SpecAsText(d: Spec): string {
    From(d, 0)
  }

  lemma FromPart(d: Spec, k: nat)
    requires k < 6
    ensures From(d, k) == PartsOf(d)[k] + From(d, k + 1)
    ensures From(d, 6) == ""
  {
    assert PartsOf(d)[k..][1..] == PartsOf(d)[k + 1..];
  }

  predicate IsFlag(c: char) {
    c == '-' || c == '+' || c == ' ' || c == '#' || c == '0'
  }

  ghost predicate NumberOk(n: Number) {
    n.Digits? ==> n.text != "" && forall ch | ch in n.text :: '0' <= ch <= '9'
  }

  /** The parts are what they say, and where one ends can be seen: a width does not begin with the flag 0, and the
      conversion character is none that could belong to a part before it. */
  ghost predicate SpecOk(d: Spec) {
    && (forall ch | ch in d.flags :: IsFlag(ch))
    && NumberOk(d.width) && (d.width.Digits? ==> d.width.text[0] != '0')
    && (d.precision.Some? ==> NumberOk(d.precision.value))
    && d.qualifier in {"", "h", "l", "ll", "L", "Z"}
    && (d.conversion.Some? ==>
          var c := d.conversion.value;
          !IsFlag(c) && !('0' <= c <= '9') && c !in {'*', '.', 'h', 'l', 'L', 'Z', '\0'})
  }

  function Int32(word: int): int {
    Wrap(word, TWO_32, true)
  }

  function Stars(n: Number): nat {
    if n.Star? then 1 else 0
  }

  function WidthOf(d: Spec, arg: Arg): int {
    match d.width
    case Nothing => -1
    case Digits(text) => Value(text, 10)
    case Star => if Int32(arg.word) < 0 then -Int32(arg.word) else Int32(arg.word)
  }

  function PrecisionOf(d: Spec, arg: Arg): int {
    match d.precision
    case None => -1
    case Some(Nothing) => 0
    case Some(Digits(text)) => Value(text, 10)
    case Some(Star) => if Int32(arg.word) < 0 then 0 else Int32(arg.word)
  }

  /** Each flag is set exactly if its character is among the flags; a negative width argument means left, too. */
  function FlagsOf(d: Spec, arg: Arg): Flags {
    Flags('0' in d.flags, false, '+' in d.flags, ' ' in d.flags,
          '-' in d.flags || (d.width.Star? && Int32(arg.word) < 0), '#' in d.flags, false)
  }

  function QualifierOf(d: Spec): char {
    if d.qualifier == "" then '\0' else if d.qualifier == "ll" then 'L' else d.qualifier[0]
  }

  /** The argument of the value. */
  function ValueAt(d: Spec, k: nat): nat {
    k + Stars(d.width) + if d.precision.Some? then Stars(d.precision.value) else 0
  }

  /** The character at `i` if `rest` stands there, at the end of the format if it is empty. */
  function First(rest: string): char {
    if rest == "" then '\0' else rest[0]
  }

  /** What the directive prints and where to go on: the arguments are taken in the order width, precision, value. */
  function Meaning(d: Spec, k: nat, args: Args, convert: Convert): (string, nat) {
    var (text, taken) := convert(First(LastAsText(d.conversion)), ReadingOf(d, k, args), args);
    (text, ValueAt(d, k) + taken)
  }

  /** What is to be made of a conversion character and what was read in front of it. How a directive is read does not
      depend on it. */
  type Convert = (char, Reading, Args) -> (string, nat)

  /** What reading the directive yields. */
  function ReadingOf(d: Spec, k: nat, args: Args): Reading {
    Reading(FlagsOf(d, args(k)), WidthOf(d, args(k)), PrecisionOf(d, args(k + Stars(d.width))), QualifierOf(d),
            ValueAt(d, k))
  }

  /** `text` stands in the format at `i`. */
  ghost predicate StandsAt(fmt: CString, i: nat, text: string) {
    i + |text| <= |fmt| && fmt[i..i + |text|] == text
  }

  lemma StandAfterEachOther(fmt: CString, i: nat, a: string, b: string)
    requires StandsAt(fmt, i, a + b)
    ensures StandsAt(fmt, i, a) && StandsAt(fmt, i + |a|, b)
  {
    assert fmt[i..i + |a|] == (a + b)[..|a|];
    assert fmt[i + |a|..i + |a| + |b|] == (a + b)[|a|..];
  }

  lemma FirstStands(fmt: CString, i: nat, text: string)
    requires StandsAt(fmt, i, text) && text != ""
    ensures CharAt(fmt, i) == text[0]
  {
    assert fmt[i..i + |text|][0] == fmt[i];
  }

  function AddFlags(f: Flags, flags: string): Flags {
    f.(zeropad := f.zeropad || '0' in flags, plus := f.plus || '+' in flags, space := f.space || ' ' in flags,
       left := f.left || '-' in flags, special := f.special || '#' in flags)
  }

  lemma OneFlag(fmt: CString, i: nat, c: char, f: Flags)
    requires CharAt(fmt, i) == c && IsFlag(c)
    ensures ScanFlags(fmt, i, f) == ScanFlags(fmt, i + 1, AddFlags(f, [c]))
  {
  }

  lemma FlagsAdd(f: Flags, flags: string)
    requires flags != ""
    ensures AddFlags(AddFlags(f, [flags[0]]), flags[1..]) == AddFlags(f, flags)
  {
    assert flags == [flags[0]] + flags[1..];
  }

  lemma {:induction false} FlagsAreRead(fmt: CString, i: nat, flags: string, f: Flags)
    requires StandsAt(fmt, i, flags) && (forall ch | ch in flags :: IsFlag(ch)) && !IsFlag(CharAt(fmt, i + |flags|))
    ensures ScanFlags(fmt, i, f) == (AddFlags(f, flags), i + |flags|)
    decreases |flags|
  {
    if flags != "" {
      FirstStands(fmt, i, flags);
      assert flags[0] in flags;
      OneFlag(fmt, i, flags[0], f);
      FlagsAdd(f, flags);
      assert [flags[0]] + flags[1..] == flags;
      StandAfterEachOther(fmt, i, [flags[0]], flags[1..]);
      FlagsAreRead(fmt, i + 1, flags[1..], AddFlags(f, [flags[0]]));
    }
  }

  lemma {:induction false} DigitsAreRead(fmt: CString, i: nat, d: string, j: nat)
    requires StandsAt(fmt, i, d) && j <= |d| && (forall ch | ch in d :: '0' <= ch <= '9') && !IsDigit(CharAt(fmt, i + |d|))
    ensures Atoi(fmt, i + j, Value(d[..j], 10)) == (Value(d, 10), i + |d|)
    decreases |d| - j
  {
    if j < |d| {
      assert fmt[i + j] == fmt[i..i + |d|][j] == d[j] && d[j] in d;
      assert d[..j + 1] == d[..j] + [d[j]];
      ValueAppend(d[..j], d[j], 10);
      DigitsAreRead(fmt, i, d, j + 1);
    } else {
      assert d[..j] == d;
    }
  }

  lemma NumberIsRead(fmt: CString, i: nat, d: string)
    requires StandsAt(fmt, i, d) && d != "" && (forall ch | ch in d :: '0' <= ch <= '9')
    requires !IsDigit(CharAt(fmt, i + |d|))
    ensures IsDigit(CharAt(fmt, i)) && Atoi(fmt, i, 0) == (Value(d, 10), i + |d|)
  {
    DigitsAreRead(fmt, i, d, 0);
    FirstStands(fmt, i, d);
    assert d[0] in d;
  }

  lemma WidthIsRead(fmt: CString, i: nat, k: nat, d: Spec, f: Flags, args: Args)
    requires NumberOk(d.width) && StandsAt(fmt, i, NumberAsText(d.width))
    requires !d.width.Star? ==> !IsDigit(CharAt(fmt, i + |NumberAsText(d.width)|))
    requires d.width.Nothing? ==> CharAt(fmt, i) != '*'
    ensures ScanWidth(fmt, Scan(i, k), f, args)
         == (WidthOf(d, args(k)), f.(left := f.left || (d.width.Star? && Int32(args(k).word) < 0)),
             Scan(i + |NumberAsText(d.width)|, k + Stars(d.width)))
  {
    if d.width.Digits? {
      NumberIsRead(fmt, i, d.width.text);
    } else if d.width.Star? {
      FirstStands(fmt, i, "*");
    }
  }

  lemma PrecisionIsRead(fmt: CString, i: nat, k: nat, d: Spec, args: Args)
    requires (d.precision.Some? ==> NumberOk(d.precision.value)) && StandsAt(fmt, i, PrecisionAsText(d.precision))
    requires var next := CharAt(fmt, i + |PrecisionAsText(d.precision)|);
             next != '.' && next != '*' && !IsDigit(next)
    ensures ScanPrecision(fmt, Scan(i, k), args)
         == (PrecisionOf(d, args(k)), Scan(i + |PrecisionAsText(d.precision)|,
                                           k + if d.precision.Some? then Stars(d.precision.value) else 0))
  {
    if d.precision.Some? {
      var n := d.precision.value;
      StandAfterEachOther(fmt, i, ".", NumberAsText(n));
      FirstStands(fmt, i, ".");
      if n.Digits? {
        NumberIsRead(fmt, i + 1, n.text);
      } else if n.Star? {
        FirstStands(fmt, i + 1, "*");
      }
    }
  }

  lemma QualifierIsRead(fmt: CString, i: nat, d: Spec)
    requires d.qualifier in {"", "h", "l", "ll", "L", "Z"} && StandsAt(fmt, i, d.qualifier)
    requires CharAt(fmt, i + |d.qualifier|) !in {'h', 'l', 'L', 'Z'}
    ensures ScanQualifier(fmt, i) == (QualifierOf(d), i + |d.qualifier|)
  {
    if d.qualifier != "" {
      FirstStands(fmt, i, d.qualifier);
    }
    if d.qualifier == "ll" {
      assert d.qualifier == "l" + "l";
      StandAfterEachOther(fmt, i, "l", "l");
      FirstStands(fmt, i + 1, "l");
    }
  }

  lemma FirstIs(fmt: CString, i: nat, rest: string)
    requires StandsAt(fmt, i, rest) && (rest == "" ==> i == |fmt|)
    ensures CharAt(fmt, i) == First(rest)
  {
    if rest != "" {
      FirstStands(fmt, i, rest);
    }
  }

  lemma Linked(d: Spec)
    ensures SpecAsText(d) == "%" + (d.flags + From(d, 2))
    ensures From(d, 2) == NumberAsText(d.width) + From(d, 3)
    ensures From(d, 3) == PrecisionAsText(d.precision) + From(d, 4)
    ensures From(d, 4) == d.qualifier + LastAsText(d.conversion)
  {
    FromPart(d, 0);
    FromPart(d, 1);
    FromPart(d, 2);
    FromPart(d, 3);
    FromPart(d, 4);
    FromPart(d, 5);
  }

  lemma FirstOfSum(a: string, b: string)
    ensures First(a + b) == if a == "" then First(b) else a[0]
  {
  }

  /** Each part ends where the next begins: what comes behind it does not belong to it. */
  lemma Boundaries(d: Spec)
    requires SpecOk(d)
    ensures First(LastAsText(d.conversion)) !in {'h', 'l', 'L', 'Z'}
    ensures var c := First(From(d, 4)); c != '.' && c != '*' && !IsDigit(c) && !IsFlag(c)
    ensures var c := First(From(d, 3)); c != '*' && !IsDigit(c) && !IsFlag(c)
    ensures !IsFlag(First(From(d, 2))) && (d.width.Nothing? ==> First(From(d, 2)) != '*')
  {
    Linked(d);
    FirstOfSum(d.qualifier, LastAsText(d.conversion));
    FirstOfSum(PrecisionAsText(d.precision), From(d, 4));
    FirstOfSum(NumberAsText(d.width), From(d, 3));
    if d.width.Digits? {
      assert d.width.text[0] in d.width.text;
    }
  }

  /** `rest` stands at `i`, and if it is closed the format ends there. */
  ghost predicate Tail(fmt: CString, i: nat, rest: string, closed: bool) {
    StandsAt(fmt, i, rest) && (closed ==> i + |rest| == |fmt|)
  }

  lemma Cut(fmt: CString, i: nat, a: string, rest: string, closed: bool)
    requires Tail(fmt, i, a + rest, closed) && (rest == "" ==> closed)
    ensures StandsAt(fmt, i, a) && Tail(fmt, i + |a|, rest, closed) && CharAt(fmt, i + |a|) == First(rest)
  {
    StandAfterEachOther(fmt, i, a, rest);
    FirstIs(fmt, i + |a|, rest);
  }

  /** One part after the other: `r1`, `r2`, `r3` are what is left behind each. */
  lemma ThreeCuts(fmt: CString, i: nat, a: string, b: string, c: string, r1: string, r2: string, r3: string, closed: bool)
    requires Tail(fmt, i, a + r1, closed) && r1 == b + r2 && r2 == c + r3 && (r3 == "" ==> closed)
    ensures StandsAt(fmt, i, a) && StandsAt(fmt, i + |a|, b) && StandsAt(fmt, i + |a| + |b|, c)
    ensures CharAt(fmt, i + |a|) == First(r1) && CharAt(fmt, i + |a| + |b|) == First(r2)
    ensures CharAt(fmt, i + |a| + |b| + |c|) == First(r3)
  {
    Cut(fmt, i, a, r1, closed);
    Cut(fmt, i + |a|, b, r2, closed);
    Cut(fmt, i + |a| + |b|, c, r3, closed);
  }

  lemma FrontStands(fmt: CString, i: nat, flags: string, rest: string, closed: bool)
    requires Tail(fmt, i, "%" + (flags + rest), closed) && (rest == "" ==> closed)
    ensures i < |fmt| && fmt[i] == '%' && StandsAt(fmt, i + 1, flags)
    ensures Tail(fmt, i + 1 + |flags|, rest, closed) && CharAt(fmt, i + 1 + |flags|) == First(rest)
  {
    StandAfterEachOther(fmt, i, "%", flags + rest);
    FirstStands(fmt, i, "%");
    Cut(fmt, i + 1, flags, rest, closed);
  }

  lemma RestIsEmptyOnlyAtEnd(d: Spec)
    ensures From(d, 2) == "" || LastAsText(d.conversion) == "" ==> d.conversion.None?
  {
    Linked(d);
  }

  lemma OthersStand(fmt: CString, w: nat, d: Spec, closed: bool, p: nat, q: nat, j: nat)
    requires Tail(fmt, w, From(d, 2), closed) && (closed <==> d.conversion.None?)
    requires p == w + |NumberAsText(d.width)| && q == p + |PrecisionAsText(d.precision)| && j == q + |d.qualifier|
    ensures StandsAt(fmt, w, NumberAsText(d.width)) && StandsAt(fmt, p, PrecisionAsText(d.precision))
    ensures StandsAt(fmt, q, d.qualifier)
    ensures CharAt(fmt, p) == First(From(d, 3)) && CharAt(fmt, q) == First(From(d, 4))
    ensures CharAt(fmt, j) == First(LastAsText(d.conversion))
  {
    RestIsEmptyOnlyAtEnd(d);
    Linked(d);
    ThreeCuts(fmt, w, NumberAsText(d.width), PrecisionAsText(d.precision), d.qualifier, From(d, 3), From(d, 4),
              LastAsText(d.conversion), closed);
  }

  lemma FlagsStand(fmt: CString, i: nat, d: Spec, closed: bool)
    requires Tail(fmt, i, SpecAsText(d), closed) && (closed <==> d.conversion.None?)
    ensures i < |fmt| && fmt[i] == '%' && StandsAt(fmt, i + 1, d.flags)
    ensures Tail(fmt, i + 1 + |d.flags|, From(d, 2), closed)
    ensures CharAt(fmt, i + 1 + |d.flags|) == First(From(d, 2))
  {
    RestIsEmptyOnlyAtEnd(d);
    Linked(d);
    FrontStands(fmt, i, d.flags, From(d, 2), closed);
  }

  lemma FrontIsRead(fmt: CString, i: nat, k: nat, d: Spec, args: Args, c1: char, c2: char)
    requires (forall ch | ch in d.flags :: IsFlag(ch)) && NumberOk(d.width)
    requires var w := i + 1 + |d.flags|;
             && StandsAt(fmt, i + 1, d.flags) && StandsAt(fmt, w, NumberAsText(d.width))
             && CharAt(fmt, w) == c1 && CharAt(fmt, w + |NumberAsText(d.width)|) == c2
    requires !IsFlag(c1) && (d.width.Nothing? ==> c1 != '*') && !IsDigit(c2)
    ensures ReadFront(fmt, Scan(i, k), args)
         == (WidthOf(d, args(k)), FlagsOf(d, args(k)),
             Scan(i + 1 + |d.flags| + |NumberAsText(d.width)|, k + Stars(d.width)))
  {
    FlagsAreRead(fmt, i + 1, d.flags, NO_FLAGS);
    WidthIsRead(fmt, i + 1 + |d.flags|, k, d, AddFlags(NO_FLAGS, d.flags), args);
  }

  lemma BackIsRead(fmt: CString, i: nat, k: nat, d: Spec, args: Args, c1: char, c2: char)
    requires (d.precision.Some? ==> NumberOk(d.precision.value)) && d.qualifier in {"", "h", "l", "ll", "L", "Z"}
    requires var q := i + |PrecisionAsText(d.precision)|;
             && StandsAt(fmt, i, PrecisionAsText(d.precision)) && StandsAt(fmt, q, d.qualifier)
             && CharAt(fmt, q) == c1 && CharAt(fmt, q + |d.qualifier|) == c2
    requires c1 != '.' && c1 != '*' && !IsDigit(c1) && c2 !in {'h', 'l', 'L', 'Z'}
    ensures var stars := if d.precision.Some? then Stars(d.precision.value) else 0;
            ReadBack(fmt, Scan(i, k), args)
            == (PrecisionOf(d, args(k)), QualifierOf(d),
                Scan(i + |PrecisionAsText(d.precision)| + |d.qualifier|, k + stars))
  {
    PrecisionIsRead(fmt, i, k, d, args);
    QualifierIsRead(fmt, i + |PrecisionAsText(d.precision)|, d);
  }

  lemma ReadIsBoth(fmt: CString, p: Scan, args: Args, width: int, f: Flags, p1: Scan, precision: int, q: char, p2: Scan)
    requires ReadFront(fmt, p, args) == (width, f, p1) && ReadBack(fmt, p1, args) == (precision, q, p2)
    ensures Read(fmt, p, args) == (Reading(f, width, precision, q, p2.k), p2.i)
  {
  }

  /** Where the parts of the directive at `i` stand. */
  predicate AtPlaces(i: nat, d: Spec, w: nat, p: nat, q: nat, j: nat) {
    && w == i + 1 + |d.flags| && p == w + |NumberAsText(d.width)|
    && q == p + |PrecisionAsText(d.precision)| && j == q + |d.qualifier|
  }

  /** Flags and width stand there, and neither can be taken to go on where the next part begins. */
  ghost predicate FrontStandsAt(fmt: CString, i: nat, d: Spec, w: nat, p: nat) {
    && i < |fmt| && fmt[i] == '%' && StandsAt(fmt, i + 1, d.flags) && StandsAt(fmt, w, NumberAsText(d.width))
    && !IsFlag(CharAt(fmt, w)) && (d.width.Nothing? ==> CharAt(fmt, w) != '*') && !IsDigit(CharAt(fmt, p))
  }

  /** So do precision and qualifier, and the conversion character follows. */
  ghost predicate BackStandsAt(fmt: CString, p: nat, d: Spec, q: nat, j: nat) {
    && StandsAt(fmt, p, PrecisionAsText(d.precision)) && StandsAt(fmt, q, d.qualifier)
    && CharAt(fmt, q) != '.' && CharAt(fmt, q) != '*' && !IsDigit(CharAt(fmt, q))
    && CharAt(fmt, j) !in {'h', 'l', 'L', 'Z'} && CharAt(fmt, j) == First(LastAsText(d.conversion))
  }

  lemma TailBehindFlags(fmt: CString, i: nat, d: Spec, closed: bool, w: nat)
    requires Tail(fmt, i, SpecAsText(d), closed) && (closed <==> d.conversion.None?) && w == i + 1 + |d.flags|
    ensures Tail(fmt, w, From(d, 2), closed)
  {
    FlagsStand(fmt, i, d, closed);
  }

  lemma OthersAreBounded(fmt: CString, i: nat, d: Spec, closed: bool, w: nat, p: nat, q: nat, j: nat)
    requires SpecOk(d) && Tail(fmt, i, SpecAsText(d), closed) && (closed <==> d.conversion.None?)
    requires AtPlaces(i, d, w, p, q, j)
    ensures StandsAt(fmt, w, NumberAsText(d.width)) && StandsAt(fmt, p, PrecisionAsText(d.precision))
    ensures StandsAt(fmt, q, d.qualifier) && !IsDigit(CharAt(fmt, p))
    ensures CharAt(fmt, q) != '.' && CharAt(fmt, q) != '*' && !IsDigit(CharAt(fmt, q))
    ensures CharAt(fmt, j) !in {'h', 'l', 'L', 'Z'} && CharAt(fmt, j) == First(LastAsText(d.conversion))
  {
    Boundaries(d);
    TailBehindFlags(fmt, i, d, closed, w);
    OthersStand(fmt, w, d, closed, p, q, j);
  }

  lemma FlagsAreBounded(fmt: CString, i: nat, d: Spec, closed: bool, w: nat)
    requires SpecOk(d) && Tail(fmt, i, SpecAsText(d), closed) && (closed <==> d.conversion.None?)
    requires w == i + 1 + |d.flags|
    ensures i < |fmt| && fmt[i] == '%' && StandsAt(fmt, i + 1, d.flags)
    ensures !IsFlag(CharAt(fmt, w)) && (d.width.Nothing? ==> CharAt(fmt, w) != '*')
  {
    Boundaries(d);
    FlagsStand(fmt, i, d, closed);
  }

  lemma SpecStands(fmt: CString, i: nat, d: Spec, w: nat, p: nat, q: nat, j: nat)
    requires SpecOk(d) && Tail(fmt, i, SpecAsText(d), d.conversion.None?) && AtPlaces(i, d, w, p, q, j)
    ensures FrontStandsAt(fmt, i, d, w, p) && BackStandsAt(fmt, p, d, q, j)
  {
    FlagsAreBounded(fmt, i, d, d.conversion.None?, w);
    OthersAreBounded(fmt, i, d, d.conversion.None?, w, p, q, j);
  }

  lemma SpecFrontIsRead(fmt: CString, i: nat, k: nat, d: Spec, args: Args, w: nat, p: nat)
    requires SpecOk(d) && FrontStandsAt(fmt, i, d, w, p) && w == i + 1 + |d.flags| && p == w + |NumberAsText(d.width)|
    ensures ReadFront(fmt, Scan(i, k), args) == (WidthOf(d, args(k)), FlagsOf(d, args(k)), Scan(p, k + Stars(d.width)))
  {
    FrontIsRead(fmt, i, k, d, args, CharAt(fmt, w), CharAt(fmt, p));
  }

  lemma SpecBackIsRead(fmt: CString, p: nat, k: nat, d: Spec, args: Args, q: nat, j: nat)
    requires SpecOk(d) && BackStandsAt(fmt, p, d, q, j)
    requires q == p + |PrecisionAsText(d.precision)| && j == q + |d.qualifier|
    ensures var stars := if d.precision.Some? then Stars(d.precision.value) else 0;
            ReadBack(fmt, Scan(p, k), args) == (PrecisionOf(d, args(k)), QualifierOf(d), Scan(j, k + stars))
  {
    BackIsRead(fmt, p, k, d, args, CharAt(fmt, q), CharAt(fmt, j));
  }

  lemma BothRead(fmt: CString, i: nat, k: nat, d: Spec, args: Args, p: nat, j: nat)
    requires ReadFront(fmt, Scan(i, k), args) == (WidthOf(d, args(k)), FlagsOf(d, args(k)), Scan(p, k + Stars(d.width)))
    requires ReadBack(fmt, Scan(p, k + Stars(d.width)), args)
          == (PrecisionOf(d, args(k + Stars(d.width))), QualifierOf(d), Scan(j, ValueAt(d, k)))
    ensures Read(fmt, Scan(i, k), args) == (ReadingOf(d, k, args), j)
  {
    ReadIsBoth(fmt, Scan(i, k), args, WidthOf(d, args(k)), FlagsOf(d, args(k)), Scan(p, k + Stars(d.width)),
               PrecisionOf(d, args(k + Stars(d.width))), QualifierOf(d), Scan(j, ValueAt(d, k)));
  }

  lemma TailFrontIsRead(fmt: CString, i: nat, k: nat, d: Spec, args: Args, w: nat, p: nat, q: nat, j: nat)
    requires SpecOk(d) && Tail(fmt, i, SpecAsText(d), d.conversion.None?) && AtPlaces(i, d, w, p, q, j)
    ensures i < |fmt| && fmt[i] == '%'
    ensures ReadFront(fmt, Scan(i, k), args) == (WidthOf(d, args(k)), FlagsOf(d, args(k)), Scan(p, k + Stars(d.width)))
  {
    SpecStands(fmt, i, d, w, p, q, j);
    SpecFrontIsRead(fmt, i, k, d, args, w, p);
  }

  lemma TailBackIsRead(fmt: CString, i: nat, k: nat, d: Spec, args: Args, w: nat, p: nat, q: nat, j: nat)
    requires SpecOk(d) && Tail(fmt, i, SpecAsText(d), d.conversion.None?) && AtPlaces(i, d, w, p, q, j)
    ensures var stars := if d.precision.Some? then Stars(d.precision.value) else 0;
            ReadBack(fmt, Scan(p, k), args) == (PrecisionOf(d, args(k)), QualifierOf(d), Scan(j, k + stars))
    ensures CharAt(fmt, j) == First(LastAsText(d.conversion))
  {
    SpecStands(fmt, i, d, w, p, q, j);
    SpecBackIsRead(fmt, p, k, d, args, q, j);
  }

  lemma SpecIsRead(fmt: CString, i: nat, k: nat, d: Spec, args: Args, w: nat, p: nat, q: nat, j: nat)
    requires SpecOk(d) && Tail(fmt, i, SpecAsText(d), d.conversion.None?) && AtPlaces(i, d, w, p, q, j)
    ensures i < |fmt| && fmt[i] == '%'
    ensures Read(fmt, Scan(i, k), args) == (ReadingOf(d, k, args), j)
    ensures CharAt(fmt, j) == First(LastAsText(d.conversion))
  {
    TailFrontIsRead(fmt, i, k, d, args, w, p, q, j);
    TailBackIsRead(fmt, i, k + Stars(d.width), d, args, w, p, q, j);
    BothRead(fmt, i, k, d, args, p, j);
  }

  lemma PlacesEnd(i: nat, d: Spec)
    requires SpecOk(d)
    ensures var last := i + 1 + |d.flags| + |NumberAsText(d.width)| + |PrecisionAsText(d.precision)| + |d.qualifier|;
            last + (if First(LastAsText(d.conversion)) == '\0' then 0 else 1) == i + |SpecAsText(d)|
  {
    Linked(d);
  }

  function DirectiveBy(fmt: CString, p: Scan, args: Args, convert: Convert): (string, Scan) {
    var (r, j) := Read(fmt, p, args);
    var c := CharAt(fmt, j);
    var (text, taken) := convert(c, r, args);
    (text, Scan(if c == '\0' then j else j + 1, r.k + taken))
  }

  lemma DirectiveByRead(fmt: CString, p: Scan, args: Args, convert: Convert, r: Reading, j: nat, c: char, end: nat)
    requires Read(fmt, p, args) == (r, j) && CharAt(fmt, j) == c && end == j + (if c == '\0' then 0 else 1)
    ensures DirectiveBy(fmt, p, args, convert)
         == (convert(c, r, args).0, Scan(end, r.k + convert(c, r, args).1))
  {
  }

  lemma ReadSpecMeans(fmt: CString, i: nat, k: nat, d: Spec, args: Args, convert: Convert, j: nat, end: nat)
    requires Read(fmt, Scan(i, k), args) == (ReadingOf(d, k, args), j)
    requires CharAt(fmt, j) == First(LastAsText(d.conversion))
    requires end == j + if First(LastAsText(d.conversion)) == '\0' then 0 else 1
    ensures DirectiveBy(fmt, Scan(i, k), args, convert)
         == (Meaning(d, k, args, convert).0, Scan(end, Meaning(d, k, args, convert).1))
  {
    DirectiveByRead(fmt, Scan(i, k), args, convert, ReadingOf(d, k, args), j, First(LastAsText(d.conversion)), end);
  }

  /** The directive that stands at `i`, up to the end of the format if it has no conversion character: it is read as it
      is written, and read to its end. */
  lemma DirectiveIsRead(fmt: CString, i: nat, k: nat, d: Spec, args: Args, convert: Convert)
    requires SpecOk(d) && Tail(fmt, i, SpecAsText(d), d.conversion.None?)
    ensures i < |fmt| && fmt[i] == '%'
    ensures DirectiveBy(fmt, Scan(i, k), args, convert)
         == (Meaning(d, k, args, convert).0, Scan(i + |SpecAsText(d)|, Meaning(d, k, args, convert).1))
  {
    var w := i + 1 + |d.flags|;
    var p := w + |NumberAsText(d.width)|;
    var q := p + |PrecisionAsText(d.precision)|;
    var j := q + |d.qualifier|;
    SpecIsRead(fmt, i, k, d, args, w, p, q, j);
    PlacesEnd(i, d);
    ReadSpecMeans(fmt, i, k, d, args, convert, j, i + |SpecAsText(d)|);
  }

  // ---------------------------------------------------------------- how a format is read

  /** A format is made of plain characters and directives. */
  datatype Piece = Plain(c: char) | Conversion(d: Spec)

  function PieceAsText(p: Piece): string {
    if p.Plain? then [p.c] else SpecAsText(p.d)
  }

  function FormatAsText(pieces: seq<Piece>): string {
    Joined(pieces, (p: Piece) => PieceAsText(p))
  }

  function Joined<T>(pieces: seq<T>, text: T -> string): string {
    if pieces == [] then "" else text(pieces[0]) + Joined(pieces[1..], text)
  }

  ghost predicate PieceOk(p: Piece) {
    match p
    case Plain(c) => c != '%'
    case Conversion(d) => SpecOk(d)
  }

  predicate EndsInside(p: Piece) {
    p.Conversion? && p.d.conversion.None?
  }

  /** Only the last directive may lack its conversion character. */
  ghost predicate PiecesOk(pieces: seq<Piece>) {
    forall i | 0 <= i < |pieces| :: PieceOk(pieces[i]) && (EndsInside(pieces[i]) ==> i == |pieces| - 1)
  }

  /** What a piece prints, and the next argument. */
  function PieceShown(p: Piece, k: nat, args: Args, convert: Convert): (string, nat) {
    if p.Plain? then ([p.c], k) else Meaning(p.d, k, args, convert)
  }

  /** What the pieces print one after the other, from argument `k` on. */
  function Printed(pieces: seq<Piece>, k: nat, args: Args, convert: Convert): string {
    ShownBy(pieces, k, (p: Piece, n: nat) => PieceShown(p, n, args, convert))
  }

  function ShownBy<T>(pieces: seq<T>, k: nat, show: (T, nat) -> (string, nat)): string {
    if pieces == [] then "" else show(pieces[0], k).0 + ShownBy(pieces[1..], show(pieces[0], k).1, show)
  }

  lemma DirectiveByAdvances(fmt: CString, p: Scan, args: Args, convert: Convert)
    requires p.i < |fmt|
    ensures p.i < DirectiveBy(fmt, p, args, convert).1.i <= |fmt|
    ensures DirectiveBy(fmt, p, args, ConvertedAs) == Directive(fmt, p, args)
  {
    DirectiveAdvances(fmt, p, args);
  }

  function FormatBy(fmt: CString, p: Scan, args: Args, convert: Convert): string
    decreases |fmt| - p.i
  {
    if p.i >= |fmt| then ""
    else if fmt[p.i] != '%' then [fmt[p.i]] + FormatBy(fmt, Scan(p.i + 1, p.k), args, convert)
    else
      DirectiveByAdvances(fmt, p, args, convert);
      var (text, p') := DirectiveBy(fmt, p, args, convert);
      text + FormatBy(fmt, p', args, convert)
  }

  lemma {:induction false} FormatIsFormatBy(fmt: CString, p: Scan, args: Args)
    ensures Format(fmt, p, args) == FormatBy(fmt, p, args, ConvertedAs)
    decreases |fmt| - p.i
  {
    if p.i < |fmt| {
      if fmt[p.i] != '%' {
        FormatIsFormatBy(fmt, Scan(p.i + 1, p.k), args);
      } else {
        DirectiveByAdvances(fmt, p, args, ConvertedAs);
        FormatIsFormatBy(fmt, Directive(fmt, p, args).1, args);
      }
    }
  }

  lemma SplitAt(fmt: CString, i: nat, a: string, b: string, closed: bool)
    requires i <= |fmt| && fmt[i..] == a + b && (closed ==> b == "")
    ensures Tail(fmt, i, a, closed) && i + |a| <= |fmt| && fmt[i + |a|..] == b
  {
    assert fmt[i..i + |a + b|] == fmt[i..];
    StandAfterEachOther(fmt, i, a, b);
    assert fmt[i + |a|..] == fmt[i..][|a|..];
  }

  lemma UnfoldPlain(fmt: CString, i: nat, k: nat, c: char, args: Args, convert: Convert)
    requires StandsAt(fmt, i, [c]) && c != '%'
    ensures FormatBy(fmt, Scan(i, k), args, convert) == [c] + FormatBy(fmt, Scan(i + 1, k), args, convert)
  {
    FirstStands(fmt, i, [c]);
  }

  lemma UnfoldDirective(fmt: CString, i: nat, k: nat, args: Args, convert: Convert, text: string, q: Scan)
    requires i < |fmt| && fmt[i] == '%' && DirectiveBy(fmt, Scan(i, k), args, convert) == (text, q)
    ensures FormatBy(fmt, Scan(i, k), args, convert) == text + FormatBy(fmt, q, args, convert)
  {
    DirectiveByAdvances(fmt, Scan(i, k), args, convert);
  }

  lemma PieceStep(fmt: CString, i: nat, k: nat, p: Piece, args: Args, convert: Convert)
    requires PieceOk(p) && Tail(fmt, i, PieceAsText(p), EndsInside(p))
    ensures FormatBy(fmt, Scan(i, k), args, convert)
         == PieceShown(p, k, args, convert).0
            + FormatBy(fmt, Scan(i + |PieceAsText(p)|, PieceShown(p, k, args, convert).1), args, convert)
  {
    if p.Plain? {
      UnfoldPlain(fmt, i, k, p.c, args, convert);
    } else {
      var (text, k') := Meaning(p.d, k, args, convert);
      DirectiveIsRead(fmt, i, k, p.d, args, convert);
      UnfoldDirective(fmt, i, k, args, convert, text, Scan(i + |SpecAsText(p.d)|, k'));
    }
  }

  /** A piece that stands somewhere is printed there, and the output goes on behind it. */
  ghost predicate GoesOn<T>(fmt: CString, out: (nat, nat) -> string, text: T -> string, show: (T, nat) -> (string, nat),
                            p: T, closed: bool)
  {
    forall i: nat, k: nat | Tail(fmt, i, text(p), closed) ::
      out(i, k) == show(p, k).0 + out(i + |text(p)|, show(p, k).1)
  }

  /** Whatever texts and outputs are: if each piece goes on where it stands, all of them print one after the other. */
  lemma {:induction false} PrintsAll<T>(fmt: CString, i: nat, k: nat, pieces: seq<T>, closed: T -> bool,
                                        out: (nat, nat) -> string, text: T -> string, show: (T, nat) -> (string, nat))
    requires i <= |fmt| && fmt[i..] == Joined(pieces, text)
    requires forall j | 0 <= j < |pieces| ::
               GoesOn(fmt, out, text, show, pieces[j], closed(pieces[j])) && (closed(pieces[j]) ==> j == |pieces| - 1)
    requires forall n: nat :: out(|fmt|, n) == ""
    ensures out(i, k) == ShownBy(pieces, k, show)
    decreases |pieces|
  {
    if pieces == [] {
      assert i == |fmt|;
    } else {
      var p := pieces[0];
      assert closed(p) ==> Joined(pieces[1..], text) == "";
      SplitAt(fmt, i, text(p), Joined(pieces[1..], text), closed(p));
      assert GoesOn(fmt, out, text, show, p, closed(p));
      PrintsAll(fmt, i + |text(p)|, show(p, k).1, pieces[1..], closed, out, text, show);
    }
  }

  lemma PieceGoesOn(fmt: CString, p: Piece, args: Args, convert: Convert)
    requires PieceOk(p)
    ensures GoesOn(fmt, (i: nat, k: nat) => FormatBy(fmt, Scan(i, k), args, convert), (q: Piece) => PieceAsText(q),
                   (q: Piece, n: nat) => PieceShown(q, n, args, convert), p, EndsInside(p))
  {
    forall i: nat, k: nat | Tail(fmt, i, PieceAsText(p), EndsInside(p))
      ensures FormatBy(fmt, Scan(i, k), args, convert)
           == PieceShown(p, k, args, convert).0
              + FormatBy(fmt, Scan(i + |PieceAsText(p)|, PieceShown(p, k, args, convert).1), args, convert)
    {
      PieceStep(fmt, i, k, p, args, convert);
    }
  }

  lemma FormatByPrintsPieces(fmt: CString, pieces: seq<Piece>, args: Args, convert: Convert)
    requires fmt == FormatAsText(pieces) && PiecesOk(pieces)
    ensures FormatBy(fmt, Scan(0, 0), args, convert) == Printed(pieces, 0, args, convert)
  {
    var out := (i: nat, k: nat) => FormatBy(fmt, Scan(i, k), args, convert);
    var text := (q: Piece) => PieceAsText(q);
    var show := (q: Piece, n: nat) => PieceShown(q, n, args, convert);
    forall j | 0 <= j < |pieces|
      ensures GoesOn(fmt, out, text, show, pieces[j], EndsInside(pieces[j]))
    {
      PieceGoesOn(fmt, pieces[j], args, convert);
    }
    assert fmt[0..] == fmt;
    PrintsAll(fmt, 0, 0, pieces, (q: Piece) => EndsInside(q), out, text, show);
  }

  /** A format prints what its pieces print, one after the other, plain characters as they are; each directive takes
      its arguments where the one before it has stopped. */
  lemma FormatPrintsPieces(fmt: CString, pieces: seq<Piece>, args: Args)
    requires fmt == FormatAsText(pieces) && PiecesOk(pieces)
    ensures Format(fmt, Scan(0, 0), args) == Printed(pieces, 0, args, ConvertedAs)
  {
    FormatByPrintsPieces(fmt, pieces, args, ConvertedAs);
    FormatIsFormatBy(fmt, Scan(0, 0), args);
  }
}
