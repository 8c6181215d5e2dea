/** The code of `number` and `osif_vsnprintf` (esd/src/osif.c): it writes through a cursor that runs on past the end
    of the buffer without storing anything there. */
module Vsnprintf {
  import opened Division
  import opened Formatting
  import opened Basics

  /** `before` with the first characters of `text` written over it, up to index `end`. */
  ghost function Overwritten(before: seq<char>, end: int, text: string): seq<char> {
    seq(|before|, i requires 0 <= i < |before| => if i < |text| && i <= end then text[i] else before[i])
  }

  /** The variables buf, end and str of the source; `text` is everything emitted, stored or not. */
  class Cursor {
    const buf: array<char>
    const end: int
    var str: nat
    ghost const before: seq<char>
    ghost var text: string

    ghost predicate Valid()
      reads this, buf
    {
      && -1 <= end < buf.Length
      && str == |text|
      && |before| == buf.Length
      && buf[..] == Overwritten(before, end, text)
    }

    constructor (buf: array<char>, size: nat)
      requires size <= buf.Length
      ensures Valid() && this.buf == buf && end == size - 1 && before == buf[..] && text == ""
    {
      this.buf, this.end, this.before := buf, size - 1, buf[..];
      str, text := 0, "";
    }

    method Put(c: char)
      requires Valid()
      modifies this, buf
      ensures Valid() && text == old(text) + [c]
    {
      if str <= end {
        buf[str] := c;
      }
      str := str + 1;
      text := text + [c];
    }

    /** The padding loops, all of the form `while (n-- > 0)`. */
    method Fill(c: char, n: int)
      requires Valid()
      modifies this, buf
      ensures Valid() && text == old(text) + Repeat(c, n)
    {
      var left := n;
      assert text + Repeat(c, 0) == text;
      while left > 0
        invariant Valid() && left <= Max(n, 0) && (n > 0 ==> left >= 0)
        invariant text == old(text) + Repeat(c, n - Max(left, 0))
      {
        Put(c);
        left := left - 1;
      }
    }

    method PutString(s: string)
      requires Valid()
      modifies this, buf
      ensures Valid() && text == old(text) + s
    {
      for i := 0 to |s|
        invariant Valid() && text == old(text) + s[..i]
      {
        Put(s[i]);
      }
    }

    /** The text of %c and %s: blanks in front, or behind if left-justified. */
    method PutJustified(left: bool, body: string, width: int)
      requires Valid()
      modifies this, buf
      ensures Valid() && text == old(text) + Justify(left, body, width)
    {
      if !left {
        Fill(' ', width - |body|);
      }
      PutString(body);
      if left {
        Fill(' ', width - |body|);
      }
    }

    /** The NUL behind the text, or over its last stored character; none if the size is 0. */
    method Terminate()
      requires Valid()
      modifies buf
      ensures end < 0 ==> buf[..] == before
      ensures end >= 0 ==>
                var n := if |text| <= end then |text| else end;
                buf[..n] == text[..n] && buf[n] == '\0' && buf[n + 1..] == before[n + 1..]
    {
      if str <= end {
        buf[str] := '\0';
      } else if end >= 0 {
        buf[end] := '\0';
      }
    }

    method PutPrefix(base: nat, type0: Flags)
      requires Valid()
      modifies this, buf
      ensures Valid() && text == old(text) + PrefixText(base, type0)
    {
      if type0.special {
        if base == 8 {
          Put('0');
        } else if base == 16 {
          Put('0');
          Put(Digit(33, type0.large));
        }
      }
    }

    /** Emits the digits collected in `tmp`, the highest first. */
    method PutDigits(tmp: seq<char>, n: nat, ghost digits: string)
      requires Valid() && n == |digits| <= |tmp| && forall k | 0 <= k < n :: tmp[k] == digits[n - 1 - k]
      modifies this, buf
      ensures Valid() && text == old(text) + digits
    {
      var i := n;
      while i > 0
        invariant Valid() && 0 <= i <= n
        invariant text == old(text) + digits[..n - i]
      {
        i := i - 1;
        Put(tmp[i]);
      }
    }

    method Number(num: Int64, base: nat, size0: int, precision0: int, type0: Flags)
      requires Valid() && 2 <= base <= 36
      modifies this, buf
      ensures Valid() && text == old(text) + NumberText(num, base, size0, precision0, type0)
    {
      var type' := if type0.left then type0.(zeropad := false) else type0;
      var sign, size := SignAndWidth(num, base, size0, type');
      var tmp, i := ReversedDigits(Magnitude(num, type'.sign), base, type'.large);
      var precision := Max(precision0, i);
      size := size - precision;
      ghost var digits := DigitsText(Magnitude(num, type0.sign), base, type0.large);
      ghost var target := NumberText(num, base, size0, precision0, type0);
      assert target == Pieces(sign, PrefixText(base, type'), precision - i, digits, size, type') by {
        NumberLayout(num, base, size0, precision0, type0, size);
        SameLayout(sign, PrefixText(base, type0), precision - i, digits, size, type', type0);
      }
      PutPieces(sign, base, precision - i, tmp, i, digits, size, type');
    }

    /** The second half of `number`: everything that emits. */
    method PutPieces(sign: string, base: nat, zeros: nat, tmp: seq<char>, n: nat, ghost digits: string, size0: int,
                     type0: Flags)
      requires Valid() && (type0.left ==> !type0.zeropad)
      requires n == |digits| <= |tmp| && forall k | 0 <= k < n :: tmp[k] == digits[n - 1 - k]
      modifies this, buf
      ensures Valid()
      ensures text == old(text) + Pieces(sign, PrefixText(base, type0), zeros, digits, size0, type0)
    {
      var size := size0;
      if !type0.zeropad && !type0.left {
        Fill(' ', size);
        size := -1;
      }
      ghost var t1 := text;
      PutString(sign);
      PutPrefix(base, type0);
      ghost var t2 := text;
      if !type0.left {
        Fill(if type0.zeropad then '0' else ' ', size);
        size := -1;
      }
      ghost var t3 := text;
      Fill('0', zeros);
      PutDigits(tmp, n, digits);
      Fill(' ', size);
      ghost var blanks, fill := Repeat(' ', size0), Repeat('0', size0);
      ghost var lead := if !type0.zeropad && !type0.left then blanks else "";
      ghost var pad := if type0.zeropad then fill else "";
      ghost var trail := if type0.left then blanks else "";
      assert t1 == old(text) + lead;
      assert t2 == t1 + sign + PrefixText(base, type0);
      assert t3 == t2 + pad;
      assert text == t3 + Repeat('0', zeros) + digits + trail;
      AppendAll(old(text), lead, sign, PrefixText(base, type0), pad, Repeat('0', zeros), digits, trail);
    }
  }

  lemma AppendAll(t: string, a: string, b: string, c: string, d: string, e: string, f: string, g: string)
    ensures t + a + b + c + d + e + f + g == t + (a + b + c + d + e + f + g)
  {
  }

  /** The sign to print, and the field width less the room for sign and prefix. */
  method SignAndWidth(num: Int64, base: nat, size0: int, type0: Flags) returns (sign: string, size: int)
    ensures sign == SignText(num, type0)
    ensures size == size0 - |sign| - |PrefixText(base, type0)|
  {
    sign, size := "", size0;
    if type0.sign {
      if num < 0 {
        sign := "-";
        size := size - 1;
      } else if type0.plus {
        sign := "+";
        size := size - 1;
      } else if type0.space {
        sign := " ";
        size := size - 1;
      }
    }
    if type0.special {
      if base == 16 {
        size := size - 2;
      } else if base == 8 {
        size := size - 1;
      }
    }
  }

  /** The order in which the pieces of a number come out: `size` is what is left of the field width. */
  lemma NumberLayout(num: Int64, base: nat, size0: int, precision: int, f: Flags, size: int)
    requires 2 <= base <= 36
    requires var digits := |DigitsText(Magnitude(num, f.sign), base, f.large)|;
             size == size0 - |SignText(num, f)| - |PrefixText(base, f)| - Max(precision, digits)
    ensures var digits := DigitsText(Magnitude(num, f.sign), base, f.large);
            NumberText(num, base, size0, precision, f)
            == Pieces(SignText(num, f), PrefixText(base, f), Max(precision, |digits|) - |digits|, digits, size, f)
  {
    var digits := DigitsText(Magnitude(num, f.sign), base, f.large);
    assert Repeat('0', precision - |digits|) == Repeat('0', Max(precision, |digits|) - |digits|);
    PiecesJoin(SignText(num, f), PrefixText(base, f), Repeat('0', precision - |digits|), digits, Repeat(' ', size),
               Repeat('0', size));
  }

  /** What is emitted, in the order it is emitted. */
  ghost function Pieces(sign: string, prefix: string, zeros: int, digits: string, size: int, f: Flags): string {
    var blanks, fill := Repeat(' ', size), Repeat('0', size);
    (if !f.zeropad && !f.left then blanks else "") + sign + prefix + (if f.zeropad && !f.left then fill else "")
    + Repeat('0', zeros) + digits + (if f.left then blanks else "")
  }

  lemma SameLayout(sign: string, prefix: string, zeros: int, digits: string, size: int, f: Flags, g: Flags)
    requires f.left == g.left && (f.left || f.zeropad == g.zeropad)
    ensures Pieces(sign, prefix, zeros, digits, size, f) == Pieces(sign, prefix, zeros, digits, size, g)
  {
  }

  lemma PiecesJoin(sign: string, prefix: string, zeros: string, digits: string, blanks: string, fill: string)
    ensures "" + sign + prefix + fill + zeros + digits + "" == (sign + prefix) + fill + (zeros + digits)
    ensures "" + sign + prefix + "" + zeros + digits + blanks == ((sign + prefix) + (zeros + digits)) + blanks
    ensures blanks + sign + prefix + "" + zeros + digits + "" == blanks + ((sign + prefix) + (zeros + digits))
  {
  }

  /** One turn of the digit loop: `do_div` leaves the quotient and yields the digit to store. */
  method TakeDigit(num: nat, base: nat, large: bool) returns (q: nat, c: char)
    requires num > 0 && 2 <= base <= 36
    ensures q < num
    ensures DigitsText(num, base, large) == (if q == 0 then "" else DigitsText(q, base, large)) + [c]
  {
    QuotientShrinks(num, base);
    ghost var q', r := Euclid(num, base);
    if num < base {
      DivisionIsUnique(num, base, 0, num);
    } else if q' > 0 {
      DigitsUnfold(num, base, large, q', r);
    }
    c := Digit(num % base, large);
    q := num / base;
  }

  lemma DigitsUnfold(num: nat, base: nat, large: bool, q: nat, r: nat)
    requires 2 <= base <= 36 && num >= base && q == num / base && r == num % base
    ensures DigitsText(num, base, large) == DigitsText(q, base, large) + [Digit(r, large)]
  {
  }

  /** The digits in a buffer of 66 characters, the lowest first. */
  method ReversedDigits(m: UInt64, base: nat, large: bool) returns (tmp: seq<char>, i: nat)
    requires 2 <= base <= 36
    ensures i == |DigitsText(m, base, large)| <= |tmp|
    ensures forall k | 0 <= k < i :: tmp[k] == DigitsText(m, base, large)[i - 1 - k]
  {
    var a := new char[66];
    var num: nat := m;
    i := 0;
    ghost var all := DigitsText(m, base, large);
    ghost var rest := all;
    FewerThan65(m, base, large);
    if num == 0 {
      a[i] := '0';
      i := i + 1;
    } else {
      while num != 0
        invariant 0 <= i <= |all| <= 64 && rest == all[..|all| - i]
        invariant rest == if num == 0 then "" else DigitsText(num, base, large)
        invariant forall k | 0 <= k < i :: a[k] == all[|all| - 1 - k]
        decreases num
      {
        var c;
        num, c := TakeDigit(num, base, large);
        a[i] := c;
        assert c == all[|all| - 1 - i];
        rest := rest[..|rest| - 1];
        i := i + 1;
      }
    }
    tmp := a[..];
  }

  method SkipAtoi(s: CString, i0: nat) returns (v: nat, i: nat)
    ensures (v, i) == Atoi(s, i0, 0)
  {
    v, i := 0, i0;
    while IsDigit(CharAt(s, i))
      invariant Atoi(s, i, v) == Atoi(s, i0, 0)
      decreases |s| - i
    {
      v := v * 10 + s[i] as nat - '0' as nat;
      i := i + 1;
    }
  }

  /** The flags loop; `i0` is the index of the '%'. */
  method ReadFlags(fmt: CString, i0: nat) returns (f: Flags, i: nat)
    ensures (f, i) == ScanFlags(fmt, i0 + 1, NO_FLAGS)
  {
    f, i := NO_FLAGS, i0 + 1;
    while true
      invariant ScanFlags(fmt, i, f) == ScanFlags(fmt, i0 + 1, NO_FLAGS)
      decreases |fmt| - i
    {
      match CharAt(fmt, i) {
        case '-' => f := f.(left := true);
        case '+' => f := f.(plus := true);
        case ' ' => f := f.(space := true);
        case '#' => f := f.(special := true);
        case '0' => f := f.(zeropad := true);
        case _ => return;
      }
      i := i + 1;
    }
  }

  method ReadWidth(fmt: CString, p: Scan, f: Flags, args: Args) returns (width: int, f': Flags, p': Scan)
    ensures (width, f', p') == ScanWidth(fmt, p, f, args)
  {
    width, f', p' := -1, f, p;
    if IsDigit(CharAt(fmt, p.i)) {
      var i;
      width, i := SkipAtoi(fmt, p.i);
      p' := Scan(i, p.k);
    } else if CharAt(fmt, p.i) == '*' {
      width := Wrap(args(p.k).word, TWO_32, true);
      p' := Scan(p.i + 1, p.k + 1);
      if width < 0 {
        width := -width;
        f' := f.(left := true);
      }
    }
  }

  method ReadPrecision(fmt: CString, p: Scan, args: Args) returns (precision: int, p': Scan)
    ensures (precision, p') == ScanPrecision(fmt, p, args)
  {
    precision, p' := -1, p;
    if CharAt(fmt, p.i) == '.' {
      p' := Scan(p.i + 1, p.k);
      if IsDigit(CharAt(fmt, p'.i)) {
        var i;
        precision, i := SkipAtoi(fmt, p'.i);
        p' := Scan(i, p.k);
      } else if CharAt(fmt, p'.i) == '*' {
        precision := Wrap(args(p.k).word, TWO_32, true);
        p' := Scan(p'.i + 1, p.k + 1);
      }
      if precision < 0 {
        precision := 0;
      }
    }
  }

  method ReadQualifier(fmt: CString, i0: nat) returns (qualifier: char, i: nat)
    ensures (qualifier, i) == ScanQualifier(fmt, i0)
  {
    qualifier, i := '\0', i0;
    var c := CharAt(fmt, i);
    if c == 'h' || c == 'l' || c == 'L' || c == 'Z' {
      qualifier := c;
      i := i + 1;
      if qualifier == 'l' && CharAt(fmt, i) == 'l' {
        qualifier := 'L';
        i := i + 1;
      }
    }
  }

  method ConvertPointer(cur: Cursor, f: Flags, width: int, precision: int, word: int)
    requires cur.Valid()
    modifies cur, cur.buf
    ensures cur.Valid()
    ensures cur.text == old(cur.text) + Converted('p', f, width, precision, '\0', Arg(word, None)).0
  {
    if width == -1 {
      cur.Number(Wrap(word, TWO_32, true), 16, 2 * POINTER_BYTES, precision, f.(zeropad := true));
    } else {
      cur.Number(Wrap(word, TWO_32, true), 16, width, precision, f);
    }
  }

  method ConvertInteger(cur: Cursor, c: char, f: Flags, width: int, precision: int, qualifier: char, word: int)
    requires cur.Valid() && IsInteger(c)
    modifies cur, cur.buf
    ensures cur.Valid()
    ensures cur.text == old(cur.text) + Converted(c, f, width, precision, qualifier, Arg(word, None)).0
  {
    var f' := f.(sign := c == 'd' || c == 'i', large := c == 'X');
    cur.Number(IntegerArgument(qualifier, f'.sign, word), Base(c), width, precision, f');
  }

  method ConvertString(cur: Cursor, f: Flags, width: int, precision: int, text: Option<CString>)
    requires cur.Valid()
    modifies cur, cur.buf
    ensures cur.Valid()
    ensures cur.text == old(cur.text) + Converted('s', f, width, precision, '\0', Arg(0, text)).0
  {
    var s: string := if text.None? then "<NULL>" else text.value;
    var len := if 0 <= precision < |s| then precision else |s|;
    assert s[..|s|] == s;
    cur.PutJustified(f.left, s[..len], width);
  }

  /** The switch over the conversion character; returns the number of arguments taken. */
  method Convert(cur: Cursor, c: char, f: Flags, width: int, precision: int, qualifier: char, arg: Arg)
    returns (taken: nat)
    requires cur.Valid()
    modifies cur, cur.buf
    ensures cur.Valid()
    ensures var (text, k) := Converted(c, f, width, precision, qualifier, arg);
            cur.text == old(cur.text) + text && taken == k
  {
    taken := 1;
    if c == 'c' {
      cur.PutJustified(f.left, [Wrap(arg.word, 256, false) as char], width);
    } else if c == 's' {
      ConvertString(cur, f, width, precision, arg.text);
    } else if c == 'p' {
      ConvertPointer(cur, f, width, precision, arg.word);
    } else if c == 'n' {
      assert cur.text + "" == cur.text;
    } else if IsInteger(c) {
      ConvertInteger(cur, c, f, width, precision, qualifier, arg.word);
    } else {
      taken := 0;
      cur.Put('%');
      if c != '%' && c != '\0' {
        cur.Put(c);
      }
    }
  }

  method OneDirective(cur: Cursor, fmt: CString, p: Scan, args: Args) returns (p': Scan)
    requires cur.Valid() && p.i < |fmt|
    modifies cur, cur.buf
    ensures cur.Valid()
    ensures var (text, q) := Directive(fmt, p, args);
            cur.text == old(cur.text) + text && p' == q
  {
    var f, i := ReadFlags(fmt, p.i);
    var width, f', p1 := ReadWidth(fmt, Scan(i, p.k), f, args);
    var precision, p2 := ReadPrecision(fmt, p1, args);
    var qualifier, j := ReadQualifier(fmt, p2.i);
    var c := CharAt(fmt, j);
    var taken := Convert(cur, c, f', width, precision, qualifier, args(p2.k));
    p' := Scan(if c == '\0' then j else j + 1, p2.k + taken);
  }

  lemma FormatUnfolds(fmt: CString, p: Scan, args: Args) returns (text: string, q: Scan)
    requires p.i < |fmt| && fmt[p.i] == '%'
    ensures (text, q) == Directive(fmt, p, args)
    ensures p.i < q.i <= |fmt| && Format(fmt, p, args) == text + Format(fmt, q, args)
  {
    DirectiveAdvances(fmt, p, args);
    text, q := Directive(fmt, p, args).0, Directive(fmt, p, args).1;
  }

  lemma Associative(a: string, b: string, c: string)
    ensures a + b + c == a + (b + c)
  {
  }

  /** One turn of the main loop: what is still to come shrinks by what is emitted. */
  method FormatOne(cur: Cursor, fmt: CString, p: Scan, args: Args) returns (p': Scan)
    requires cur.Valid() && p.i < |fmt|
    modifies cur, cur.buf
    ensures cur.Valid() && p.i < p'.i <= |fmt|
    ensures cur.text + Format(fmt, p', args) == old(cur.text) + Format(fmt, p, args)
  {
    ghost var text0, text, q := cur.text, "", p;
    if fmt[p.i] != '%' {
      cur.Put(fmt[p.i]);
      p' := Scan(p.i + 1, p.k);
      text := [fmt[p.i]];
    } else {
      text, q := FormatUnfolds(fmt, p, args);
      p' := OneDirective(cur, fmt, p, args);
    }
    Associative(text0, text, Format(fmt, p', args));
  }

  method FormatAll(cur: Cursor, fmt: CString, args: Args)
    requires cur.Valid() && cur.text == ""
    modifies cur, cur.buf
    ensures cur.Valid() && cur.text == Format(fmt, Scan(0, 0), args)
  {
    var p := Scan(0, 0);
    while p.i < |fmt|
      invariant p.i <= |fmt| && cur.Valid()
      invariant cur.text + Format(fmt, p, args) == Format(fmt, Scan(0, 0), args)
      decreases |fmt| - p.i
    {
      p := FormatOne(cur, fmt, p, args);
    }
  }

  /** For every format, arguments and size: the return value is the length of the whole text whatever the size is,
      and of the buffer exactly the first min(length, size - 1) characters and a NUL are written. */
  method Vsnprintf(buf: array<char>, size: nat, fmt: CString, args: Args) returns (len: nat)
    requires size <= buf.Length
    modifies buf
    ensures len == |Format(fmt, Scan(0, 0), args)|
    ensures size == 0 ==> buf[..] == old(buf[..])
    ensures size > 0 ==>
              var n := if len < size then len else size - 1;
              && buf[..n] == Format(fmt, Scan(0, 0), args)[..n]
              && buf[n] == '\0'
              && buf[n + 1..] == old(buf[n + 1..])
  {
    var cur := new Cursor(buf, size);
    FormatAll(cur, fmt, args);
    cur.Terminate();
    len := cur.str;
  }
}
