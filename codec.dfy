/** The one-line text form of a ground-truth box.  The stream printer
    writes a box as `[W x H from (X, Y)]`, and the reader takes a line apart
    with `sscanf(line, "[%d x %d from (%d, %d)]", &w, &h, &x, &y)`.  The
    C library's matching rules are modelled directive by directive: a blank
    in the format matches any run of white space (possibly empty), `%d`
    skips white space, takes an optional sign and at least one digit, and
    any other character must match itself.  Scanning stops at the first
    directive that does not match, and only the conversions made before that
    point are stored. */
module BoxCodec {
  import opened Boxes
  import opened Options

  // ---------------------------------------------------------------------
  // Characters

  predicate IsDigit(c: char) {
    '0' <= c <= '9'
  }

  /** The white-space class of `isspace` in the C locale. */
  predicate IsBlank(c: char) {
    c == ' ' || c == '\t' || c == '\n' || c == '\r' || c == '\U{B}' || c == '\U{C}'
  }

  function DigitChar(d: int): (c: char)
    requires 0 <= d < 10
    ensures IsDigit(c)
  {
    (('0' as int) + d) as char
  }

  function DigitValue(c: char): int {
    (c as int) - ('0' as int)
  }

  predicate AllDigits(s: string) {
    forall i :: 0 <= i < |s| ==> IsDigit(s[i])
  }

  // ---------------------------------------------------------------------
  // Printing integers in decimal

  /** The decimal digits of `n`, most significant first, with no leading zero. */
  function NatToString(n: nat): (s: string)
    ensures |s| > 0 && IsDigit(s[0])
  {
    if n < 10 then [DigitChar(n)] else NatToString(n / 10) + [DigitChar(n % 10)]
  }

  /** A negative number is printed with a leading minus sign. */
  function IntToString(n: int): (s: string)
    ensures |s| > 0 && (IsDigit(s[0]) || s[0] == '-')
  {
    if n < 0 then "-" + NatToString(-n) else NatToString(n)
  }

  /** The value of a run of decimal digits. */
  function DigitsValue(s: string): int {
    if |s| == 0 then 0 else DigitsValue(s[..|s| - 1]) * 10 + DigitValue(s[|s| - 1])
  }

  lemma {:induction false} NatToStringDigits(n: nat)
    ensures AllDigits(NatToString(n))
  {
    if n >= 10 {
      NatToStringDigits(n / 10);
    }
  }

  /** Reading back the digits of `n` gives `n`. */
  lemma {:induction false} DigitsValueOfNat(n: nat)
    ensures DigitsValue(NatToString(n)) == n
  {
    var s := NatToString(n);
    if n >= 10 {
      DigitsValueOfNat(n / 10);
      assert s[..|s| - 1] == NatToString(n / 10);
    }
  }

  // ---------------------------------------------------------------------
  // Scanning

  /** The input with its leading white space removed. */
  function SkipBlanks(s: string): (r: string)
    ensures |r| <= |s|
    ensures |r| > 0 ==> !IsBlank(r[0])
  {
    if |s| > 0 && IsBlank(s[0]) then SkipBlanks(s[1..]) else s
  }

  /** The length of the run of digits the input starts with. */
  function DigitRun(s: string): (k: nat)
    ensures k <= |s|
    ensures k < |s| ==> !IsDigit(s[k])
  {
    if |s| > 0 && IsDigit(s[0]) then 1 + DigitRun(s[1..]) else 0
  }

  /** One `%d` conversion: the value and the rest of the input, or None when
      no digit follows the white space and the optional sign. */
  function ScanInt(s: string): Option<(int, string)> {
    var t := SkipBlanks(s);
    var signed := |t| > 0 && (t[0] == '-' || t[0] == '+');
    var body := if signed then t[1..] else t;
    var k := DigitRun(body);
    if k == 0 then None
    else
      var v: int := DigitsValue(body[..k]);
      Some((if signed && t[0] == '-' then -v else v, body[k..]))
  }

  /** A `scanf` format, compiled into its directives: a literal character,
      a white-space character, or a `%d` conversion, each followed by the
      rest of the format. */
  datatype Directives =
    | Done
    | Literal(c: char, next: Directives)
    | Blank(next: Directives)
    | Decimal(next: Directives)

  /** `", %d)]"`, the end of the format. */
  const CornerTail: Directives := Literal(',', Blank(Decimal(Literal(')', Literal(']', Done)))))

  /** `" from (%d, %d)]"`. */
  const FromTail: Directives :=
    Blank(Literal('f', Literal('r', Literal('o', Literal('m', Blank(Literal('(', Decimal(CornerTail))))))))

  /** `" x %d from (%d, %d)]"`. */
  const SizeTail: Directives := Blank(Literal('x', Blank(Decimal(FromTail))))

  /** `"[%d x %d from (%d, %d)]"`. */
  const Pattern: Directives := Literal('[', Decimal(SizeTail))

  /** The values converted, in order, before the first directive that fails. */
  function Scan(d: Directives, s: string): seq<int> {
    match d
    case Done => []
    case Literal(c, next) => if |s| > 0 && s[0] == c then Scan(next, s[1..]) else []
    case Blank(next) => Scan(next, SkipBlanks(s))
    case Decimal(next) =>
      match ScanInt(s)
      case None => []
      case Some((v, rest)) => [v] + Scan(next, rest)
  }

  // ---------------------------------------------------------------------
  // The four variables sscanf writes

  /** The variables `w, h, x, y`, which outlive each call. */
  datatype Fields = Fields(w: int, h: int, x: int, y: int)

  /** Store the conversions made, leaving the remaining variables as they were. */
  function Store(prev: Fields, vals: seq<int>): (f: Fields)
    ensures |vals| >= 1 ==> f.w == vals[0]
    ensures |vals| >= 2 ==> f.h == vals[1]
    ensures |vals| >= 3 ==> f.x == vals[2]
    ensures |vals| >= 4 ==> f.y == vals[3]
    ensures |vals| < 1 ==> f.w == prev.w
    ensures |vals| < 2 ==> f.h == prev.h
    ensures |vals| < 3 ==> f.x == prev.x
    ensures |vals| < 4 ==> f.y == prev.y
  {
    Fields(
      if |vals| >= 1 then vals[0] else prev.w,
      if |vals| >= 2 then vals[1] else prev.h,
      if |vals| >= 3 then vals[2] else prev.x,
      if |vals| >= 4 then vals[3] else prev.y)
  }

  /** The variables after `sscanf(line, "[%d x %d from (%d, %d)]", ...)`. */
  function ScanLine(line: string, prev: Fields): Fields {
    Store(prev, Scan(Pattern, line))
  }

  /** `Rect2d(x, y, w, h)`. */
  function ToBox(f: Fields): (b: Box)
    ensures b.x == f.x && b.y == f.y && b.w == f.w && b.h == f.h
  {
    Box(f.x, f.y, f.w, f.h)
  }

  function FieldsOf(b: Box): (f: Fields)
    ensures ToBox(f) == b
  {
    Fields(b.w, b.h, b.x, b.y)
  }

  // ---------------------------------------------------------------------
  // Printing a box

  /** The printed form `[W x H from (X, Y)]`, grouped from the right as
      the reader consumes it. */
  function Format(b: Box): string {
    "[" + (IntToString(b.w) + (" x " + (IntToString(b.h) + (" from ("
      + (IntToString(b.x) + (", " + (IntToString(b.y) + ")]")))))))
  }

  /** The fields of a `Rect2d` are doubles, printed with the stream's
      default precision of six significant digits: an integer-valued double
      comes out in plain decimal, as Format writes it, only while its
      magnitude stays below one million.  From there on the printer switches
      to exponent form (`1e+06`), which Format does not model. */
  predicate Printable(b: Box) {
    -1000000 < b.x < 1000000 && -1000000 < b.y < 1000000
    && -1000000 < b.w < 1000000 && -1000000 < b.h < 1000000
  }

  // ---------------------------------------------------------------------
  // Reading a printed box back

  /** A digit run stops where the digits stop. */
  lemma {:induction false} DigitRunOfDigits(d: string, rest: string)
    requires AllDigits(d)
    requires |rest| == 0 || !IsDigit(rest[0])
    ensures DigitRun(d + rest) == |d|
  {
    if |d| > 0 {
      assert (d + rest)[1..] == d[1..] + rest;
      DigitRunOfDigits(d[1..], rest);
    }
  }

  /** `%d` reads back a printed integer and stops before what follows it. */
  lemma ScanIntOfString(n: int, rest: string)
    requires |rest| == 0 || !IsDigit(rest[0])
    ensures ScanInt(IntToString(n) + rest) == Some((n, rest))
  {
    if n < 0 {
      ScanIntMinus(n, rest);
    } else {
      ScanIntUnsigned(n, rest);
    }
  }

  lemma ScanIntMinus(n: int, rest: string)
    requires n < 0
    requires |rest| == 0 || !IsDigit(rest[0])
    ensures ScanInt(IntToString(n) + rest) == Some((n, rest))
  {
    var m: nat := -n;
    var d := NatToString(m);
    assert IntToString(n) == "-" + d;
    assert ("-" + d) + rest == "-" + (d + rest);
    ScanIntNegative(m, rest);
  }

  lemma ScanIntUnsigned(m: nat, rest: string)
    requires |rest| == 0 || !IsDigit(rest[0])
    ensures ScanInt(NatToString(m) + rest) == Some((m, rest))
  {
    var s := NatToString(m) + rest;
    assert s[0] == NatToString(m)[0];
    assert SkipBlanks(s) == s;
    ScanDigits(m, rest);
  }

  lemma ScanIntNegative(m: nat, rest: string)
    requires |rest| == 0 || !IsDigit(rest[0])
    ensures ScanInt("-" + (NatToString(m) + rest)) == Some((-(m as int), rest))
  {
    var body := NatToString(m) + rest;
    var s := "-" + body;
    assert s[0] == '-' && s[1..] == body;
    assert SkipBlanks(s) == s;
    ScanDigits(m, rest);
  }

  /** The digits of `m` followed by a non-digit scan to `m` and stop there. */
  lemma ScanDigits(m: nat, rest: string)
    requires |rest| == 0 || !IsDigit(rest[0])
    ensures var d := NatToString(m);
      && DigitRun(d + rest) == |d|
      && DigitsValue((d + rest)[..|d|]) == m
      && (d + rest)[|d|..] == rest
  {
    var d := NatToString(m);
    NatToStringDigits(m);
    DigitRunOfDigits(d, rest);
    assert (d + rest)[..|d|] == d;
    DigitsValueOfNat(m);
  }

  lemma ScanLiteralStep(c: char, next: Directives, s: string)
    ensures Scan(Literal(c, next), [c] + s) == Scan(next, s)
  {
    assert ([c] + s)[1..] == s;
  }

  lemma ScanBlankStep(next: Directives, s: string)
    requires |s| == 0 || !IsBlank(s[0])
    ensures Scan(Blank(next), " " + s) == Scan(next, s)
  {
    var t := " " + s;
    assert t[0] == ' ' && t[1..] == s;
    assert SkipBlanks(s) == s;
    assert SkipBlanks(t) == s;
  }

  lemma ScanDecimalStep(next: Directives, n: int, s: string)
    requires |s| == 0 || !IsDigit(s[0])
    ensures Scan(Decimal(next), IntToString(n) + s) == [n] + Scan(next, s)
  {
    ScanIntOfString(n, s);
  }

  /** `", %d)]"` reads the last number and matches to the end. */
  lemma ScanCornerTail(y: int)
    ensures Scan(CornerTail, ", " + (IntToString(y) + ")]")) == [y]
  {
    var s3 := ")" + "]";
    var s2 := IntToString(y) + s3;
    var s1 := " " + s2;
    assert ", " + (IntToString(y) + ")]") == "," + s1;
    ScanLiteralStep(',', Blank(Decimal(Literal(')', Literal(']', Done)))), s1);
    ScanBlankStep(Decimal(Literal(')', Literal(']', Done))), s2);
    ScanDecimalStep(Literal(')', Literal(']', Done)), y, s3);
    ScanLiteralStep(')', Literal(']', Done), "]");
    ScanLiteralStep(']', Done, "");
  }

  /** `" from ("` matches the text it describes. */
  lemma ScanFromWord(rest: string)
    ensures Scan(FromTail, " from (" + rest) == Scan(Decimal(CornerTail), rest)
  {
    var s6 := "(" + rest;
    var s5 := " " + s6;
    var s4 := "m" + s5;
    var s3 := "o" + s4;
    var s2 := "r" + s3;
    var s1 := "f" + s2;
    assert " from (" + rest == " " + s1;
    var d6 := Literal('(', Decimal(CornerTail));
    var d5 := Blank(d6);
    var d4 := Literal('m', d5);
    var d3 := Literal('o', d4);
    var d2 := Literal('r', d3);
    ScanBlankStep(Literal('f', d2), s1);
    ScanLiteralStep('f', d2, s2);
    ScanLiteralStep('r', d3, s3);
    ScanLiteralStep('o', d4, s4);
    ScanLiteralStep('m', d5, s5);
    ScanBlankStep(d6, s6);
    ScanLiteralStep('(', Decimal(CornerTail), rest);
  }

  /** `"%d, %d)]"` reads the corner. */
  lemma ScanCorner(x: int, y: int)
    ensures Scan(Decimal(CornerTail), IntToString(x) + (", " + (IntToString(y) + ")]"))) == [x, y]
  {
    ScanDecimalStep(CornerTail, x, ", " + (IntToString(y) + ")]"));
    ScanCornerTail(y);
  }

  /** `" x "` matches the text it describes. */
  lemma ScanSizeWord(t: string)
    requires |t| > 0 && !IsBlank(t[0])
    ensures Scan(SizeTail, " x " + t) == Scan(Decimal(FromTail), t)
  {
    var s2 := " " + t;
    var s1 := "x" + s2;
    assert " x " + t == " " + s1;
    ScanBlankStep(Literal('x', Blank(Decimal(FromTail))), s1);
    ScanLiteralStep('x', Blank(Decimal(FromTail)), s2);
    ScanBlankStep(Decimal(FromTail), t);
  }

  /** `" x %d"` reads the height. */
  lemma ScanSizeTail(h: int, rest: string)
    requires |rest| > 0 && rest[0] == ' '
    ensures Scan(SizeTail, " x " + (IntToString(h) + rest)) == [h] + Scan(FromTail, rest)
  {
    ScanSizeWord(IntToString(h) + rest);
    ScanDecimalStep(FromTail, h, rest);
  }

  /** The reader's pattern converts all four numbers of a printed box. */
  lemma ScanFormat(b: Box)
    ensures Scan(Pattern, Format(b)) == [b.w, b.h, b.x, b.y]
  {
    var corner := IntToString(b.x) + (", " + (IntToString(b.y) + ")]"));
    var from := " from (" + corner;
    var size := " x " + (IntToString(b.h) + from);
    var s1 := IntToString(b.w) + size;
    ScanLiteralStep('[', Decimal(SizeTail), s1);
    ScanDecimalStep(SizeTail, b.w, size);
    ScanSizeTail(b.h, from);
    ScanFromWord(corner);
    ScanCorner(b.x, b.y);
  }

  /** Round trip: reading a printed box restores all four variables,
      whatever they held before. */
  lemma ScanLineFormat(b: Box, prev: Fields)
    ensures ScanLine(Format(b), prev) == FieldsOf(b)
    ensures ToBox(ScanLine(Format(b), prev)) == b
  {
    ScanFormat(b);
  }

  // ---------------------------------------------------------------------
  // Lines that do not match

  /** A line that does not start with `[` converts nothing: all four
      variables keep what the previous line left in them. */
  lemma ScanLineNoBracket(line: string, prev: Fields)
    requires |line| == 0 || line[0] != '['
    ensures ScanLine(line, prev) == prev
  {
  }

  /** A line that stops matching after the size keeps the previous corner:
      `[3 x 4 from [5, 6]]` sets the width and the height only. */
  lemma ScanLinePartial(prev: Fields)
    ensures ScanLine("[3 x 4 from [5, 6]]", prev) == Fields(3, 4, prev.x, prev.y)
  {
    var corner := "[5, 6]]";
    assert "[3 x 4 from [5, 6]]" == "[" + (IntToString(3) + (" x " + (IntToString(4) + (" from " + corner))));
    ScanLiteralStep('[', Decimal(SizeTail), IntToString(3) + (" x " + (IntToString(4) + (" from " + corner))));
    ScanDecimalStep(SizeTail, 3, " x " + (IntToString(4) + (" from " + corner)));
    ScanSizeTail(4, " from " + corner);
    ScanFromMismatch(corner);
  }

  /** A box one million pixels wide is printed as `[1e+06 x 5 from (0, 0)]`.
      On any line where the mantissa `1` is followed by an exponent, `%d`
      reads the 1 as the width and the scan stops at the `e`.  The height
      and the corner keep the previous line's values. */
  lemma ScanLineExponent(rest: string, prev: Fields)
    requires |rest| > 0 && rest[0] == 'e'
    ensures ScanLine("[1" + rest, prev) == Fields(1, prev.h, prev.x, prev.y)
  {
    assert IntToString(1) == "1";
    assert "[1" + rest == "[" + (IntToString(1) + rest);
    ScanLiteralStep('[', Decimal(SizeTail), IntToString(1) + rest);
    ScanDecimalStep(SizeTail, 1, rest);
    assert SkipBlanks(rest) == rest;
  }

  /** `" from ("` fails at the parenthesis when the line has a bracket there. */
  lemma ScanFromMismatch(rest: string)
    requires |rest| > 0 && rest[0] == '['
    ensures Scan(FromTail, " from " + rest) == []
  {
    var s5 := " " + rest;
    var s4 := "m" + s5;
    var s3 := "o" + s4;
    var s2 := "r" + s3;
    var s1 := "f" + s2;
    assert " from " + rest == " " + s1;
    var d6 := Literal('(', Decimal(CornerTail));
    var d5 := Blank(d6);
    var d4 := Literal('m', d5);
    var d3 := Literal('o', d4);
    var d2 := Literal('r', d3);
    ScanBlankStep(Literal('f', d2), s1);
    ScanLiteralStep('f', d2, s2);
    ScanLiteralStep('r', d3, s3);
    ScanLiteralStep('o', d4, s4);
    ScanLiteralStep('m', d5, s5);
    ScanBlankStep(d6, rest);
  }
}
