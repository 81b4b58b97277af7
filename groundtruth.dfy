/** The ground-truth file: `save_box` writes one printed box per line, and
    `read_box` splits the file into lines with `getline` and scans each line
    into the four variables `w, h, x, y`, which are declared once, outside
    the loop, and start out holding whatever was in memory. */
module GroundTruth {
  import opened Boxes
  import opened Options
  import opened BoxCodec

  // ---------------------------------------------------------------------
  // getline

  predicate NoNewline(s: string) {
    forall i :: 0 <= i < |s| ==> s[i] != '\n'
  }

  /** The index of the first line break, or the length when there is none. */
  function LineEnd(text: string): (k: nat)
    ensures k <= |text|
    ensures k < |text| ==> text[k] == '\n'
    ensures NoNewline(text[..k])
  {
    if |text| == 0 || text[0] == '\n' then 0
    else
      var k := 1 + LineEnd(text[1..]);
      assert text[..k] == [text[0]] + text[1..][..k - 1];
      k
  }

  /** The lines `while (getline(fp, line))` reads: each line break ends a
      line, and text after the last break is a line of its own only when it
      is not empty. */
  function Lines(text: string): (r: seq<string>)
    ensures forall i :: 0 <= i < |r| ==> NoNewline(r[i])
    decreases |text|
  {
    if |text| == 0 then []
    else
      var k := LineEnd(text);
      if k < |text| then [text[..k]] + Lines(text[k + 1..]) else [text]
  }

  /** getline takes a line break-free prefix and the break that ends it. */
  lemma LinesCons(line: string, rest: string)
    requires NoNewline(line)
    ensures Lines(line + "\n" + rest) == [line] + Lines(rest)
  {
    var text := line + "\n" + rest;
    LineEndOf(line, rest);
    assert text[..|line|] == line;
    assert text[|line| + 1..] == rest;
  }

  lemma {:induction false} LineEndOf(line: string, rest: string)
    requires NoNewline(line)
    ensures LineEnd(line + "\n" + rest) == |line|
  {
    if |line| > 0 {
      assert (line + "\n" + rest)[1..] == line[1..] + "\n" + rest;
      LineEndOf(line[1..], rest);
    }
  }

  // ---------------------------------------------------------------------
  // read_box

  /** The variables after scanning `lines[..i]`, starting from `init`. */
  function CarryAfter(lines: seq<string>, init: Fields, i: nat): Fields
    requires i <= |lines|
  {
    if i == 0 then init else ScanLine(lines[i - 1], CarryAfter(lines, init, i - 1))
  }

  /** The boxes read from `lines`, with the variables holding `carry`
      before the first line. */
  function ReadAll(lines: seq<string>, carry: Fields): (r: seq<Box>)
    ensures |r| == |lines|
  {
    if |lines| == 0 then [] else
      var f := ScanLine(lines[0], carry);
      [ToBox(f)] + ReadAll(lines[1..], f)
  }

  /** The loop over the lines, with `init` the variables' initial contents. */
  method ReadBoxLines(lines: seq<string>, init: Fields) returns (read: seq<Box>)
    ensures read == ReadAll(lines, init)
  {
    read := [];
    var w, h, x, y := init.w, init.h, init.x, init.y;
    var i := 0;
    while i < |lines|
      invariant 0 <= i <= |lines|
      invariant ReadAll(lines, init) == read + ReadAll(lines[i..], Fields(w, h, x, y))
    {
      var f := ScanLine(lines[i], Fields(w, h, x, y));
      w, h, x, y := f.w, f.h, f.x, f.y;
      read := read + [Box(x, y, w, h)];
      assert lines[i..][1..] == lines[i + 1..];
      i := i + 1;
    }
    assert lines[i..] == [];
  }

  /** `read_box(fname)`: the file's contents, or None when it cannot be
      opened, which reads as a file with no lines. */
  method ReadBoxFile(contents: Option<string>, init: Fields) returns (read: seq<Box>)
    ensures contents.None? ==> read == []
    ensures contents.Some? ==> read == ReadAll(Lines(contents.value), init)
  {
    var lines: seq<string> := [];
    if contents.Some? {
      lines := Lines(contents.value);
    }
    read := ReadBoxLines(lines, init);
  }

  /** One box per line, in line order: box `i` is what line `i` leaves in
      the variables after the lines before it. */
  lemma {:induction false} ReadAllAt(lines: seq<string>, carry: Fields, i: nat)
    requires i < |lines|
    ensures ReadAll(lines, carry)[i] == ToBox(ScanLine(lines[i], CarryAfter(lines, carry, i)))
  {
    if i > 0 {
      ReadAllAt(lines[1..], ScanLine(lines[0], carry), i - 1);
      CarryAfterShift(lines, carry, i);
    }
  }

  lemma {:induction false} CarryAfterShift(lines: seq<string>, carry: Fields, i: nat)
    requires 0 < i <= |lines|
    ensures CarryAfter(lines[1..], ScanLine(lines[0], carry), i - 1) == CarryAfter(lines, carry, i)
  {
    if i > 1 {
      CarryAfterShift(lines, carry, i - 1);
      assert lines[1..][i - 2] == lines[i - 1];
    }
  }

  /** The carried values are the previous box's: for every line after the
      first, the box is the previous box with the fields this line converts
      written over it. */
  lemma ReadAllCarries(lines: seq<string>, carry: Fields, i: nat)
    requires 0 < i < |lines|
    ensures var r := ReadAll(lines, carry);
      r[i] == ToBox(ScanLine(lines[i], FieldsOf(r[i - 1])))
  {
    ReadAllAt(lines, carry, i);
    ReadAllAt(lines, carry, i - 1);
    var f := CarryAfter(lines, carry, i);
    assert FieldsOf(ToBox(f)) == f;
  }

  /** A line with no `[` at its start repeats the previous box (for the first
      line: the box made of the variables' initial contents). */
  lemma ReadAllMalformed(lines: seq<string>, carry: Fields, i: nat)
    requires i < |lines| && (|lines[i]| == 0 || lines[i][0] != '[')
    ensures var r := ReadAll(lines, carry);
      r[i] == if i == 0 then ToBox(carry) else r[i - 1]
  {
    ReadAllAt(lines, carry, i);
    ScanLineNoBracket(lines[i], CarryAfter(lines, carry, i));
    if i > 0 {
      ReadAllAt(lines, carry, i - 1);
    }
  }

  /** Reading lines each of which scans to its box, whatever the variables
      held before, gives back the boxes. */
  lemma {:induction false} ReadScanned(lines: seq<string>, bounds: seq<Box>, carry: Fields)
    requires |lines| == |bounds|
    requires forall i, prev :: 0 <= i < |lines| ==> ScanLine(lines[i], prev) == FieldsOf(bounds[i])
    ensures ReadAll(lines, carry) == bounds
  {
    if |lines| > 0 {
      var f := ScanLine(lines[0], carry);
      assert f == FieldsOf(bounds[0]);
      forall i, prev | 0 <= i < |lines| - 1
        ensures ScanLine(lines[1..][i], prev) == FieldsOf(bounds[1..][i])
      {
        assert lines[1..][i] == lines[i + 1];
        assert ScanLine(lines[i + 1], prev) == FieldsOf(bounds[i + 1]);
      }
      ReadScanned(lines[1..], bounds[1..], f);
      assert [bounds[0]] + bounds[1..] == bounds;
    }
  }

  // ---------------------------------------------------------------------
  // save_box

  /** Lines, each followed by a line break. */
  function Unlines(lines: seq<string>): string {
    if |lines| == 0 then "" else lines[0] + "\n" + Unlines(lines[1..])
  }

  /** Adding a line at the end adds it and its line break to the text. */
  lemma {:induction false} UnlinesSnoc(lines: seq<string>, line: string)
    ensures Unlines(lines + [line]) == Unlines(lines) + (line + "\n")
  {
    if |lines| > 0 {
      assert (lines + [line])[1..] == lines[1..] + [line];
      UnlinesSnoc(lines[1..], line);
    } else {
      assert lines + [line] == [line];
    }
  }

  lemma UnlinesPrefix(lines: seq<string>, i: nat)
    requires i < |lines|
    ensures Unlines(lines[..i + 1]) == Unlines(lines[..i]) + (lines[i] + "\n")
  {
    assert lines[..i + 1] == lines[..i] + [lines[i]];
    UnlinesSnoc(lines[..i], lines[i]);
  }

  /** getline splits joined lines back into the same lines. */
  lemma {:induction false} LinesOfUnlines(lines: seq<string>)
    requires forall i :: 0 <= i < |lines| ==> NoNewline(lines[i])
    ensures Lines(Unlines(lines)) == lines
  {
    if |lines| > 0 {
      LinesCons(lines[0], Unlines(lines[1..]));
      LinesOfUnlines(lines[1..]);
      assert lines == [lines[0]] + lines[1..];
    }
  }

  /** Each box as `operator<<` prints it. */
  function Formats(bounds: seq<Box>): seq<string> {
    seq(|bounds|, i requires 0 <= i < |bounds| => Format(bounds[i]))
  }

  /** The text `fp << *it << "\n"` writes for each box in order. */
  function SaveText(bounds: seq<Box>): string {
    Unlines(Formats(bounds))
  }

  /** The loop over the boxes. */
  method SaveBox(bounds: seq<Box>) returns (text: string)
    ensures text == SaveText(bounds)
  {
    ghost var lines := Formats(bounds);
    text := "";
    var i := 0;
    while i < |bounds|
      invariant 0 <= i <= |bounds|
      invariant text == Unlines(lines[..i])
    {
      var line := Format(bounds[i]);
      UnlinesPrefix(lines, i);
      text := text + (line + "\n");
      i := i + 1;
    }
    assert lines[..i] == lines;
  }

  /** A printed box fits on one line. */
  lemma FormatNoNewline(b: Box)
    ensures NoNewline(Format(b))
  {
    IntNoNewline(b.w);
    IntNoNewline(b.h);
    IntNoNewline(b.x);
    IntNoNewline(b.y);
  }

  lemma IntNoNewline(n: int)
    ensures NoNewline(IntToString(n))
  {
    var m: nat := if n < 0 then -n else n;
    NatToStringDigits(m);
  }

  /** The saved text is one line per box, in order. */
  lemma LinesOfSaveText(bounds: seq<Box>)
    ensures Lines(SaveText(bounds)) == Formats(bounds)
  {
    var lines := Formats(bounds);
    forall i | 0 <= i < |lines|
      ensures NoNewline(lines[i])
    {
      FormatNoNewline(bounds[i]);
    }
    LinesOfUnlines(lines);
  }

  /** Round trip: reading back the saved text gives back the boxes, whatever
      the variables held before the first line, as long as every field is
      printed in plain decimal (below one million in magnitude). */
  lemma ReadSaved(bounds: seq<Box>, init: Fields)
    requires forall i :: 0 <= i < |bounds| ==> Printable(bounds[i])
    ensures ReadAll(Lines(SaveText(bounds)), init) == bounds
  {
    LinesOfSaveText(bounds);
    var lines := Formats(bounds);
    forall i, prev | 0 <= i < |lines|
      ensures ScanLine(lines[i], prev) == FieldsOf(bounds[i])
    {
      ScanLineFormat(bounds[i], prev);
    }
    ReadScanned(lines, bounds, init);
  }
}
