/** The stand-alone mesh viewer: read one scalar per line of a text file,
    check that there is one scalar per mesh vertex, and only then attach the
    scalars to the mesh as its `scalars` point field. */
module ObjViewer {
  import opened Wrappers
  import opened Strings

  /** The lines Python's file iteration yields. */
  function Lines(text: string): (r: seq<string>)
    ensures |r| <= |text|
    decreases |text|
  {
    if text == [] then []
    else
      var head := FirstField(text, '\n');
      if |head| < |text| then [head + "\n"] + Lines(text[|head| + 1..])
      else [text]
  }

  /** A line holds a `\n` only as its last character. */
  predicate OneLine(line: string) {
    line != [] && '\n' !in line[..|line| - 1]
  }

  predicate EndsLine(line: string) {
    line != [] && line[|line| - 1] == '\n'
  }

  /** Each line is non-empty and holds a `\n` only as its last character;
      every line but the last ends in `\n`. */
  predicate LineShaped(lines: seq<string>) {
    && (forall i :: 0 <= i < |lines| ==> OneLine(lines[i]))
    && (forall i :: 0 <= i < |lines| - 1 ==> EndsLine(lines[i]))
  }

  /** The first line of a non-empty text: up to and including the first
      `\n`, or the whole text when there is none. */
  lemma FirstLine(text: string)
    requires text != []
    ensures var head := FirstField(text, '\n');
      && '\n' !in head && |head| <= |text|
      && (|head| < |text| ==>
            && text == head + "\n" + text[|head| + 1..]
            && Lines(text) == [head + "\n"] + Lines(text[|head| + 1..]))
      && (|head| == |text| ==> head == text && Lines(text) == [text])
  {
    var head := FirstField(text, '\n');
    if |head| < |text| {
      assert text == head + "\n" + text[|head| + 1..];
    }
  }

  /** A line up to its `\n` is shaped as a line that ends one. */
  lemma HeadLine(head: string)
    requires '\n' !in head
    ensures OneLine(head + "\n") && EndsLine(head + "\n")
  {
    assert (head + "\n")[..|head|] == head;
  }

  /** Shaped lines stay shaped behind a line that ends in `\n`. */
  lemma ShapedCons(line: string, tail: seq<string>)
    requires OneLine(line) && EndsLine(line) && LineShaped(tail)
    ensures LineShaped([line] + tail)
  {
    var lines := [line] + tail;
    assert forall i :: 1 <= i < |lines| ==> lines[i] == tail[i - 1];
  }

  /** Splitting yields properly shaped lines. */
  lemma {:induction false} LinesShape(text: string)
    ensures LineShaped(Lines(text))
    decreases |text|
  {
    if text != [] {
      var head := FirstField(text, '\n');
      FirstLine(text);
      if |head| < |text| {
        LinesShape(text[|head| + 1..]);
        HeadLine(head);
        ShapedCons(head + "\n", Lines(text[|head| + 1..]));
      } else {
        assert OneLine(text) by { assert text[..|text| - 1] <= text; }
      }
    }
  }

  /** The lines glued back together. */
  function Flatten(lines: seq<string>): string {
    if lines == [] then [] else lines[0] + Flatten(lines[1..])
  }

  /** Splitting into lines loses and adds nothing. */
  lemma {:induction false} LinesCoverText(text: string)
    ensures Flatten(Lines(text)) == text
    decreases |text|
  {
    if text != [] {
      var head := FirstField(text, '\n');
      FirstLine(text);
      if |head| < |text| {
        LinesCoverText(text[|head| + 1..]);
      }
    }
  }

  /** Number of occurrences of `c` in `s`. */
  function Count(s: string, c: char): nat {
    if s == [] then 0 else (if s[0] == c then 1 else 0) + Count(s[1..], c)
  }

  lemma {:induction false} CountAppend(a: string, b: string, c: char)
    ensures Count(a + b, c) == Count(a, c) + Count(b, c)
  {
    if a != [] {
      assert (a + b)[0] == a[0];
      assert (a + b)[1..] == a[1..] + b;
      CountAppend(a[1..], b, c);
    } else {
      assert a + b == b;
    }
  }

  /** A line's `\n` counts once. */
  lemma CountLine(head: string, rest: string)
    requires '\n' !in head
    ensures Count(head + "\n" + rest, '\n') == 1 + Count(rest, '\n')
  {
    CountAppend(head + "\n", rest, '\n');
    CountAppend(head, "\n", '\n');
    assert Count("\n", '\n') == 1;
    NoOccurrence(head, '\n');
  }

  /** One line per `\n`, plus one for a last line without it. */
  lemma {:induction false} LineCount(text: string)
    ensures |Lines(text)| == Count(text, '\n') + (if text == [] || EndsLine(text) then 0 else 1)
    decreases |text|
  {
    if text != [] {
      var head := FirstField(text, '\n');
      FirstLine(text);
      if |head| < |text| {
        var rest := text[|head| + 1..];
        LineCount(rest);
        CountLine(head, rest);
        LastOfLine(head, rest);
      } else {
        NoOccurrence(text, '\n');
      }
    }
  }

  /** A text made of a line and a rest ends a line where the rest does, or
      right after that line when there is no rest. */
  lemma LastOfLine(head: string, rest: string)
    ensures EndsLine(head + "\n" + rest) == (rest == [] || EndsLine(rest))
  {
    var text := head + "\n" + rest;
    if rest != [] {
      assert text[|text| - 1] == rest[|rest| - 1];
    }
  }

  lemma {:induction false} NoOccurrence(s: string, c: char)
    requires c !in s
    ensures Count(s, c) == 0
  {
    if s != [] {
      assert s[1..] <= s[1..];
      assert forall x :: x in s[1..] ==> x in s;
      NoOccurrence(s[1..], c);
    }
  }

  /** The characters `str.strip()` removes (the ASCII ones). */
  predicate IsSpace(c: char) {
    c == ' ' || c == '\t' || c == '\n' || c == '\r' || c == '\U{000B}' || c == '\U{000C}'
  }

  function StripLeft(s: string): (r: string)
    ensures EndsWith(s, r)
    ensures r == [] || !IsSpace(r[0])
    ensures forall i :: 0 <= i < |s| - |r| ==> IsSpace(s[i])
  {
    if s != [] && IsSpace(s[0]) then StripLeft(s[1..]) else s
  }

  function StripRight(s: string): (r: string)
    ensures StartsWith(s, r)
    ensures r == [] || !IsSpace(r[|r| - 1])
    ensures forall i :: |r| <= i < |s| ==> IsSpace(s[i])
  {
    if s != [] && IsSpace(s[|s| - 1]) then StripRight(s[..|s| - 1]) else s
  }

  /** `r` stands at position `i` of `s`, with only white space around it. */
  predicate Trimmed(s: string, i: nat, r: string) {
    && i + |r| <= |s| && s[i..i + |r|] == r
    && (forall j :: 0 <= j < i ==> IsSpace(s[j]))
    && (forall j :: i + |r| <= j < |s| ==> IsSpace(s[j]))
  }

  /** `str.strip()`: `s` without its leading and trailing white space. */
  function Strip(s: string): (r: string)
    ensures r == [] || (!IsSpace(r[0]) && !IsSpace(r[|r| - 1]))
  {
    StripRight(StripLeft(s))
  }

  /** Cutting white space off the front of `s` (leaving `left`) and then
      off the back of `left` (leaving `r`) trims `s` to `r`. */
  lemma TrimmedOf(s: string, left: string, r: string)
    requires EndsWith(s, left) && (forall j :: 0 <= j < |s| - |left| ==> IsSpace(s[j]))
    requires StartsWith(left, r) && (forall j :: |r| <= j < |left| ==> IsSpace(left[j]))
    ensures Trimmed(s, |s| - |left|, r)
  {
    var i := |s| - |left|;
    assert s[i..i + |r|] == left[..|r|];
    forall j | i + |r| <= j < |s|
      ensures IsSpace(s[j])
    {
      assert s[j] == s[i..][j - i];
    }
  }

  /** What `Strip` drops is white space on either side, and nothing else. */
  lemma StripTrims(s: string)
    ensures exists i :: Trimmed(s, i, Strip(s))
  {
    var left := StripLeft(s);
    TrimmedOf(s, left, StripRight(left));
    assert Trimmed(s, |s| - |left|, Strip(s));
  }

  /** One line read as a number: `float(line.strip())`. */
  function ParseLine(line: string, parse: string -> Option<real>): Option<real> {
    parse(Strip(line))
  }

  /** Every line parses. */
  predicate AllParse(lines: seq<string>, parse: string -> Option<real>) {
    forall i :: 0 <= i < |lines| ==> ParseLine(lines[i], parse).Some?
  }

  /** Parse every line, in order; `None` as soon as one does not parse. */
  function ParseLines(lines: seq<string>, parse: string -> Option<real>): (r: Option<seq<real>>)
    ensures r.Some? ==> |r.value| == |lines|
  {
    if lines == [] then Some([])
    else
      match ParseLine(lines[0], parse)
      case None => None
      case Some(x) =>
        match ParseLines(lines[1..], parse)
        case None => None
        case Some(rest) => Some([x] + rest)
  }

  /** Every line parses exactly when the first one and all the others do. */
  lemma AllParseCons(lines: seq<string>, parse: string -> Option<real>)
    requires lines != []
    ensures AllParse(lines, parse) <==> ParseLine(lines[0], parse).Some? && AllParse(lines[1..], parse)
  {
    assert forall i :: 1 <= i < |lines| ==> lines[i] == lines[1..][i - 1];
  }

  /** The parse succeeds exactly when every line parses, and then holds
      each line's number at that line's position. */
  lemma {:induction false} ParseLinesMeaning(lines: seq<string>, parse: string -> Option<real>)
    ensures ParseLines(lines, parse).Some? <==> AllParse(lines, parse)
    ensures ParseLines(lines, parse).Some? ==>
      forall i :: 0 <= i < |lines| ==> ParseLine(lines[i], parse) == Some(ParseLines(lines, parse).value[i])
  {
    if lines != [] {
      var tail := lines[1..];
      ParseLinesMeaning(tail, parse);
      AllParseCons(lines, parse);
      var r := ParseLines(lines, parse);
      if r.Some? {
        var rest := ParseLines(tail, parse).value;
        forall i | 1 <= i < |lines|
          ensures ParseLine(lines[i], parse) == Some(r.value[i])
        {
          assert lines[i] == tail[i - 1] && r.value[i] == rest[i - 1];
        }
      }
    }
  }

  /** `load_scalar_from_file`: one scalar per line of the file,
      in file order, each line parsed after stripping; `None` stands for the
      `ValueError` of a line that is not a number. `parse` is Python's
      `float`. */
  function LoadScalars(text: string, parse: string -> Option<real>): (r: Option<seq<real>>)
    ensures r.Some? <==> AllParse(Lines(text), parse)
    ensures r.Some? ==> |r.value| == |Lines(text)|
    ensures r.Some? ==> forall i :: 0 <= i < |r.value| ==> ParseLine(Lines(text)[i], parse) == Some(r.value[i])
  {
    ParseLinesMeaning(Lines(text), parse);
    ParseLines(Lines(text), parse)
  }

  /** The error text of the cardinality check: it names the scalar count
      first and the vertex count second, each in parentheses. */
  function MismatchMessage(count: nat, vertices: nat): (r: string)
    ensures StartsWith(r, "Number of scalars (" + Show(count) + ")")
    ensures EndsWith(r, "(" + Show(vertices) + ")")
  {
    var q := " does not match number of vertices in the mesh (";
    Framed("Number of scalars (", Show(count), q, Show(vertices));
    "Number of scalars (" + Show(count) + ")" + q + Show(vertices) + ")"
  }

  /** The text `p x) q y)`, with `q` ending in `(`, starts with `p x)` and
      ends with `(y)`. */
  lemma Framed(p: string, x: string, q: string, y: string)
    requires q != [] && q[|q| - 1] == '('
    ensures StartsWith(p + x + ")" + q + y + ")", p + x + ")")
    ensures EndsWith(p + x + ")" + q + y + ")", "(" + y + ")")
  {
    var head := p + x + ")";
    var m := head + q + y + ")";
    assert m[..|head|] == head;
    assert m[|m| - |y| - 2..] == "(" + y + ")";
  }

  lemma NoParenInCount(n: nat)
    ensures ')' !in Show(n)
  {
    var d := NatDigits(n);
    forall i | 0 <= i < |d| ensures d[i] != ')' {
      assert IsDigit(d[i]);
    }
  }

  /** Two texts `p x) q y)` with no `)` in `x` agree only when their `x`
      and their `y` agree. */
  lemma {:induction false} SplitAtParen(p: string, x: string, q: string, y: string, x2: string, y2: string)
    requires ')' !in x && ')' !in x2
    requires p + x + ")" + q + y + ")" == p + x2 + ")" + q + y2 + ")"
    ensures x == x2 && y == y2
  {
    var m := p + x + ")" + q + y + ")";
    var m2 := p + x2 + ")" + q + y2 + ")";
    assert m[|p|..] == x + [')'] + (q + y + ")");
    assert m2[|p|..] == x2 + [')'] + (q + y2 + ")");
    FirstFieldOf(x, ')', q + y + ")");
    FirstFieldOf(x2, ')', q + y2 + ")");
    assert m[|p| + |x| + 1 + |q|..|m| - 1] == y;
    assert m2[|p| + |x2| + 1 + |q|..|m2| - 1] == y2;
  }

  /** The error names both counts: different counts give different
      messages. */
  lemma MismatchMessageNamesCounts(a: nat, b: nat, c: nat, d: nat)
    requires MismatchMessage(a, b) == MismatchMessage(c, d)
    ensures a == c && b == d
  {
    NoParenInCount(a);
    NoParenInCount(c);
    SplitAtParen("Number of scalars (", Show(a), " does not match number of vertices in the mesh (", Show(b),
                 Show(c), Show(d));
    ShowInjective(a, c);
    ShowInjective(b, d);
  }

  /** The cardinality check of the viewer: an error naming both counts exactly when they
      differ. */
  function CheckCardinality(count: nat, vertices: nat): (r: Option<string>)
    ensures r.None? <==> count == vertices
    ensures r.Some? ==> r.value == MismatchMessage(count, vertices)
  {
    if count != vertices then Some(MismatchMessage(count, vertices)) else None
  }

  /** A mesh read from disk: its vertex count and its named point fields. */
  class Mesh {
    const nPoints: nat
    var pointData: map<string, seq<real>>

    constructor (nPoints: nat)
      ensures this.nPoints == nPoints && pointData == map[]
    {
      this.nPoints := nPoints;
      pointData := map[];
    }

    /** Attach `scalars` as the `scalars` field only when there is one per
        vertex; otherwise report the error and leave the mesh as it is. */
    method AttachScalars(scalars: seq<real>) returns (error: Option<string>)
      modifies this
      ensures error == CheckCardinality(|scalars|, nPoints)
      ensures error.Some? ==> pointData == old(pointData)
      ensures error.None? ==> pointData == old(pointData)["scalars" := scalars]
      ensures error.None? ==> |pointData["scalars"]| == nPoints
    {
      error := CheckCardinality(|scalars|, nPoints);
      if error.Some? {
        return;
      }
      pointData := pointData["scalars" := scalars];
    }
  }

  /** What the viewer ends up with. */
  datatype Attach =
    | Attached
    | Mismatch(message: string)
    | Unreadable

  /** The viewer's loading step: read the scalars of `text` and attach them to `mesh`;
      `Unreadable` is the `ValueError` of a line that is not a number. */
  method LoadAndAttach(mesh: Mesh, text: string, parse: string -> Option<real>) returns (r: Attach)
    modifies mesh
    ensures r.Unreadable? <==> LoadScalars(text, parse).None?
    ensures r.Mismatch? <==> LoadScalars(text, parse).Some? && |Lines(text)| != mesh.nPoints
    ensures r.Mismatch? ==> r.message == MismatchMessage(|Lines(text)|, mesh.nPoints)
    ensures !r.Attached? ==> mesh.pointData == old(mesh.pointData)
    ensures r.Attached? ==> mesh.pointData == old(mesh.pointData)["scalars" := LoadScalars(text, parse).value]
  {
    var scalars := LoadScalars(text, parse);
    if scalars.None? {
      return Unreadable;
    }
    var error := mesh.AttachScalars(scalars.value);
    if error.Some? {
      return Mismatch(error.value);
    }
    r := Attached;
  }
}
