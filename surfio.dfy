/**
 * Surface file input and output: the choice of reader or writer from the
 * file name, and the two readers written out by hand, for the OFF and the
 * FreeSurfer ASCII (.asc) formats.
 *
 * A file is modelled as the sequence of its whitespace-separated tokens with
 * the line breaks kept as lexemes of their own; `>>` skips line breaks and
 * takes one token, `getline` drops everything up to and including the next
 * line break. The BYU, VTK and PLY readers and all writers are VTK classes
 * and stay parameters.
 */
module SurfaceIO {
  import opened Wrappers
  import Text
  import opened Surfaces

  // ---------------------------------------------------------------------------
  // Choosing a reader or a writer

  datatype Format = Asc | Byu | Off | Vtk | Ply

  function Extension(f: Format): string
  {
    match f
    case Asc => ".asc"
    case Byu => ".byu"
    case Off => ".off"
    case Vtk => ".vtk"
    case Ply => ".ply"
  }

  /** The order in which readSurface tests the extensions. */
  const ReadOrder: seq<Format> := [Asc, Byu, Off, Vtk, Ply]

  /** The order in which writeSurface tests the extensions. */
  const WriteOrder: seq<Format> := [Vtk, Byu, Ply]

  /** Reference definition: the first format of the order whose extension occurs anywhere in the name. */
  function FirstContained(fn: string, order: seq<Format>): (r: Option<Format>)
    ensures r.Some? ==>
      exists k :: 0 <= k < |order| && order[k] == r.value &&
        Text.Contains(fn, Extension(order[k])) &&
        forall j :: 0 <= j < k ==> !Text.Contains(fn, Extension(order[j]))
    ensures r.None? ==> forall k :: 0 <= k < |order| ==> !Text.Contains(fn, Extension(order[k]))
  {
    if order == [] then None
    else if Text.Contains(fn, Extension(order[0])) then Some(order[0])
    else
      var r := FirstContained(fn, order[1..]);
      assert forall k :: 0 < k < |order| ==> order[k] == order[1..][k - 1];
      r
  }

  /** readSurface's if-chain: a substring test per extension, None for NULL. */
  function ReaderFor(fn: string): Option<Format>
  {
    if Text.Contains(fn, ".asc") then Some(Asc)
    else if Text.Contains(fn, ".byu") then Some(Byu)
    else if Text.Contains(fn, ".off") then Some(Off)
    else if Text.Contains(fn, ".vtk") then Some(Vtk)
    else if Text.Contains(fn, ".ply") then Some(Ply)
    else None
  }

  /** writeSurface's if-chain: only .vtk, .byu and .ply have a writer; anything else throws. */
  function WriterFor(fn: string): Result<Format, string>
  {
    if Text.Contains(fn, ".vtk") then Ok(Vtk)
    else if Text.Contains(fn, ".byu") then Ok(Byu)
    else if Text.Contains(fn, ".ply") then Ok(Ply)
    else Err("Bad ext")
  }

  /** The reader is the first extension of .asc, .byu, .off, .vtk, .ply found anywhere in the name. */
  lemma ReaderForIsFirstHit(fn: string)
    ensures ReaderFor(fn) == FirstContained(fn, ReadOrder)
  {
    assert FirstContained(fn, [Ply]) == if Text.Contains(fn, ".ply") then Some(Ply) else None by {
      assert [Ply][1..] == [];
    }
    assert FirstContained(fn, [Vtk, Ply]) ==
      if Text.Contains(fn, ".vtk") then Some(Vtk) else FirstContained(fn, [Ply]) by {
      assert [Vtk, Ply][1..] == [Ply];
    }
    assert FirstContained(fn, [Off, Vtk, Ply]) ==
      if Text.Contains(fn, ".off") then Some(Off) else FirstContained(fn, [Vtk, Ply]) by {
      assert [Off, Vtk, Ply][1..] == [Vtk, Ply];
    }
    assert FirstContained(fn, [Byu, Off, Vtk, Ply]) ==
      if Text.Contains(fn, ".byu") then Some(Byu) else FirstContained(fn, [Off, Vtk, Ply]) by {
      assert [Byu, Off, Vtk, Ply][1..] == [Off, Vtk, Ply];
    }
    assert FirstContained(fn, ReadOrder) ==
      if Text.Contains(fn, ".asc") then Some(Asc) else FirstContained(fn, [Byu, Off, Vtk, Ply]) by {
      assert ReadOrder[1..] == [Byu, Off, Vtk, Ply];
    }
  }

  /** The writer is the first of .vtk, .byu, .ply found in the name, and an error when there is none. */
  lemma WriterForIsFirstHit(fn: string)
    ensures WriterFor(fn) == match FirstContained(fn, WriteOrder)
                             case Some(f) => Ok(f)
                             case None => Err("Bad ext")
  {
    assert FirstContained(fn, [Ply]) == if Text.Contains(fn, ".ply") then Some(Ply) else None by {
      assert [Ply][1..] == [];
    }
    assert FirstContained(fn, [Byu, Ply]) ==
      if Text.Contains(fn, ".byu") then Some(Byu) else FirstContained(fn, [Ply]) by {
      assert [Byu, Ply][1..] == [Ply];
    }
    assert FirstContained(fn, WriteOrder) ==
      if Text.Contains(fn, ".vtk") then Some(Vtk) else FirstContained(fn, [Byu, Ply]) by {
      assert WriteOrder[1..] == [Byu, Ply];
    }
  }

  /**
   * In a name with a single dot, an extension test matches only where the
   * dot is: one whose second character differs from the one after the dot
   * does not occur.
   */
  lemma NotAfterSoleDot(stem: string, ext: string, sub: string)
    requires '.' !in stem && '.' !in ext && 0 < |ext|
    requires 2 <= |sub| && sub[0] == '.' && sub[1] != ext[0]
    ensures !Text.Contains(stem + "." + ext, sub)
  {
    var name := stem + "." + ext;
    forall i | 0 <= i <= |name| - |sub|
      ensures !(sub <= name[i..])
    {
      if i < |stem| {
        assert name[i] == stem[i];
      } else if i > |stem| {
        assert name[i] == ext[i - |stem| - 1];
      } else {
        assert name[i + 1] == ext[0];
      }
    }
  }

  /** An OFF file has a reader: a name with one dot, before "off", is read by readOFF. */
  lemma OffReadable(stem: string)
    requires '.' !in stem
    ensures ReaderFor(stem + "." + "off") == Some(Off)
  {
    Text.ContainsAt(stem + "." + "off", ".off", |stem|);
    NotAfterSoleDot(stem, "off", ".asc");
    NotAfterSoleDot(stem, "off", ".byu");
  }

  /** An OFF file has no writer: writing a name with one dot, before "off", throws. */
  lemma OffNotWritable(stem: string)
    requires '.' !in stem
    ensures WriterFor(stem + "." + "off") == Err("Bad ext")
  {
    NotAfterSoleDot(stem, "off", ".vtk");
    NotAfterSoleDot(stem, "off", ".byu");
    NotAfterSoleDot(stem, "off", ".ply");
  }

  /**
   * The test is for a substring, not a suffix: a name such as "lh.asc.vtk"
   * is read as ASC although it ends in .vtk, and written as VTK.
   */
  lemma SubstringNotSuffix(stem: string)
    ensures ReaderFor(stem + ".asc" + ".vtk") == Some(Asc)
    ensures WriterFor(stem + ".asc" + ".vtk") == Ok(Vtk)
  {
    var name := stem + ".asc" + ".vtk";
    assert name[|stem|..|stem| + 4] == ".asc";
    assert name[|stem| + 4..|stem| + 8] == ".vtk";
    Text.ContainsAt(name, ".asc", |stem|);
    Text.ContainsAt(name, ".vtk", |stem| + 4);
  }

  // ---------------------------------------------------------------------------
  // The token stream

  datatype Token = Number(value: real) | Word(text: string)
  datatype Lexeme = Tok(token: Token) | EndOfLine

  /** `>>`: skip line breaks, then take one token; None at the end of the file. */
  function NextToken(text: seq<Lexeme>, pos: nat): (r: Option<(Token, nat)>)
    decreases |text| - pos
    ensures r.Some? ==> pos < r.value.1 <= |text| && text[r.value.1 - 1] == Tok(r.value.0)
  {
    if pos >= |text| then None
    else if text[pos].EndOfLine? then NextToken(text, pos + 1)
    else Some((text[pos].token, pos + 1))
  }

  /** `>>` passes over line breaks only, and finds nothing only where nothing but line breaks is left. */
  lemma {:induction false} NextTokenSkipsLineBreaks(text: seq<Lexeme>, pos: nat)
    ensures var r := NextToken(text, pos);
            (r.Some? ==> forall k :: pos <= k < r.value.1 - 1 ==> text[k] == EndOfLine) &&
            (r.None? ==> forall k :: pos <= k < |text| ==> text[k] == EndOfLine)
    decreases |text| - pos
  {
    if pos < |text| && text[pos].EndOfLine? {
      NextTokenSkipsLineBreaks(text, pos + 1);
    }
  }

  /** `getline`: drop the rest of the current line and its line break. */
  function SkipLine(text: seq<Lexeme>, pos: nat): (q: nat)
    decreases |text| - pos
    ensures pos <= q && (q == pos || q <= |text|)
  {
    if pos >= |text| then pos
    else if text[pos].EndOfLine? then pos + 1
    else SkipLine(text, pos + 1)
  }

  /** `getline` drops tokens only, up to and including the first line break, or to the end of the file. */
  lemma {:induction false} SkipLineDropsOneLine(text: seq<Lexeme>, pos: nat)
    ensures var q := SkipLine(text, pos);
            (forall k :: pos <= k < q - 1 ==> text[k].Tok?) &&
            (pos < |text| ==> pos < q && (q == |text| || text[q - 1] == EndOfLine))
    decreases |text| - pos
  {
    if pos < |text| && text[pos].Tok? {
      SkipLineDropsOneLine(text, pos + 1);
    }
  }

  /** `>>` into a double. */
  function ReadReal(text: seq<Lexeme>, pos: nat): Option<(real, nat)>
  {
    match NextToken(text, pos)
    case Some((Number(v), q)) => Some((v, q))
    case _ => None
  }

  predicate IsInteger(v: real) { v.Floor as real == v }

  /** `>>` into an int or a vtkIdType. */
  function ReadInt(text: seq<Lexeme>, pos: nat): Option<(int, nat)>
  {
    match NextToken(text, pos)
    case Some((Number(v), q)) => if IsInteger(v) then Some((v.Floor, q)) else None
    case _ => None
  }

  /** The stream after reading items with read, n times in a row; None as soon as one fails. */
  function Repeat<T>(read: (seq<Lexeme>, nat) -> Option<(T, nat)>, text: seq<Lexeme>, pos: nat, n: nat)
    : (r: Option<(seq<T>, nat)>)
    ensures r.Some? ==> |r.value.0| == n
    decreases n
  {
    if n == 0 then Some(([], pos))
    else match read(text, pos)
      case None => None
      case Some((x, q)) => Prepend([x], Repeat(read, text, q, n - 1))
  }


  function Prepend<T>(xs: seq<T>, r: Option<(seq<T>, nat)>): (r': Option<(seq<T>, nat)>)
    ensures r'.Some? <==> r.Some?
    ensures r.Some? ==> r'.value == (xs + r.value.0, r.value.1)
  {
    match r
    case None => None
    case Some((ys, q)) => Some((xs + ys, q))
  }

  lemma PrependNothing<T>(r: Option<(seq<T>, nat)>)
    ensures Prepend([], r) == r
  {
    if r.Some? {
      assert [] + r.value.0 == r.value.0;
    }
  }

  lemma PrependTwice<T>(xs: seq<T>, ys: seq<T>, r: Option<(seq<T>, nat)>)
    ensures Prepend(xs, Prepend(ys, r)) == Prepend(xs + ys, r)
  {
    if r.Some? {
      assert xs + (ys + r.value.0) == xs + ys + r.value.0;
    }
  }

  /** One more item read: it moves from the stream to the items read so far. */
  lemma Advance<T>(read: (seq<Lexeme>, nat) -> Option<(T, nat)>, text: seq<Lexeme>, pos: nat, n: nat,
                   x: T, q: nat, acc: seq<T>)
    requires n > 0 && read(text, pos) == Some((x, q))
    ensures Prepend(acc, Repeat(read, text, pos, n)) == Prepend(acc + [x], Repeat(read, text, q, n - 1))
  {
    PrependTwice(acc, [x], Repeat(read, text, q, n - 1));
  }

  /** An item that cannot be read fails the whole repetition. */
  lemma Stuck<T>(read: (seq<Lexeme>, nat) -> Option<(T, nat)>, text: seq<Lexeme>, pos: nat, n: nat, acc: seq<T>)
    requires n > 0 && read(text, pos) == None
    ensures Prepend(acc, Repeat(read, text, pos, n)) == None
  {
  }

  /** A C for loop up to a signed bound runs max(bound, 0) times. */
  function Count(n: int): nat { if n < 0 then 0 else n }

  // ---------------------------------------------------------------------------
  // What readOFF and readASC accept

  function ReadPoint(text: seq<Lexeme>, pos: nat): Option<(Point, nat)>
  {
    match ReadReal(text, pos)
    case None => None
    case Some((x, p1)) =>
      match ReadReal(text, p1)
      case None => None
      case Some((y, p2)) =>
        match ReadReal(text, p2)
        case None => None
        case Some((z, p3)) => Some((Point(x, y, z), p3))
  }

  /** An OFF face: a vertex count, then that many point ids. */
  function ReadOffCell(text: seq<Lexeme>, pos: nat): Option<(seq<int>, nat)>
  {
    match ReadInt(text, pos)
    case None => None
    case Some((n, q)) => Repeat(ReadInt, text, q, Count(n))
  }

  /** An ASC point: three coordinates, then the rest of the line is dropped. */
  function ReadAscPoint(text: seq<Lexeme>, pos: nat): Option<(Point, nat)>
  {
    match ReadPoint(text, pos)
    case None => None
    case Some((p, q)) => Some((p, SkipLine(text, q)))
  }

  /** Three ids. */
  function ReadTriangle(text: seq<Lexeme>, pos: nat): Option<(seq<int>, nat)>
  {
    match ReadInt(text, pos)
    case None => None
    case Some((a, p1)) =>
      match ReadInt(text, p1)
      case None => None
      case Some((b, p2)) =>
        match ReadInt(text, p2)
        case None => None
        case Some((c, p3)) => Some(([a, b, c], p3))
  }

  /** An ASC face: always a triangle of three ids, then the rest of the line is dropped. */
  function ReadAscCell(text: seq<Lexeme>, pos: nat): Option<(seq<int>, nat)>
  {
    match ReadTriangle(text, pos)
    case None => None
    case Some((ids, q)) => Some((ids, SkipLine(text, q)))
  }

  /**
   * readOFF: skip the first line, read the point and face counts, skip the
   * rest of that line, then the points and the faces. None stands for a file
   * on which a read fails.
   */
  function ParseOff(text: seq<Lexeme>): (r: Option<Surface>)
  {
    var p0 := SkipLine(text, 0);
    match ReadInt(text, p0)
    case None => None
    case Some((np, p1)) =>
      match ReadInt(text, p1)
      case None => None
      case Some((nc, p2)) =>
        match Repeat(ReadPoint, text, SkipLine(text, p2), Count(np))
        case None => None
        case Some((points, p3)) =>
          match Repeat(ReadOffCell, text, p3, Count(nc))
          case None => None
          case Some((cells, _)) => Some(Surface(points, cells))
  }

  /**
   * readASC: skip the first line and read the two counts, but keep the rest
   * of the counts line; each point and each face line is cut after its
   * three numbers.
   */
  function ParseAsc(text: seq<Lexeme>): (r: Option<Surface>)
  {
    var p0 := SkipLine(text, 0);
    match ReadInt(text, p0)
    case None => None
    case Some((np, p1)) =>
      match ReadInt(text, p1)
      case None => None
      case Some((nc, p2)) =>
        match Repeat(ReadAscPoint, text, p2, Count(np))
        case None => None
        case Some((points, p3)) =>
          match Repeat(ReadAscCell, text, p3, Count(nc))
          case None => None
          case Some((cells, _)) => Some(Surface(points, cells))
  }

  /** A successful OFF read has exactly as many points and faces as the counts line announces. */
  lemma ParseOffCounts(text: seq<Lexeme>)
    requires ParseOff(text).Some?
    ensures var p1 := ReadInt(text, SkipLine(text, 0)).value;
            var p2 := ReadInt(text, p1.1).value;
            |ParseOff(text).value.points| == Count(p1.0) && |ParseOff(text).value.cells| == Count(p2.0)
  {
  }

  /** A successful ASC read has the announced numbers of points and faces, and every face is a triangle. */
  lemma {:induction false} ParseAscCounts(text: seq<Lexeme>)
    requires ParseAsc(text).Some?
    ensures var p1 := ReadInt(text, SkipLine(text, 0)).value;
            var p2 := ReadInt(text, p1.1).value;
            |ParseAsc(text).value.points| == Count(p1.0) && |ParseAsc(text).value.cells| == Count(p2.0)
    ensures forall c :: c in ParseAsc(text).value.cells ==> |c| == 3
  {
    var p1 := ReadInt(text, SkipLine(text, 0)).value;
    var p2 := ReadInt(text, p1.1).value;
    var pts := Repeat(ReadAscPoint, text, p2.1, Count(p1.0)).value;
    RepeatAscCellsTriangles(text, pts.1, Count(p2.0));
  }

  lemma {:induction false} RepeatAscCellsTriangles(text: seq<Lexeme>, pos: nat, n: nat)
    ensures var r := Repeat(ReadAscCell, text, pos, n);
            r.Some? ==> forall c :: c in r.value.0 ==> |c| == 3
    decreases n
  {
    if n > 0 {
      match ReadAscCell(text, pos)
      case None =>
      case Some((x, q)) =>
        RepeatAscCellsTriangles(text, q, n - 1);
    }
  }

  // ---------------------------------------------------------------------------
  // The readers as loops over an input file

  /** std::ifstream over a tokenised file. */
  class InputFile {
    const text: seq<Lexeme>
    var pos: nat

    constructor (text: seq<Lexeme>)
      ensures this.text == text && pos == 0
    {
      this.text := text;
      pos := 0;
    }

    method GetLine()
      modifies this
      ensures pos == SkipLine(text, old(pos))
    {
      while pos < |text| && text[pos].Tok?
        invariant SkipLine(text, pos) == SkipLine(text, old(pos))
        decreases |text| - pos
      {
        pos := pos + 1;
      }
      if pos < |text| {
        pos := pos + 1;
      }
    }

    method Next() returns (t: Option<Token>)
      modifies this
      ensures NextToken(text, old(pos)) == if t.None? then None else Some((t.value, pos))
    {
      while pos < |text| && text[pos].EndOfLine?
        invariant NextToken(text, pos) == NextToken(text, old(pos))
        decreases |text| - pos
      {
        pos := pos + 1;
      }
      if pos < |text| {
        t := Some(text[pos].token);
        pos := pos + 1;
      } else {
        t := None;
      }
    }

    method ExtractReal() returns (v: Option<real>)
      modifies this
      ensures ReadReal(text, old(pos)) == if v.None? then None else Some((v.value, pos))
    {
      var t := Next();
      if t.Some? && t.value.Number? {
        v := Some(t.value.value);
      } else {
        v := None;
      }
    }

    method ExtractInt() returns (v: Option<int>)
      modifies this
      ensures ReadInt(text, old(pos)) == if v.None? then None else Some((v.value, pos))
    {
      var t := Next();
      if t.Some? && t.value.Number? && IsInteger(t.value.value) {
        v := Some(t.value.value.Floor);
      } else {
        v := None;
      }
    }
  }

  /** Reads three coordinates as one point. */
  method ReadPointFrom(f: InputFile) returns (p: Option<Point>)
    modifies f
    ensures ReadPoint(f.text, old(f.pos)) == if p.None? then None else Some((p.value, f.pos))
  {
    var x := f.ExtractReal();
    if x.None? { return None; }
    var y := f.ExtractReal();
    if y.None? { return None; }
    var z := f.ExtractReal();
    if z.None? { return None; }
    p := Some(Point(x.value, y.value, z.value));
  }

  /** Reads n point ids (InsertCellPoint calls). */
  method ReadIds(f: InputFile, n: nat) returns (items: Option<seq<int>>)
    modifies f
    ensures Repeat(ReadInt, f.text, old(f.pos), n) == if items.None? then None else Some((items.value, f.pos))
  {
    var acc: seq<int> := [];
    var i := 0;
    ghost var whole := Repeat(ReadInt, f.text, f.pos, n);
    PrependNothing(whole);
    while i < n
      invariant i <= n
      invariant whole == Prepend(acc, Repeat(ReadInt, f.text, f.pos, n - i))
    {
      ghost var p := f.pos;
      var v := f.ExtractInt();
      if v.None? {
        Stuck(ReadInt, f.text, p, n - i, acc);
        return None;
      }
      var x := v.value;
      Advance(ReadInt, f.text, p, n - i, x, f.pos, acc);
      acc := acc + [x];
      i := i + 1;
    }
    assert acc + [] == acc;
    items := Some(acc);
  }

  /** Reads three ids. */
  method ReadTriangleFrom(f: InputFile) returns (ids: Option<seq<int>>)
    modifies f
    ensures ReadTriangle(f.text, old(f.pos)) == if ids.None? then None else Some((ids.value, f.pos))
  {
    var a := f.ExtractInt();
    if a.None? { return None; }
    var b := f.ExtractInt();
    if b.None? { return None; }
    var c := f.ExtractInt();
    if c.None? { return None; }
    ids := Some([a.value, b.value, c.value]);
  }

  /** The point loop of readOFF: three coordinates per point (InsertPoint calls). */
  method ReadPoints(f: InputFile, n: nat) returns (items: Option<seq<Point>>)
    modifies f
    ensures Repeat(ReadPoint, f.text, old(f.pos), n) == if items.None? then None else Some((items.value, f.pos))
  {
    var acc: seq<Point> := [];
    var i := 0;
    ghost var whole := Repeat(ReadPoint, f.text, f.pos, n);
    PrependNothing(whole);
    while i < n
      invariant i <= n
      invariant whole == Prepend(acc, Repeat(ReadPoint, f.text, f.pos, n - i))
    {
      ghost var p := f.pos;
      var pt := ReadPointFrom(f);
      if pt.None? {
        Stuck(ReadPoint, f.text, p, n - i, acc);
        return None;
      }
      var x := pt.value;
      Advance(ReadPoint, f.text, p, n - i, x, f.pos, acc);
      acc := acc + [x];
      i := i + 1;
    }
    assert acc + [] == acc;
    items := Some(acc);
  }

  /** One face of an OFF file: its vertex count, then that many ids. */
  method ReadOffCellFrom(f: InputFile) returns (ids: Option<seq<int>>)
    modifies f
    ensures ReadOffCell(f.text, old(f.pos)) == if ids.None? then None else Some((ids.value, f.pos))
  {
    var k := f.ExtractInt();
    if k.None? {
      return None;
    }
    ids := ReadIds(f, Count(k.value));
  }

  /** The face loop of readOFF: a vertex count, then that many ids (InsertNextCell calls). */
  method ReadOffCells(f: InputFile, n: nat) returns (items: Option<seq<seq<int>>>)
    modifies f
    ensures Repeat(ReadOffCell, f.text, old(f.pos), n) == if items.None? then None else Some((items.value, f.pos))
  {
    var acc: seq<seq<int>> := [];
    var i := 0;
    ghost var whole := Repeat(ReadOffCell, f.text, f.pos, n);
    PrependNothing(whole);
    while i < n
      invariant i <= n
      invariant whole == Prepend(acc, Repeat(ReadOffCell, f.text, f.pos, n - i))
    {
      ghost var p := f.pos;
      var ids := ReadOffCellFrom(f);
      if ids.None? {
        Stuck(ReadOffCell, f.text, p, n - i, acc);
        return None;
      }
      var x := ids.value;
      Advance(ReadOffCell, f.text, p, n - i, x, f.pos, acc);
      acc := acc + [x];
      i := i + 1;
    }
    assert acc + [] == acc;
    items := Some(acc);
  }

  /** One line of the point list of an .asc file: three coordinates, then the rest of the line. */
  method ReadAscPointFrom(f: InputFile) returns (p: Option<Point>)
    modifies f
    ensures ReadAscPoint(f.text, old(f.pos)) == if p.None? then None else Some((p.value, f.pos))
  {
    p := ReadPointFrom(f);
    if p.Some? {
      f.GetLine();
    }
  }

  /** One line of the triangle list of an .asc file: three ids, then the rest of the line. */
  method ReadAscCellFrom(f: InputFile) returns (ids: Option<seq<int>>)
    modifies f
    ensures ReadAscCell(f.text, old(f.pos)) == if ids.None? then None else Some((ids.value, f.pos))
  {
    ids := ReadTriangleFrom(f);
    if ids.Some? {
      f.GetLine();
    }
  }

  /** The point loop of readASC: three coordinates, then the rest of the line is dropped. */
  method ReadAscPoints(f: InputFile, n: nat) returns (items: Option<seq<Point>>)
    modifies f
    ensures Repeat(ReadAscPoint, f.text, old(f.pos), n) == if items.None? then None else Some((items.value, f.pos))
  {
    var acc: seq<Point> := [];
    var i := 0;
    ghost var whole := Repeat(ReadAscPoint, f.text, f.pos, n);
    PrependNothing(whole);
    while i < n
      invariant i <= n
      invariant whole == Prepend(acc, Repeat(ReadAscPoint, f.text, f.pos, n - i))
    {
      ghost var p := f.pos;
      var pt := ReadAscPointFrom(f);
      if pt.None? {
        Stuck(ReadAscPoint, f.text, p, n - i, acc);
        return None;
      }
      var x := pt.value;
      Advance(ReadAscPoint, f.text, p, n - i, x, f.pos, acc);
      acc := acc + [x];
      i := i + 1;
    }
    assert acc + [] == acc;
    items := Some(acc);
  }

  /** The face loop of readASC: three ids, then the rest of the line is dropped. */
  method ReadAscCells(f: InputFile, n: nat) returns (items: Option<seq<seq<int>>>)
    modifies f
    ensures Repeat(ReadAscCell, f.text, old(f.pos), n) == if items.None? then None else Some((items.value, f.pos))
  {
    var acc: seq<seq<int>> := [];
    var i := 0;
    ghost var whole := Repeat(ReadAscCell, f.text, f.pos, n);
    PrependNothing(whole);
    while i < n
      invariant i <= n
      invariant whole == Prepend(acc, Repeat(ReadAscCell, f.text, f.pos, n - i))
    {
      ghost var p := f.pos;
      var ids := ReadAscCellFrom(f);
      if ids.None? {
        Stuck(ReadAscCell, f.text, p, n - i, acc);
        return None;
      }
      var x := ids.value;
      Advance(ReadAscCell, f.text, p, n - i, x, f.pos, acc);
      acc := acc + [x];
      i := i + 1;
    }
    assert acc + [] == acc;
    items := Some(acc);
  }

  /** readOFF. */
  method ReadOff(text: seq<Lexeme>) returns (r: Option<Surface>)
    ensures r == ParseOff(text)
  {
    var f := new InputFile(text);
    f.GetLine();
    var np := f.ExtractInt();
    if np.None? { return None; }
    var nc := f.ExtractInt();
    if nc.None? { return None; }
    f.GetLine();
    var points := ReadPoints(f, Count(np.value));
    if points.None? { return None; }
    var cells := ReadOffCells(f, Count(nc.value));
    if cells.None? { return None; }
    r := Some(Surface(points.value, cells.value));
  }

  /** readASC. */
  method ReadAsc(text: seq<Lexeme>) returns (r: Option<Surface>)
    ensures r == ParseAsc(text)
  {
    var f := new InputFile(text);
    f.GetLine();
    var np := f.ExtractInt();
    if np.None? { return None; }
    var nc := f.ExtractInt();
    if nc.None? { return None; }
    var points := ReadAscPoints(f, Count(np.value));
    if points.None? { return None; }
    var cells := ReadAscCells(f, Count(nc.value));
    if cells.None? { return None; }
    r := Some(Surface(points.value, cells.value));
  }

  // ---------------------------------------------------------------------------
  // readSurface

  datatype ReadError =
    | UnknownExtension  // readSurface's NULL
    | Malformed         // a read failed part-way

  function FromParse(r: Option<Surface>): Result<Surface, ReadError>
  {
    if r.None? then Err(Malformed) else Ok(r.value)
  }

  /**
   * readSurface: the reader the name selects; the BYU, VTK and PLY readers
   * are VTK's and given as vtkRead.
   */
  method ReadSurface(fn: string, text: seq<Lexeme>, vtkRead: (Format, seq<Lexeme>) -> Option<Surface>)
    returns (r: Result<Surface, ReadError>)
    ensures r == Err(UnknownExtension) <==> forall f :: !Text.Contains(fn, Extension(f))
    ensures ReaderFor(fn) == Some(Off) ==> r == FromParse(ParseOff(text))
    ensures ReaderFor(fn) == Some(Asc) ==> r == FromParse(ParseAsc(text))
    ensures ReaderFor(fn) in {Some(Byu), Some(Vtk), Some(Ply)} ==> r == FromParse(vtkRead(ReaderFor(fn).value, text))
  {
    NoReaderIffNoExtension(fn);
    var format := ReaderFor(fn);
    if format.None? {
      return Err(UnknownExtension);
    }
    var s: Option<Surface>;
    match format.value {
      case Asc => s := ReadAsc(text);
      case Off => s := ReadOff(text);
      case _ => s := vtkRead(format.value, text);
    }
    r := FromParse(s);
  }

  /** readSurface returns NULL exactly when the name contains none of the five extensions. */
  lemma NoReaderIffNoExtension(fn: string)
    ensures ReaderFor(fn) == None <==> forall f :: !Text.Contains(fn, Extension(f))
  {
    if ReaderFor(fn) == None {
      forall f ensures !Text.Contains(fn, Extension(f)) {
        match f
        case Asc =>
        case Byu =>
        case Off =>
        case Vtk =>
        case Ply =>
      }
    } else {
      assert Text.Contains(fn, Extension(ReaderFor(fn).value));
    }
  }

  // ---------------------------------------------------------------------------
  // What the readers read back

  /** The lexemes at pos are exactly ls. */
  predicate At(text: seq<Lexeme>, pos: nat, ls: seq<Lexeme>)
  {
    pos + |ls| <= |text| && text[pos..pos + |ls|] == ls
  }

  /** pos is at q, or at the line break just before q. */
  predicate Reaches(text: seq<Lexeme>, pos: nat, q: nat)
  {
    pos == q || (pos + 1 == q && q <= |text| && text[pos] == EndOfLine)
  }

  lemma AtSplit(text: seq<Lexeme>, pos: nat, a: seq<Lexeme>, b: seq<Lexeme>)
    requires At(text, pos, a + b)
    ensures At(text, pos, a) && At(text, pos + |a|, b)
  {
    assert text[pos..pos + |a|] == (a + b)[..|a|];
    assert text[pos + |a|..pos + |a| + |b|] == (a + b)[|a|..];
  }

  lemma AtIndex(text: seq<Lexeme>, pos: nat, ls: seq<Lexeme>, k: int)
    requires At(text, pos, ls) && 0 <= k < |ls|
    ensures text[pos + k] == ls[k]
  {
    assert text[pos..pos + |ls|][k] == text[pos + k];
  }

  lemma NextTokenAt(text: seq<Lexeme>, pos: nat, q: nat, t: Token)
    requires Reaches(text, pos, q) && q < |text| && text[q] == Tok(t)
    ensures NextToken(text, pos) == Some((t, q + 1))
  {
  }

  function Num(v: real): Lexeme { Tok(Number(v)) }

  /** An integer written as a number reads back as that integer. */
  lemma ReadIntAt(text: seq<Lexeme>, pos: nat, q: nat, n: int)
    requires Reaches(text, pos, q) && q < |text| && text[q] == Num(n as real)
    ensures ReadInt(text, pos) == Some((n, q + 1))
  {
    NextTokenAt(text, pos, q, Number(n as real));
  }

  /** The lexemes of a sequence of items, one after the other. */
  function Lines<T>(line: T -> seq<Lexeme>, items: seq<T>): seq<Lexeme>
  {
    if items == [] then [] else line(items[0]) + Lines(line, items[1..])
  }

  /** read reads item x back when it stands at q, from q or from a line break just before. */
  ghost predicate ReadsBack<T>(read: (seq<Lexeme>, nat) -> Option<(T, nat)>, line: T -> seq<Lexeme>,
                               text: seq<Lexeme>, x: T, pos: nat, q: nat)
  {
    Reaches(text, pos, q) && At(text, q, line(x)) ==>
      read(text, pos).Some? && read(text, pos).value.0 == x &&
      Reaches(text, read(text, pos).value.1, q + |line(x)|)
  }

  /** Reading items one by one reads back what Lines wrote. */
  lemma {:induction false} RepeatReadsLines<T>(read: (seq<Lexeme>, nat) -> Option<(T, nat)>,
                                               line: T -> seq<Lexeme>, text: seq<Lexeme>,
                                               pos: nat, q: nat, items: seq<T>)
    requires Reaches(text, pos, q) && At(text, q, Lines(line, items))
    requires forall x, p, q' :: x in items ==> ReadsBack(read, line, text, x, p, q')
    ensures var r := Repeat(read, text, pos, |items|);
            r.Some? && r.value.0 == items && Reaches(text, r.value.1, q + |Lines(line, items)|)
    decreases |items|
  {
    if items != [] {
      AtSplit(text, q, line(items[0]), Lines(line, items[1..]));
      assert ReadsBack(read, line, text, items[0], pos, q);
      var next := read(text, pos).value;
      var q' := q + |line(items[0])|;
      RepeatReadsLines(read, line, text, next.1, q', items[1..]);
      assert [items[0]] + items[1..] == items;
    }
  }

  function IdLine(id: int): seq<Lexeme> { [Num(id as real)] }

  /** Reading k ids reads back k ids written one after the other. */
  lemma {:induction false} ReadsBackIds(text: seq<Lexeme>, pos: nat, q: nat, ids: seq<int>)
    requires Reaches(text, pos, q) && At(text, q, Lines(IdLine, ids))
    ensures |Lines(IdLine, ids)| == |ids|
    ensures Repeat(ReadInt, text, pos, |ids|) == Some((ids, if ids == [] then pos else q + |ids|))
    decreases |ids|
  {
    if ids != [] {
      AtSplit(text, q, IdLine(ids[0]), Lines(IdLine, ids[1..]));
      AtIndex(text, q, IdLine(ids[0]), 0);
      ReadIntAt(text, pos, q, ids[0]);
      ReadsBackIds(text, q + 1, q + 1, ids[1..]);
      assert [ids[0]] + ids[1..] == ids;
    }
  }

  function PointLine(p: Point): seq<Lexeme> { [Num(p.x), Num(p.y), Num(p.z), EndOfLine] }

  lemma ReadsBackPoint(text: seq<Lexeme>, p: Point, pos: nat, q: nat)
    requires Reaches(text, pos, q) && At(text, q, PointLine(p))
    ensures ReadPoint(text, pos) == Some((p, q + 3))
    ensures text[q + 3] == EndOfLine
  {
    AtIndex(text, q, PointLine(p), 0);
    AtIndex(text, q, PointLine(p), 1);
    AtIndex(text, q, PointLine(p), 2);
    AtIndex(text, q, PointLine(p), 3);
    NextTokenAt(text, pos, q, Number(p.x));
    NextTokenAt(text, q + 1, q + 1, Number(p.y));
    NextTokenAt(text, q + 2, q + 2, Number(p.z));
  }

  lemma ReadsBackPoints(text: seq<Lexeme>)
    ensures forall x, p, q :: ReadsBack(ReadPoint, PointLine, text, x, p, q)
  {
    forall x, p: nat, q: nat | Reaches(text, p, q) && At(text, q, PointLine(x))
      ensures ReadsBack(ReadPoint, PointLine, text, x, p, q)
    {
      ReadsBackPoint(text, x, p, q);
    }
  }

  /** An OFF face line: the vertex count, the ids, a line break. */
  function OffCellLine(c: seq<int>): seq<Lexeme> { [Num(|c| as real)] + Lines(IdLine, c) + [EndOfLine] }

  lemma ReadsBackOffCell(text: seq<Lexeme>, x: seq<int>, p: nat, q: nat)
    requires Reaches(text, p, q) && At(text, q, OffCellLine(x))
    ensures ReadOffCell(text, p) == Some((x, q + 1 + |x|))
    ensures |OffCellLine(x)| == |x| + 2 && q + 1 + |x| < |text| && text[q + 1 + |x|] == EndOfLine
  {
    var ids := Lines(IdLine, x);
    var count := [Num(|x| as real)];
    var head := count + ids;
    AtSplit(text, q, head, [EndOfLine]);
    AtSplit(text, q, count, ids);
    AtIndex(text, q, count, 0);
    ReadIntAt(text, p, q, |x|);
    ReadsBackIds(text, q + 1, q + 1, x);
    assert q + |head| == q + 1 + |ids|;
    AtIndex(text, q + |head|, [EndOfLine], 0);
  }

  lemma ReadsBackOffCells(text: seq<Lexeme>)
    ensures forall x, p, q :: ReadsBack(ReadOffCell, OffCellLine, text, x, p, q)
  {
    forall x, p: nat, q: nat | Reaches(text, p, q) && At(text, q, OffCellLine(x))
      ensures ReadsBack(ReadOffCell, OffCellLine, text, x, p, q)
    {
      ReadsBackOffCell(text, x, p, q);
    }
  }

  /** An OFF file: a header line, the counts line with an edge count of 0, the point lines, the face lines. */
  function OffText(s: Surface): seq<Lexeme>
  {
    [Tok(Word("OFF")), EndOfLine, Num(|s.points| as real), Num(|s.cells| as real), Num(0.0), EndOfLine] +
    Lines(PointLine, s.points) + Lines(OffCellLine, s.cells)
  }

  /** The header of an OFF file: the first line is skipped, the counts are read and the rest of their line is skipped. */
  lemma OffHeaderReads(s: Surface)
    ensures var text := OffText(s);
      SkipLine(text, 0) == 2 && ReadInt(text, 2) == Some((|s.points|, 3)) && ReadInt(text, 3) == Some((|s.cells|, 4)) &&
      SkipLine(text, 4) == 6 && At(text, 6, Lines(PointLine, s.points) + Lines(OffCellLine, s.cells))
  {
    var text := OffText(s);
    var pts := Lines(PointLine, s.points);
    var cls := Lines(OffCellLine, s.cells);
    assert SkipLine(text, 0) == 2 by {
      assert SkipLine(text, 0) == SkipLine(text, 1);
    }
    assert ReadInt(text, 2) == Some((|s.points|, 3));
    assert ReadInt(text, 3) == Some((|s.cells|, 4));
    assert SkipLine(text, 4) == 6 by {
      assert SkipLine(text, 4) == SkipLine(text, 5);
    }
    assert text[6..6 + |pts + cls|] == pts + cls;
  }

  /** readOFF reads back every surface written as an OFF file. */
  lemma OffRoundTrip(s: Surface)
    ensures ParseOff(OffText(s)) == Some(s)
  {
    var text := OffText(s);
    var pts := Lines(PointLine, s.points);
    var cls := Lines(OffCellLine, s.cells);
    OffHeaderReads(s);
    AtSplit(text, 6, pts, cls);
    ReadsBackPoints(text);
    RepeatReadsLines(ReadPoint, PointLine, text, 6, 6, s.points);
    var afterPoints := Repeat(ReadPoint, text, 6, |s.points|).value.1;
    ReadsBackOffCells(text);
    RepeatReadsLines(ReadOffCell, OffCellLine, text, afterPoints, 6 + |pts|, s.cells);
    ParseOffReads(text, s.points, s.cells, afterPoints);
  }

  /** Once the header is read, readOFF returns the points and the faces read after it. */
  lemma ParseOffReads(text: seq<Lexeme>, points: seq<Point>, cells: seq<seq<int>>, afterPoints: nat)
    requires SkipLine(text, 0) == 2 && ReadInt(text, 2) == Some((|points|, 3)) && ReadInt(text, 3) == Some((|cells|, 4))
    requires SkipLine(text, 4) == 6 && Repeat(ReadPoint, text, 6, |points|) == Some((points, afterPoints))
    requires Repeat(ReadOffCell, text, afterPoints, |cells|).Some? && Repeat(ReadOffCell, text, afterPoints, |cells|).value.0 == cells
    ensures ParseOff(text) == Some(Surface(points, cells))
  {
  }

  /** An ASC point line: three coordinates and a trailing 0. */
  function AscPointLine(p: Point): seq<Lexeme> { [Num(p.x), Num(p.y), Num(p.z), Num(0.0), EndOfLine] }

  lemma ReadsBackAscPoint(text: seq<Lexeme>, x: Point, p: nat, q: nat)
    requires Reaches(text, p, q) && At(text, q, AscPointLine(x))
    ensures ReadAscPoint(text, p) == Some((x, q + 5))
  {
    AtIndex(text, q, AscPointLine(x), 0);
    AtIndex(text, q, AscPointLine(x), 1);
    AtIndex(text, q, AscPointLine(x), 2);
    AtIndex(text, q, AscPointLine(x), 3);
    AtIndex(text, q, AscPointLine(x), 4);
    NextTokenAt(text, p, q, Number(x.x));
    NextTokenAt(text, q + 1, q + 1, Number(x.y));
    NextTokenAt(text, q + 2, q + 2, Number(x.z));
    assert ReadPoint(text, p) == Some((x, q + 3));
    assert SkipLine(text, q + 3) == SkipLine(text, q + 4);
  }

  lemma ReadsBackAscPoints(text: seq<Lexeme>)
    ensures forall x, p, q :: ReadsBack(ReadAscPoint, AscPointLine, text, x, p, q)
  {
    forall x, p: nat, q: nat | Reaches(text, p, q) && At(text, q, AscPointLine(x))
      ensures ReadsBack(ReadAscPoint, AscPointLine, text, x, p, q)
    {
      ReadsBackAscPoint(text, x, p, q);
    }
  }

  /** An ASC face line: the ids and a trailing 0. */
  function AscCellLine(c: seq<int>): seq<Lexeme> { Lines(IdLine, c) + [Num(0.0), EndOfLine] }

  /** Reading a triangle is reading three ids. */
  lemma TriangleIsThreeIds(text: seq<Lexeme>, pos: nat)
    ensures ReadTriangle(text, pos) == Repeat(ReadInt, text, pos, 3)
  {
    match ReadInt(text, pos)
    case None =>
    case Some((a, p1)) =>
      match ReadInt(text, p1)
      case None =>
      case Some((b, p2)) =>
        match ReadInt(text, p2)
        case None =>
        case Some((c, p3)) =>
          assert Repeat(ReadInt, text, p3, 0) == Some(([], p3));
          assert Repeat(ReadInt, text, p2, 1) == Prepend([c], Some(([], p3)));
          assert [c] + [] == [c];
          assert Repeat(ReadInt, text, p1, 2) == Prepend([b], Some(([c], p3)));
          assert [b] + [c] == [b, c];
          assert Repeat(ReadInt, text, pos, 3) == Prepend([a], Some(([b, c], p3)));
          assert [a] + [b, c] == [a, b, c];
  }

  lemma ReadsBackAscCell(text: seq<Lexeme>, x: seq<int>, p: nat, q: nat)
    requires |x| == 3 && Reaches(text, p, q) && At(text, q, AscCellLine(x))
    ensures ReadAscCell(text, p) == Some((x, q + 5)) && |AscCellLine(x)| == 5
  {
    var ids := Lines(IdLine, x);
    AtSplit(text, q, ids, [Num(0.0), EndOfLine]);
    ReadsBackIds(text, p, q, x);
    TriangleIsThreeIds(text, p);
    AtIndex(text, q + 3, [Num(0.0), EndOfLine], 0);
    AtIndex(text, q + 3, [Num(0.0), EndOfLine], 1);
    assert SkipLine(text, q + 3) == SkipLine(text, q + 4);
  }

  lemma ReadsBackAscCells(text: seq<Lexeme>, cells: seq<seq<int>>)
    requires forall c :: c in cells ==> |c| == 3
    ensures forall x, p, q :: x in cells ==> ReadsBack(ReadAscCell, AscCellLine, text, x, p, q)
  {
    forall x, p: nat, q: nat | x in cells && Reaches(text, p, q) && At(text, q, AscCellLine(x))
      ensures ReadsBack(ReadAscCell, AscCellLine, text, x, p, q)
    {
      ReadsBackAscCell(text, x, p, q);
    }
  }

  /** A FreeSurfer ASCII file: a comment line, the counts line, the point lines, the face lines. */
  function AscText(s: Surface): seq<Lexeme>
  {
    [Tok(Word("#!ascii")), EndOfLine, Num(|s.points| as real), Num(|s.cells| as real), EndOfLine] +
    Lines(AscPointLine, s.points) + Lines(AscCellLine, s.cells)
  }

  lemma AscHeader(s: Surface)
    ensures var text := AscText(s);
            SkipLine(text, 0) == 2 && ReadInt(text, 2) == Some((|s.points|, 3)) &&
            ReadInt(text, 3) == Some((|s.cells|, 4)) && Reaches(text, 4, 5) &&
            At(text, 5, Lines(AscPointLine, s.points) + Lines(AscCellLine, s.cells))
  {
    var text := AscText(s);
    var rest := Lines(AscPointLine, s.points) + Lines(AscCellLine, s.cells);
    assert SkipLine(text, 0) == SkipLine(text, 1);
    assert text[5..5 + |rest|] == rest;
  }

  lemma AscBody(text: seq<Lexeme>, s: Surface)
    requires forall c :: c in s.cells ==> |c| == 3
    requires Reaches(text, 4, 5) && At(text, 5, Lines(AscPointLine, s.points) + Lines(AscCellLine, s.cells))
    ensures var rp := Repeat(ReadAscPoint, text, 4, |s.points|);
            rp.Some? && rp.value.0 == s.points &&
            var rc := Repeat(ReadAscCell, text, rp.value.1, |s.cells|);
            rc.Some? && rc.value.0 == s.cells
  {
    var pts := Lines(AscPointLine, s.points);
    var cls := Lines(AscCellLine, s.cells);
    AtSplit(text, 5, pts, cls);
    ReadsBackAscPoints(text);
    RepeatReadsLines(ReadAscPoint, AscPointLine, text, 4, 5, s.points);
    var afterPoints := Repeat(ReadAscPoint, text, 4, |s.points|).value.1;
    ReadsBackAscCells(text, s.cells);
    RepeatReadsLines(ReadAscCell, AscCellLine, text, afterPoints, 5 + |pts|, s.cells);
  }

  /** readASC reads back every triangulated surface written as an ASC file. */
  lemma AscRoundTrip(s: Surface)
    requires forall c :: c in s.cells ==> |c| == 3
    ensures ParseAsc(AscText(s)) == Some(s)
  {
    AscHeader(s);
    AscBody(AscText(s), s);
  }
}
