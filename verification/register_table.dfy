/**
 The register-map Markdown table (`create_register_table`,
 `format_sample_value`): one data row per register block, preceded by an
 `<EMPTY>` row when the block has leading empty registers, under a fixed
 header. Rows are joined with newlines and cells are separated by `|`; the
 split functions below invert both joins, which is what makes the output a
 well-formed table when no name or value contains those characters.
 */
module RegisterTable {
  import opened Wrappers
  import Decimal

  /* ---------- joining and splitting at one character ---------- */

  /** Python's `sep.join(parts)` for a one-character separator. */
  function Join(parts: seq<string>, sep: char): string
    decreases |parts|
  {
    if |parts| == 0 then ""
    else if |parts| == 1 then parts[0]
    else parts[0] + [sep] + Join(parts[1..], sep)
  }

  /** Position of the first `c` in `s`, or `|s|` when there is none. */
  function FirstIndex(s: string, c: char): (k: nat)
    ensures k <= |s|
    ensures k < |s| ==> s[k] == c
    ensures forall i :: 0 <= i < k ==> s[i] != c
    decreases |s|
  {
    if |s| == 0 then 0
    else if s[0] == c then 0
    else 1 + FirstIndex(s[1..], c)
  }

  /** Python's `s.split(sep)`: the pieces between occurrences of `sep`. */
  function Split(s: string, sep: char): (parts: seq<string>)
    ensures |parts| >= 1
    decreases |s|
  {
    var k := FirstIndex(s, sep);
    if k == |s| then [s] else [s[..k]] + Split(s[k + 1..], sep)
  }

  predicate Free(parts: seq<string>, sep: char) {
    forall i :: 0 <= i < |parts| ==> sep !in parts[i]
  }

  lemma FirstIndexAfter(p: string, sep: char, t: string)
    requires sep !in p
    ensures FirstIndex(p + [sep] + t, sep) == |p|
  {
    var s := p + [sep] + t;
    assert forall i :: 0 <= i < |p| ==> s[i] == p[i];
    assert s[|p|] == sep;
  }

  lemma FirstIndexNone(p: string, sep: char)
    requires sep !in p
    ensures FirstIndex(p, sep) == |p|
  {
  }

  /** A piece free of the separator, then the separator: split peels the piece off. */
  lemma SplitCons(p: string, sep: char, t: string)
    requires sep !in p
    ensures Split(p + [sep] + t, sep) == [p] + Split(t, sep)
  {
    var s := p + [sep] + t;
    FirstIndexAfter(p, sep, t);
    assert s[..|p|] == p;
    assert s[|p| + 1..] == t;
  }

  /** Splitting undoes joining, for non-empty lists of pieces free of the separator. */
  lemma {:induction false} SplitJoin(parts: seq<string>, sep: char)
    requires |parts| >= 1 && Free(parts, sep)
    ensures Split(Join(parts, sep), sep) == parts
    decreases |parts|
  {
    if |parts| == 1 {
      FirstIndexNone(parts[0], sep);
    } else {
      assert sep !in parts[0];
      SplitCons(parts[0], sep, Join(parts[1..], sep));
      SplitJoin(parts[1..], sep);
      assert parts == [parts[0]] + parts[1..];
    }
  }

  /** The separator occurs in a join only where it was put. */
  lemma {:induction false} JoinFree(parts: seq<string>, sep: char, c: char)
    requires c != sep && Free(parts, c)
    ensures c !in Join(parts, sep)
    decreases |parts|
  {
    if |parts| > 1 {
      JoinFree(parts[1..], sep, c);
    }
  }

  /* ---------- sample values ---------- */

  /** A sample value from the register JSON. Floats and other values carry their `str()` text. */
  datatype SampleValue =
    | BoolV(b: bool)
    | IntV(i: int)
    | FloatV(text: string)
    | StrV(s: string)
    | OtherV(text: string)

  /** `format_sample_value`: strings in double quotes, everything else as `str()` gives it. */
  function FormatSample(v: SampleValue): (r: string)
    ensures v.StrV? ==> |r| == |v.s| + 2 && r[0] == '"' && r[|r| - 1] == '"' && r[1..|r| - 1] == v.s
    ensures v.BoolV? || v.IntV? ==> |r| > 0 && r[0] != '"' && '"' !in r
  {
    match v
    case BoolV(b) => if b then "True" else "False"
    case IntV(i) => Decimal.IntToString(i)
    case FloatV(text) => text
    case StrV(s) => "\"" + s + "\""
    case OtherV(text) => text
  }

  /** A bool or an integer renders as `str()` does: `True`/`False`, or digits read back by `int()`. */
  lemma FormatSampleRoundTrip(v: SampleValue)
    ensures v.BoolV? ==> (FormatSample(v) == "True" <==> v.b)
    ensures v.BoolV? && !v.b ==> FormatSample(v) == "False"
    ensures v.IntV? ==> Decimal.ParseInt(FormatSample(v)) == v.i
  {
    if v.IntV? {
      Decimal.IntToStringRoundTrip(v.i);
    }
  }

  /* ---------- blocks ---------- */

  /** The optional `boundary_validation` entries; an absent dictionary has none of them. */
  datatype Boundary = Boundary(actualStart: Option<int>, actualSize: Option<int>, leadingEmpty: Option<int>)

  const NoBoundary := Boundary(None, None, None)

  datatype Block = Block(
    startRegister: int,
    blockSize: int,
    parameterKeys: seq<string>,
    sampleValues: map<string, SampleValue>,
    boundary: Boundary)
  {
    function ActualStart(): int { boundary.actualStart.GetOr(startRegister) }
    function ActualSize(): int { boundary.actualSize.GetOr(blockSize) }
    function LeadingEmpty(): int { boundary.leadingEmpty.GetOr(0) }

    /** `samples.get(param, "N/A")`. */
    function Sample(p: string): SampleValue {
      if p in sampleValues then sampleValues[p] else StrV("N/A")
    }
  }

  /** Without boundary data the block's own start and size are used and nothing is empty. */
  lemma BoundaryDefaults(b: Block)
    requires b.boundary == NoBoundary
    ensures b.ActualStart() == b.startRegister && b.ActualSize() == b.blockSize && b.LeadingEmpty() == 0
  {
  }

  /* ---------- rows ---------- */

  /** `"s"` for a single register, `"s-e"` with `e = s + size - 1` otherwise. */
  function RangeDisplay(start: int, size: int): string {
    if size == 1 then Decimal.IntToString(start)
    else Decimal.IntToString(start) + "-" + Decimal.IntToString(start + size - 1)
  }

  /** Reads a range display back as (first, last) register. */
  function ParseRange(d: string): (int, int)
    requires Decimal.AllDigits(d) || (var k := FirstIndex(d, '-');
      k < |d| && Decimal.AllDigits(d[..k]) && Decimal.AllDigits(d[k + 1..]))
  {
    var k := FirstIndex(d, '-');
    if k == |d| then (Decimal.ParseNat(d), Decimal.ParseNat(d))
    else (Decimal.ParseNat(d[..k]), Decimal.ParseNat(d[k + 1..]))
  }

  /** For non-negative registers the display names exactly the first and last register of the range. */
  lemma RangeDisplayRoundTrip(start: int, size: int)
    requires start >= 0 && start + size - 1 >= 0
    ensures var d := RangeDisplay(start, size);
      (Decimal.AllDigits(d) || (var k := FirstIndex(d, '-');
        k < |d| && Decimal.AllDigits(d[..k]) && Decimal.AllDigits(d[k + 1..])))
      && ParseRange(d) == if size == 1 then (start, start) else (start, start + size - 1)
  {
    var a := Decimal.IntToString(start);
    Decimal.IntToStringRoundTrip(start);
    assert forall i :: 0 <= i < |a| ==> a[i] != '-';
    FirstIndexNone(a, '-');
    if size != 1 {
      var e := Decimal.IntToString(start + size - 1);
      Decimal.IntToStringRoundTrip(start + size - 1);
      var d := a + "-" + e;
      FirstIndexAfter(a, '-', e);
      assert d[..|a|] == a;
      assert d[|a| + 1..] == e;
    }
  }

  /** `| a | b | c | d | e |`: the cells padded by one space, between `|` characters. */
  function Row(cells: seq<string>): string {
    Join([""] + Pad(cells) + [""], '|')
  }

  function Pad(cells: seq<string>): (padded: seq<string>)
    ensures |padded| == |cells|
    ensures forall i :: 0 <= i < |cells| ==> padded[i] == " " + cells[i] + " "
  {
    seq(|cells|, i requires 0 <= i < |cells| => " " + cells[i] + " ")
  }

  /** Splitting a row at `|` gives back its padded cells, when no cell holds a `|`. */
  lemma RowCells(cells: seq<string>)
    requires Free(cells, '|')
    ensures Split(Row(cells), '|') == [""] + Pad(cells) + [""]
  {
    var parts := [""] + Pad(cells) + [""];
    forall i | 0 <= i < |parts|
      ensures '|' !in parts[i]
    {
      if 0 < i < |parts| - 1 {
        assert parts[i] == " " + cells[i - 1] + " ";
      }
    }
    SplitJoin(parts, '|');
  }

  const Header := "| Register | Start | Length | Parameters | Sample Values |"
  const Separator := "|----------|-------|--------|------------|---------------|"

  lemma JoinStep(parts: seq<string>, sep: char, k: nat)
    requires k + 1 < |parts|
    ensures Join(parts[k..], sep) == parts[k] + [sep] + Join(parts[k + 1..], sep)
  {
    assert parts[k..][1..] == parts[k + 1..];
  }

  lemma RowParts(a: string, b: string, c: string, d: string, e: string)
    ensures [""] + Pad([a, b, c, d, e]) + [""] ==
      ["", " " + a + " ", " " + b + " ", " " + c + " ", " " + d + " ", " " + e + " ", ""]
  {
  }

  lemma RowAssoc(a: string, b: string, c: string, d: string, e: string)
    ensures "" + "|" + (" " + a + " " + "|" + (" " + b + " " + "|" + (" " + c + " " + "|" +
      (" " + d + " " + "|" + (" " + e + " " + "|" + ""))))) ==
      "| " + a + " | " + b + " | " + c + " | " + d + " | " + e + " |"
  {
  }

  /** A five-cell row is the f-string `| {a} | {b} | {c} | {d} | {e} |`. */
  lemma RowFive(a: string, b: string, c: string, d: string, e: string)
    ensures Row([a, b, c, d, e]) == "| " + a + " | " + b + " | " + c + " | " + d + " | " + e + " |"
  {
    var parts := [""] + Pad([a, b, c, d, e]) + [""];
    RowParts(a, b, c, d, e);
    JoinStep(parts, '|', 0);
    JoinStep(parts, '|', 1);
    JoinStep(parts, '|', 2);
    JoinStep(parts, '|', 3);
    JoinStep(parts, '|', 4);
    JoinStep(parts, '|', 5);
    assert Join(parts[6..], '|') == "";
    RowAssoc(a, b, c, d, e);
  }

  /** The header is the row of the five column titles. */
  lemma HeaderIsRow()
    ensures Header == Row(["Register", "Start", "Length", "Parameters", "Sample Values"])
  {
    RowFive("Register", "Start", "Length", "Parameters", "Sample Values");
    assert "| " + "Register" == "| Register";
    assert "| Register" + " | " == "| Register | ";
    assert "| Register | " + "Start" == "| Register | Start";
    assert "| Register | Start" + " | " == "| Register | Start | ";
    assert "| Register | Start | " + "Length" == "| Register | Start | Length";
    assert "| Register | Start | Length" + " | " == "| Register | Start | Length | ";
    assert "| Register | Start | Length | " + "Parameters" == "| Register | Start | Length | Parameters";
    assert "| Register | Start | Length | Parameters" + " | " == "| Register | Start | Length | Parameters | ";
    assert "| Register | Start | Length | Parameters | " + "Sample Values" ==
      "| Register | Start | Length | Parameters | Sample Values";
    assert "| Register | Start | Length | Parameters | Sample Values" + " |" == Header;
  }

  const EmptyCell := "`<EMPTY>`"

  function Quote(p: string): string { "`" + p + "`" }

  /** `"<br>".join(parts)`. */
  function JoinBr(parts: seq<string>): string
    decreases |parts|
  {
    if |parts| == 0 then ""
    else if |parts| == 1 then parts[0]
    else parts[0] + "<br>" + JoinBr(parts[1..])
  }

  function QuotedNames(params: seq<string>): (qs: seq<string>)
    ensures |qs| == |params|
    ensures forall i :: 0 <= i < |params| ==> qs[i] == Quote(params[i])
  {
    seq(|params|, i requires 0 <= i < |params| => Quote(params[i]))
  }

  function SampleTexts(b: Block): (vs: seq<string>)
    ensures |vs| == |b.parameterKeys|
    ensures forall i :: 0 <= i < |vs| ==> vs[i] == FormatSample(b.Sample(b.parameterKeys[i]))
  {
    seq(|b.parameterKeys|, i requires 0 <= i < |b.parameterKeys| => FormatSample(b.Sample(b.parameterKeys[i])))
  }

  /** The Parameters and Sample Values cells of a block's data row. */
  function ParameterCells(b: Block): (cells: (string, string))
    ensures |b.parameterKeys| == 0 ==> cells == (EmptyCell, "-")
    ensures |b.parameterKeys| >= 1 ==>
      cells == (JoinBr(QuotedNames(b.parameterKeys)), JoinBr(SampleTexts(b)))
  {
    var params := b.parameterKeys;
    if |params| == 0 then (EmptyCell, "-")
    else if |params| == 1 then (Quote(params[0]), FormatSample(b.Sample(params[0])))
    else (JoinBr(QuotedNames(params)), JoinBr(SampleTexts(b)))
  }

  /**
   The single-parameter cells are the several-parameter join of one element,
   so every block with parameters lists its names and values in parameter
   order, and a missing sample shows as a quoted N/A.
   */
  lemma ParameterCellsJoin(b: Block)
    requires |b.parameterKeys| >= 1
    ensures ParameterCells(b) == (JoinBr(QuotedNames(b.parameterKeys)), JoinBr(SampleTexts(b)))
    ensures forall p :: p in b.parameterKeys && p !in b.sampleValues ==> FormatSample(b.Sample(p)) == "\"N/A\""
  {
  }

  /** The row for the leading empty registers: the same range rule on the original start. */
  function EmptyRow(b: Block): (row: string)
    ensures row == "| " + RangeDisplay(b.startRegister, b.LeadingEmpty()) + " | " + Decimal.IntToString(b.startRegister)
      + " | " + Decimal.IntToString(b.LeadingEmpty()) + " | `<EMPTY>` | - |"
  {
    var cells := [RangeDisplay(b.startRegister, b.LeadingEmpty()), Decimal.IntToString(b.startRegister),
                  Decimal.IntToString(b.LeadingEmpty()), EmptyCell, "-"];
    RowFive(cells[0], cells[1], cells[2], cells[3], cells[4]);
    Row(cells)
  }

  /** The row for the block's data; an empty block shows `<EMPTY>` and `-`. */
  function DataRow(b: Block): (row: string)
    ensures row == "| " + RangeDisplay(b.ActualStart(), b.ActualSize()) + " | " + Decimal.IntToString(b.ActualStart())
      + " | " + Decimal.IntToString(b.ActualSize()) + " | " + ParameterCells(b).0 + " | " + ParameterCells(b).1 + " |"
  {
    var (names, values) := ParameterCells(b);
    var cells := [RangeDisplay(b.ActualStart(), b.ActualSize()), Decimal.IntToString(b.ActualStart()),
                  Decimal.IntToString(b.ActualSize()), names, values];
    RowFive(cells[0], cells[1], cells[2], cells[3], cells[4]);
    Row(cells)
  }

  /** The rows one block contributes: an `<EMPTY>` row iff it has leading empty registers, then its data row. */
  function BlockRows(b: Block): (rows: seq<string>)
    ensures |rows| == if b.LeadingEmpty() > 0 then 2 else 1
    ensures rows[|rows| - 1] == DataRow(b)
    ensures b.LeadingEmpty() > 0 ==> rows[0] == EmptyRow(b)
  {
    (if b.LeadingEmpty() > 0 then [EmptyRow(b)] else []) + [DataRow(b)]
  }

  /** The rows of a block list, block by block. */
  function Rows(blocks: seq<Block>): seq<string>
    decreases |blocks|
  {
    if blocks == [] then []
    else Rows(blocks[..|blocks| - 1]) + BlockRows(blocks[|blocks| - 1])
  }

  /** Number of blocks with leading empty registers. */
  function LeadingCount(blocks: seq<Block>): nat
    decreases |blocks|
  {
    if blocks == [] then 0
    else LeadingCount(blocks[..|blocks| - 1]) + (if blocks[|blocks| - 1].LeadingEmpty() > 0 then 1 else 0)
  }

  lemma {:induction false} RowsCount(blocks: seq<Block>)
    ensures |Rows(blocks)| == |blocks| + LeadingCount(blocks)
    decreases |blocks|
  {
    if blocks != [] {
      RowsCount(blocks[..|blocks| - 1]);
    }
  }

  /** The lines of the table: header, separator, then every block's rows. */
  function TableLines(blocks: seq<Block>): (lines: seq<string>)
    ensures |lines| == 2 + |blocks| + LeadingCount(blocks)
    ensures lines[0] == Header && lines[1] == Separator
  {
    RowsCount(blocks);
    [Header, Separator] + Rows(blocks)
  }

  /** Splitting the table at newlines gives back its lines when no line carries a newline of its own. */
  lemma TableSplits(blocks: seq<Block>)
    requires Free(TableLines(blocks), '\n')
    ensures Split(Join(TableLines(blocks), '\n'), '\n') == TableLines(blocks)
  {
    SplitJoin(TableLines(blocks), '\n');
  }

  /** The loop body of `create_register_table` for one block. */
  method AppendBlock(lines: seq<string>, b: Block) returns (lines': seq<string>)
    ensures lines' == lines + BlockRows(b)
  {
    lines' := lines;
    if b.LeadingEmpty() > 0 {
      lines' := lines' + [EmptyRow(b)];
    }
    lines' := lines' + [DataRow(b)];
  }

  /**
   `create_register_table`: the header, the separator and every block's rows,
   joined by newlines; the table splits back into those lines when no line
   carries a newline of its own.
   */
  method CreateRegisterTable(blocks: seq<Block>) returns (table: string)
    ensures table == Join(TableLines(blocks), '\n')
    ensures Free(TableLines(blocks), '\n') ==> Split(table, '\n') == TableLines(blocks)
    ensures blocks == [] ==> table == Header + "\n" + Separator
  {
    var rows := [];
    var i := 0;
    while i < |blocks|
      invariant 0 <= i <= |blocks|
      invariant rows == Rows(blocks[..i])
    {
      assert blocks[..i + 1][..i] == blocks[..i];
      rows := AppendBlock(rows, blocks[i]);
      i := i + 1;
    }
    assert blocks[..i] == blocks;
    var lines := [Header, Separator] + rows;
    table := Join(lines, '\n');
    if Free(lines, '\n') {
      TableSplits(blocks);
    }
  }
}
