/** `extract_table_from_html` (Scripts/clean.py): turns the data table of a
    statistics page into a DataFrame.

    The table is modelled after HTML parsing: a sequence of `tr` rows, each a
    sequence of cells with their tag (`td` or `th`), their class list and
    their text. The header cells are the `th` cells of the whole table, in
    document order. Exceptions raised anywhere in the extraction become
    `None`, exactly as the source's blanket `except` does. */
module Clean {

  import opened Outcomes
  import opened Strings
  import opened Seqs
  import opened Cells

  datatype Tag = Td | Th

  /** A table cell as the HTML parser reports it. */
  datatype Cell = Cell(tag: Tag, classes: seq<string>, text: string)

  type Row = seq<Cell>

  /** A `table` element reduced to its `tr` rows, in document order. */
  datatype HtmlTable = HtmlTable(rows: seq<Row>)

  /** A DataFrame: its column names and its rows of cells. */
  datatype Frame = Frame(columns: seq<string>, rows: seq<seq<Value>>)

  const CategoryColumn: string := "Categoria"
  const ItemClass: string := "tb_item"
  const SubitemClass: string := "tb_subitem"

  // ------------------------------------------------------------ header cells

  predicate IsHeaderCell(c: Cell) {
    c.tag == Th
  }

  predicate IsDataCell(c: Cell) {
    c.tag == Td
  }

  predicate NonEmpty(s: string) {
    s != ""
  }

  function StrippedText(c: Cell): string {
    Strip(c.text)
  }

  /** Every cell of the table, row after row: document order. */
  function AllCells(rows: seq<Row>): seq<Cell> {
    if rows == [] then [] else rows[0] + AllCells(rows[1..])
  }

  /** The stripped texts of all `th` cells, in document order. */
  function HeaderTexts(t: HtmlTable): seq<string> {
    Map(StrippedText, Filter(IsHeaderCell, AllCells(t.rows)))
  }

  /** The header texts that are not empty once stripped. */
  function ColumnNames(t: HtmlTable): seq<string> {
    Filter(NonEmpty, HeaderTexts(t))
  }

  /** The two-level layout is the one with exactly two non-empty headers. */
  predicate IsTwoLevel(t: HtmlTable) {
    |ColumnNames(t)| == 2
  }

  /** The column schema: the category column in front of the two headers in
      the two-level layout, the headers as they are otherwise. */
  function Columns(t: HtmlTable): (cols: seq<string>)
    ensures IsTwoLevel(t) ==> |cols| == 3 && cols[0] == CategoryColumn && cols[1..] == ColumnNames(t)
    ensures !IsTwoLevel(t) ==> cols == ColumnNames(t)
    ensures forall k :: 0 <= k < |cols| ==> cols[k] != ""
  {
    if IsTwoLevel(t) then [CategoryColumn] + ColumnNames(t) else ColumnNames(t)
  }

  /** The column names are the non-empty stripped texts of the `th` cells,
      in document order, none dropped and none reordered. */
  lemma ColumnNamesAreHeaders(t: HtmlTable)
    ensures var h, ix := HeaderTexts(t), Kept(NonEmpty, HeaderTexts(t));
      && |ColumnNames(t)| == |ix|
      && (forall k :: 0 <= k < |ix| ==> ColumnNames(t)[k] == h[ix[k]])
      && (forall i :: 0 <= i < |h| && h[i] != "" ==> i in ix)
  {
    FilterIsKept(NonEmpty, HeaderTexts(t));
  }

  // ------------------------------------------------------- two-level layout

  predicate IsItemCell(c: Cell) {
    c.tag == Td && ItemClass in c.classes
  }

  predicate IsSubitemCell(c: Cell) {
    c.tag == Td && SubitemClass in c.classes
  }

  /** The stripped text of the row's first `td` of class `tb_item`, if any. */
  function ItemText(row: Row): Option<string> {
    var items := Filter(IsItemCell, row);
    if items == [] then None else Some(StrippedText(items[0]))
  }

  /** The stripped texts of the row's `td` cells of class `tb_subitem`. */
  function SubitemTexts(row: Row): seq<string> {
    Map(StrippedText, Filter(IsSubitemCell, row))
  }

  /** What the two-level loop carries from one row to the next: the current
      category, label and value. */
  datatype Carry = Carry(item: string, subitem: string, value: Value)

  /** The carry before the first row: two empty strings and the integer 0. */
  const Start: Carry := Carry("", "", Number(0))

  /** One iteration of the two-level loop. An item cell replaces the
      category; subitem cells replace label and value with the first two of
      them and any further ones are ignored; a row with exactly one subitem
      cell fails, as indexing the missing second one raises. */
  function Step(c: Carry, row: Row): (r: Option<Carry>)
    ensures r.None? <==> |SubitemTexts(row)| == 1
    ensures r.Some? ==> r.value.item == (if ItemText(row).Some? then ItemText(row).value else c.item)
    ensures r.Some? && SubitemTexts(row) == [] ==> r.value.subitem == c.subitem && r.value.value == c.value
    ensures r.Some? && |SubitemTexts(row)| >= 2 ==>
      r.value.subitem == SubitemTexts(row)[0] && r.value.value == Text(SubitemTexts(row)[1])
  {
    var item := if ItemText(row).Some? then ItemText(row).value else c.item;
    var subs := SubitemTexts(row);
    if subs == [] then Some(c.(item := item))
    else if |subs| == 1 then None
    else Some(Carry(item, subs[0], Text(subs[1])))
  }

  /** The candidate row a carry emits. */
  function Emit(c: Carry): seq<Value> {
    [Text(c.item), Text(c.subitem), c.value]
  }

  /** The two-level loop as a fold: one candidate row per `tr`, each the
      carry after that row's updates. */
  function TwoLevel(c: Carry, rows: seq<Row>): (r: Option<seq<seq<Value>>>)
    ensures r.Some? ==> |r.value| == |rows|
    ensures r.Some? ==> forall i :: 0 <= i < |rows| ==> |r.value[i]| == 3
    decreases |rows|
  {
    if rows == [] then Some([])
    else
      match Step(c, rows[0])
      case None => None
      case Some(c') =>
        match TwoLevel(c', rows[1..])
        case None => None
        case Some(rest) => Some([Emit(c')] + rest)
  }

  /** The two-level loop fails exactly when some row has a single subitem
      cell; the carry plays no part in it. */
  lemma {:induction false} TwoLevelFails(c: Carry, rows: seq<Row>)
    ensures TwoLevel(c, rows).None? <==> exists i :: 0 <= i < |rows| && |SubitemTexts(rows[i])| == 1
    decreases |rows|
  {
    if rows != [] {
      match Step(c, rows[0])
      case None =>
      case Some(c') =>
        TwoLevelFails(c', rows[1..]);
        assert forall i :: 1 <= i < |rows| ==> rows[i] == rows[1..][i - 1];
    }
  }

  /** Reference for the carried category: the text of the latest item cell
      among `rows`, or `d` when none of them has one. */
  function LatestItem(rows: seq<Row>, d: string): string {
    if rows == [] then d
    else if ItemText(rows[|rows| - 1]).Some? then ItemText(rows[|rows| - 1]).value
    else LatestItem(rows[..|rows| - 1], d)
  }

  /** Reference for the carried label and value: the first two subitem texts
      of the latest row among `rows` that has at least two, or `d`. */
  function LatestPair(rows: seq<Row>, d: (string, Value)): (string, Value) {
    if rows == [] then d
    else if |SubitemTexts(rows[|rows| - 1])| >= 2 then
      (SubitemTexts(rows[|rows| - 1])[0], Text(SubitemTexts(rows[|rows| - 1])[1]))
    else LatestPair(rows[..|rows| - 1], d)
  }

  lemma {:induction false} LatestItemAppend(a: seq<Row>, b: seq<Row>, d: string)
    ensures LatestItem(a + b, d) == LatestItem(b, LatestItem(a, d))
  {
    if b == [] {
      assert a + b == a;
    } else {
      assert (a + b)[..|a + b| - 1] == a + b[..|b| - 1];
      assert (a + b)[|a + b| - 1] == b[|b| - 1];
      LatestItemAppend(a, b[..|b| - 1], d);
    }
  }

  lemma {:induction false} LatestPairAppend(a: seq<Row>, b: seq<Row>, d: (string, Value))
    ensures LatestPair(a + b, d) == LatestPair(b, LatestPair(a, d))
  {
    if b == [] {
      assert a + b == a;
    } else {
      assert (a + b)[..|a + b| - 1] == a + b[..|b| - 1];
      assert (a + b)[|a + b| - 1] == b[|b| - 1];
      LatestPairAppend(a, b[..|b| - 1], d);
    }
  }

  /** The candidate row the reference definitions predict after `rows`,
      starting from carry `c`. */
  function Expected(c: Carry, rows: seq<Row>): seq<Value> {
    var pair := LatestPair(rows, (c.subitem, c.value));
    [Text(LatestItem(rows, c.item)), Text(pair.0), pair.1]
  }

  lemma ExpectedAfterStep(c: Carry, row: Row, rest: seq<Row>)
    requires Step(c, row).Some?
    ensures Expected(c, [row] + rest) == Expected(Step(c, row).value, rest)
  {
    var c' := Step(c, row).value;
    assert [row][..0] == [];
    assert LatestItem([row], c.item) == c'.item;
    assert LatestPair([row], (c.subitem, c.value)) == (c'.subitem, c'.value);
    LatestItemAppend([row], rest, c.item);
    LatestPairAppend([row], rest, (c.subitem, c.value));
  }

  /** Carry-forward: the candidate row of `tr` number `i` holds the latest
      category and the latest label/value pair seen in rows 0 to `i`, and the
      starting carry's where no row up to `i` supplied one. */
  lemma {:induction false} TwoLevelCarriesForward(c: Carry, rows: seq<Row>)
    requires TwoLevel(c, rows).Some?
    ensures forall i :: 0 <= i < |rows| ==> TwoLevel(c, rows).value[i] == Expected(c, rows[..i + 1])
    decreases |rows|
  {
    if rows != [] {
      var c' := Step(c, rows[0]).value;
      TwoLevelCarriesForward(c', rows[1..]);
      forall i | 0 <= i < |rows| ensures TwoLevel(c, rows).value[i] == Expected(c, rows[..i + 1]) {
        CarriedAt(c, rows, i);
      }
    }
  }

  /** One position of the carry-forward induction: position `i` of the
      fold is position `i - 1` of the fold after the first row. */
  lemma CarriedAt(c: Carry, rows: seq<Row>, i: nat)
    requires rows != [] && i < |rows| && TwoLevel(c, rows).Some?
    requires i > 0 ==>
      TwoLevel(Step(c, rows[0]).value, rows[1..]).value[i - 1] == Expected(Step(c, rows[0]).value, rows[1..][..i])
    ensures TwoLevel(c, rows).value[i] == Expected(c, rows[..i + 1])
  {
    var c' := Step(c, rows[0]).value;
    TwoLevelUnfold(c, rows);
    PrefixAfterHead(rows, i);
    ExpectedAfterStep(c, rows[0], rows[1..][..i]);
    if i == 0 {
      ExpectedOfNothing(c');
    }
  }

  lemma TwoLevelUnfold(c: Carry, rows: seq<Row>)
    requires rows != [] && TwoLevel(c, rows).Some?
    ensures Step(c, rows[0]).Some? && TwoLevel(Step(c, rows[0]).value, rows[1..]).Some?
    ensures TwoLevel(c, rows).value
         == [Emit(Step(c, rows[0]).value)] + TwoLevel(Step(c, rows[0]).value, rows[1..]).value
  {
  }

  lemma PrefixAfterHead(rows: seq<Row>, i: nat)
    requires i < |rows|
    ensures rows[..i + 1] == [rows[0]] + rows[1..][..i]
  {
  }

  lemma ExpectedOfNothing(c: Carry)
    ensures Expected(c, []) == Emit(c)
  {
  }

  /** In a two-level candidate row the value is text unless the label is
      still the empty starting one. */
  predicate LabelledText(row: seq<Value>) {
    |row| == 3 && row[0].Text? && row[1].Text? && (row[2].Text? || row[1] == Text(""))
  }

  lemma {:induction false} TwoLevelLabelledText(c: Carry, rows: seq<Row>)
    requires c.value.Text? || c.subitem == ""
    requires TwoLevel(c, rows).Some?
    ensures forall i :: 0 <= i < |rows| ==> LabelledText(TwoLevel(c, rows).value[i])
    decreases |rows|
  {
    if rows != [] {
      var c' := Step(c, rows[0]).value;
      TwoLevelLabelledText(c', rows[1..]);
    }
  }

  // ------------------------------------------------------------ flat layout

  /** The stripped texts of a row's `td` cells, in order. */
  function DataTexts(row: Row): (r: seq<Value>)
    ensures AllText(r)
  {
    Map((c: Cell) => Text(StrippedText(c)), Filter(IsDataCell, row))
  }

  /** The flat loop: each `tr` contributes its `td` texts verbatim. */
  function Flat(rows: seq<Row>): (r: seq<seq<Value>>)
    ensures |r| == |rows|
    ensures forall i :: 0 <= i < |rows| ==> r[i] == DataTexts(rows[i])
  {
    Map(DataTexts, rows)
  }

  // ---------------------------------------------------- shared DataFrame steps

  /** The candidate rows of the chosen layout. */
  function Candidates(t: HtmlTable): Option<seq<seq<Value>>> {
    if IsTwoLevel(t) then TwoLevel(Start, t.rows) else Some(Flat(t.rows))
  }

  /** The layout step fails only in the two-level layout, and there exactly
      when some row has a single subitem cell. */
  lemma CandidatesFail(t: HtmlTable)
    ensures Candidates(t).None? <==>
      IsTwoLevel(t) && exists i :: 0 <= i < |t.rows| && |SubitemTexts(t.rows[i])| == 1
  {
    TwoLevelFails(Start, t.rows);
  }

  /** The number of DataFrame columns built from ragged rows: the longest row. */
  function Width(rows: seq<seq<Value>>): (w: nat)
    ensures forall i :: 0 <= i < |rows| ==> |rows[i]| <= w
    ensures rows == [] ==> w == 0
    ensures rows != [] ==> exists i :: 0 <= i < |rows| && |rows[i]| == w
  {
    if rows == [] then 0
    else
      var w := Width(rows[1..]);
      assert forall i :: 1 <= i < |rows| ==> rows[i] == rows[1..][i - 1];
      if |rows[0]| >= w then |rows[0]| else w
  }

  /** A short row filled with empty strings up to width `w`. */
  function Pad(row: seq<Value>, w: nat): (r: seq<Value>)
    ensures |r| == if |row| <= w then w else |row|
    ensures forall j :: 0 <= j < |row| ==> r[j] == row[j]
    ensures forall j :: |row| <= j < |r| ==> r[j] == Text("")
  {
    if |row| >= w then row else row + seq(w - |row|, _ => Text(""))
  }

  function PadAll(rows: seq<seq<Value>>, w: nat): seq<seq<Value>> {
    Map((row: seq<Value>) => Pad(row, w), rows)
  }

  /** A row survives the filter when its first two cells are not empty. */
  predicate Keep(row: seq<Value>) {
    |row| >= 2 && row[0] != Text("") && row[1] != Text("")
  }

  predicate AllText(row: seq<Value>) {
    forall j :: 0 <= j < |row| ==> row[j].Text?
  }

  /** pandas' string-dtype test on column `j`. */
  predicate ColumnIsText(rows: seq<seq<Value>>, j: nat) {
    forall i :: 0 <= i < |rows| ==> j < |rows[i]| && rows[i][j].Text?
  }

  /** The cell of column `j` after numeric coercion: normalised when the
      column's name marks it numeric and the column is textual. */
  function CoerceCell(cols: seq<string>, rows: seq<seq<Value>>, row: seq<Value>, j: nat): Value
    requires j < |row|
  {
    if j < |cols| && IsNumericColumn(cols[j]) && ColumnIsText(rows, j) && row[j].Text?
    then NumericValue(row[j].s)
    else row[j]
  }

  function Coerce(cols: seq<string>, rows: seq<seq<Value>>): seq<seq<Value>> {
    Map((row: seq<Value>) => seq(|row|, j requires 0 <= j < |row| => CoerceCell(cols, rows, row, j)), rows)
  }

  /** A row of an extracted frame: one cell per column, the first two
      filled in, numbers (or missing) in numeric columns and text elsewhere. */
  predicate WellFormedRow(cols: seq<string>, row: seq<Value>) {
    && |row| == |cols| && |row| >= 2
    && row[0] != Text("") && row[1] != Text("")
    && (forall j :: 0 <= j < |row| ==>
          if IsNumericColumn(cols[j]) then row[j].Number? || row[j].Missing? else row[j].Text?)
  }

  /** Candidate rows that pass the filter hold text only. */
  predicate TextWhenKept(cands: seq<seq<Value>>) {
    forall i :: 0 <= i < |cands| ==> Keep(cands[i]) ==> AllText(cands[i])
  }

  /** The steps both layouts share: the DataFrame of the candidate rows
      (padded to the widest row), the filter on the first two columns, the
      schema, and the numeric coercion. It fails when the frame has fewer
      than two columns or a column count that differs from the schema. */
  function Build(cols: seq<string>, cands: seq<seq<Value>>): (r: Option<Frame>)
    ensures r.None? <==> Width(cands) < 2 || Width(cands) != |cols|
    ensures r.Some? ==> r.value.columns == cols
    ensures r.Some? && TextWhenKept(cands) ==>
      forall k :: 0 <= k < |r.value.rows| ==> WellFormedRow(cols, r.value.rows[k])
  {
    var w := Width(cands);
    if w < 2 || w != |cols| then None
    else
      var kept := Filter(Keep, PadAll(cands, w));
      if TextWhenKept(cands) then
        KeptRowsAreText(cands, w);
        CoerceWellFormed(cols, kept);
        Some(Frame(cols, Coerce(cols, kept)))
      else
        Some(Frame(cols, Coerce(cols, kept)))
  }

  /** `extract_table_from_html`: the DataFrame of the table, or `None` when
      the layout step raises, when the widest candidate row has fewer than
      two cells, or when the widest row and the column schema disagree. */
  function Extract(t: HtmlTable): (r: Option<Frame>)
    ensures r.None? <==>
      Candidates(t).None? || Width(Candidates(t).value) < 2 || Width(Candidates(t).value) != |Columns(t)|
    ensures r.Some? ==> r.value.columns == Columns(t) && |r.value.columns| >= 3
    ensures r.Some? ==> forall k :: 0 <= k < |r.value.rows| ==> WellFormedRow(r.value.columns, r.value.rows[k])
  {
    match Candidates(t)
    case None => None
    case Some(cands) =>
      CandidateRowsText(t, cands);
      Build(Columns(t), cands)
  }

  lemma CoerceWellFormed(cols: seq<string>, kept: seq<seq<Value>>)
    requires |cols| >= 2
    requires forall k :: 0 <= k < |kept| ==> |kept[k]| == |cols| && Keep(kept[k]) && AllText(kept[k])
    ensures forall k :: 0 <= k < |Coerce(cols, kept)| ==> WellFormedRow(cols, Coerce(cols, kept)[k])
  {
    var out := Coerce(cols, kept);
    forall k | 0 <= k < |out| ensures WellFormedRow(cols, out[k]) {
      var row := kept[k];
      assert forall j :: 0 <= j < |cols| ==> ColumnIsText(kept, j);
      assert forall j :: 0 <= j < |row| ==> out[k][j] == CoerceCell(cols, kept, row, j);
    }
  }

  /** Every candidate row that would pass the filter is all text: the
      carried integer 0 only ever sits beside an empty label. */
  lemma CandidateRowsText(t: HtmlTable, cands: seq<seq<Value>>)
    requires Candidates(t) == Some(cands)
    ensures TextWhenKept(cands)
  {
    if IsTwoLevel(t) {
      TwoLevelRowsText(t.rows, cands);
    } else {
      assert cands == Flat(t.rows);
    }
  }

  lemma LabelledKeptIsText(row: seq<Value>)
    requires LabelledText(row) && Keep(row)
    ensures AllText(row)
  {
    assert row == [row[0], row[1], row[2]];
  }

  lemma TwoLevelRowsText(rows: seq<Row>, cands: seq<seq<Value>>)
    requires TwoLevel(Start, rows) == Some(cands)
    ensures TextWhenKept(cands)
  {
    TwoLevelLabelledText(Start, rows);
    forall i | 0 <= i < |cands| && Keep(cands[i]) ensures AllText(cands[i]) {
      LabelledKeptIsText(cands[i]);
    }
  }

  lemma PadKeepsText(row: seq<Value>, w: nat)
    requires Keep(row) ==> AllText(row)
    ensures Keep(Pad(row, w)) ==> AllText(Pad(row, w)) && Keep(row)
  {
  }

  /** Every row that survives the filter is all text, so every column passes
      pandas' string-dtype test and numeric columns are always coerced. */
  lemma KeptRowsAreText(cands: seq<seq<Value>>, w: nat)
    requires TextWhenKept(cands) && w == Width(cands)
    ensures forall k :: 0 <= k < |Filter(Keep, PadAll(cands, w))| ==>
      var row := Filter(Keep, PadAll(cands, w))[k];
      |row| == w && AllText(row) && Keep(row)
  {
    var padded := PadAll(cands, w);
    var kept := Filter(Keep, padded);
    forall k | 0 <= k < |kept| ensures |kept[k]| == w && AllText(kept[k]) && Keep(kept[k]) {
      assert kept[k] in padded;
      var i :| 0 <= i < |padded| && padded[i] == kept[k];
      PadKeepsText(cands[i], w);
    }
  }

  // ------------------------------------------------------ what each row holds

  /** A cell as it appears in the extracted frame under column `name`. */
  function Coerced(name: string, v: Value): Value {
    if IsNumericColumn(name) && v.Text? then NumericValue(v.s) else v
  }

  lemma CoerceCells(cols: seq<string>, kept: seq<seq<Value>>)
    requires forall k :: 0 <= k < |kept| ==> |kept[k]| == |cols| && AllText(kept[k])
    ensures |Coerce(cols, kept)| == |kept|
    ensures forall k, j :: 0 <= k < |kept| && 0 <= j < |cols| ==>
      Coerce(cols, kept)[k][j] == Coerced(cols[j], kept[k][j])
  {
    forall k, j | 0 <= k < |kept| && 0 <= j < |cols|
      ensures Coerce(cols, kept)[k][j] == Coerced(cols[j], kept[k][j])
    {
      assert ColumnIsText(kept, j);
      assert Coerce(cols, kept)[k][j] == CoerceCell(cols, kept, kept[k], j);
    }
  }

  /** `out` holds, in order, the rows of `xs` that pass the filter, each
      cell coerced according to its column name: nothing else is dropped and
      nothing is reordered. */
  predicate Selected(cols: seq<string>, xs: seq<seq<Value>>, out: seq<seq<Value>>) {
    var ix := Kept(Keep, xs);
    && |out| == |ix|
    && forall k, j :: 0 <= k < |ix| && 0 <= j < |cols| ==>
         j < |xs[ix[k]]| && j < |out[k]| && out[k][j] == Coerced(cols[j], xs[ix[k]][j])
  }

  /** The frame's rows are the padded candidate rows whose first two cells
      are filled in, in their original order, with numeric columns coerced
      and every other cell untouched. */
  lemma BuildRows(cols: seq<string>, cands: seq<seq<Value>>)
    requires Build(cols, cands).Some? && TextWhenKept(cands)
    ensures Selected(cols, PadAll(cands, |cols|), Build(cols, cands).value.rows)
  {
    var f, w := Build(cols, cands).value, |cols|;
    var padded := PadAll(cands, w);
    var kept := Filter(Keep, padded);
    assert f.rows == Coerce(cols, kept);
    KeptRowsAreText(cands, w);
    CoerceCells(cols, kept);
    FilterIsKept(Keep, padded);
  }

  /** The candidate rows the carry-forward reference predicts, one per `tr`. */
  function ExpectedRows(rows: seq<Row>): (r: seq<seq<Value>>)
    ensures |r| == |rows|
    ensures forall i :: 0 <= i < |rows| ==> r[i] == Expected(Start, rows[..i + 1])
  {
    seq(|rows|, i requires 0 <= i < |rows| => Expected(Start, rows[..i + 1]))
  }

  /** The stripped `td` texts of every `tr`, filled up to width `w`. */
  function PaddedTexts(rows: seq<Row>, w: nat): (r: seq<seq<Value>>)
    ensures |r| == |rows|
    ensures forall i :: 0 <= i < |rows| ==> r[i] == Pad(DataTexts(rows[i]), w)
  {
    seq(|rows|, i requires 0 <= i < |rows| => Pad(DataTexts(rows[i]), w))
  }

  lemma PadAllIdentity(rows: seq<seq<Value>>, w: nat)
    requires forall i :: 0 <= i < |rows| ==> |rows[i]| == w
    ensures PadAll(rows, w) == rows
  {
  }

  /** Two-level layout end to end: the frame holds, in order, the carried
      (category, label, value) of every `tr` whose category and label are
      both non-empty at that point; numeric columns are coerced. */
  lemma TwoLevelExtract(t: HtmlTable)
    requires IsTwoLevel(t) && Extract(t).Some?
    ensures Extract(t).value.columns == [CategoryColumn] + ColumnNames(t)
    ensures Selected(Extract(t).value.columns, ExpectedRows(t.rows), Extract(t).value.rows)
  {
    var cols := Columns(t);
    var cands := TwoLevel(Start, t.rows).value;
    assert Extract(t) == Build(cols, cands);
    TwoLevelRowsText(t.rows, cands);
    TwoLevelCarriesForward(Start, t.rows);
    assert cands == ExpectedRows(t.rows);
    PadAllIdentity(cands, 3);
    BuildRows(cols, cands);
  }

  /** Flat layout end to end: the frame holds, in order, the stripped `td`
      texts of every `tr` whose first two cells are non-empty, filled up with
      empty strings to the width of the widest row; numeric columns are
      coerced. */
  lemma FlatExtract(t: HtmlTable)
    requires !IsTwoLevel(t) && Extract(t).Some?
    ensures Extract(t).value.columns == ColumnNames(t)
    ensures forall i :: 0 <= i < |t.rows| ==> |DataTexts(t.rows[i])| <= |ColumnNames(t)|
    ensures Selected(ColumnNames(t), PaddedTexts(t.rows, |ColumnNames(t)|), Extract(t).value.rows)
  {
    var cols := Columns(t);
    var cands := Flat(t.rows);
    assert Extract(t) == Build(cols, cands);
    assert PadAll(cands, |cols|) == PaddedTexts(t.rows, |cols|);
    assert TextWhenKept(cands);
    BuildRows(cols, cands);
  }
}
