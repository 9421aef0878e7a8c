/** A worked example of `extract_table_from_html` on the two-level layout:
    a header row with two `th` cells, a category row (`tb_item`) and a
    label row (`tb_subitem`). The table is built from parameters, so the
    computation is proved once for every choice of texts, and then for
    one page's worth of concrete texts. */
module CleanScenario {
  import opened Outcomes
  import opened Strings
  import opened Seqs
  import opened Cells
  import opened Clean

  /** Non-empty and without surrounding white space. */
  predicate Unspaced(s: string) {
    s != [] && !IsSpace(s[0]) && !IsSpace(s[|s| - 1])
  }

  function SampleHeader(h1: string, h2: string): Row {
    [Cell(Th, [], h1), Cell(Th, [], h2)]
  }
  function SampleItem(item: string, total: string): Row {
    [Cell(Td, [ItemClass], item), Cell(Td, [ItemClass], total)]
  }
  function SampleSubitem(sub: string, qty: string): Row {
    [Cell(Td, [SubitemClass], sub), Cell(Td, [SubitemClass], qty)]
  }
  /** The sample table: headers, then a category row, then a label row. */
  function Sample(h1: string, h2: string, item: string, total: string, sub: string, qty: string): HtmlTable {
    HtmlTable([SampleHeader(h1, h2), SampleItem(item, total), SampleSubitem(sub, qty)])
  }

  lemma SampleCells(h1: string, h2: string, item: string, total: string, sub: string, qty: string)
    ensures AllCells(Sample(h1, h2, item, total, sub, qty).rows)
         == SampleHeader(h1, h2) + (SampleItem(item, total) + SampleSubitem(sub, qty))
  {
    var rows := Sample(h1, h2, item, total, sub, qty).rows;
    assert rows[1..][1..][1..] == [];
    assert AllCells(rows[1..][1..]) == SampleSubitem(sub, qty) + AllCells([]);
  }

  lemma SampleHeaders(h1: string, h2: string, item: string, total: string, sub: string, qty: string)
    requires Unspaced(h1) && Unspaced(h2)
    ensures HeaderTexts(Sample(h1, h2, item, total, sub, qty)) == [h1, h2]
  {
    SampleCells(h1, h2, item, total, sub, qty);
    var hd, rest := SampleHeader(h1, h2), SampleItem(item, total) + SampleSubitem(sub, qty);
    FilterAppend(IsHeaderCell, hd, rest);
    FilterUniform(IsHeaderCell, hd);
    FilterUniform(IsHeaderCell, rest);
    assert Filter(IsHeaderCell, hd + rest) == hd;
    StripUnspaced(h1);
    StripUnspaced(h2);
  }

  /** The two headers make the table two-level, with the category column
      first. */
  lemma SampleColumns(h1: string, h2: string, item: string, total: string, sub: string, qty: string)
    requires Unspaced(h1) && Unspaced(h2)
    ensures IsTwoLevel(Sample(h1, h2, item, total, sub, qty))
    ensures Columns(Sample(h1, h2, item, total, sub, qty)) == [CategoryColumn, h1, h2]
  {
    SampleHeaders(h1, h2, item, total, sub, qty);
    FilterUniform(NonEmpty, [h1, h2]);
  }

  /** The header row changes nothing in the carry; the category row sets
      the category; the label row sets label and value. */
  lemma HeaderStep(h1: string, h2: string)
    ensures Step(Start, SampleHeader(h1, h2)) == Some(Start)
  {
    FilterUniform(IsItemCell, SampleHeader(h1, h2));
    FilterUniform(IsSubitemCell, SampleHeader(h1, h2));
  }

  lemma ItemStep(item: string, total: string)
    requires Unspaced(item)
    ensures Step(Start, SampleItem(item, total)) == Some(Carry(item, "", Number(0)))
  {
    FilterUniform(IsItemCell, SampleItem(item, total));
    FilterUniform(IsSubitemCell, SampleItem(item, total));
    StripUnspaced(item);
  }

  lemma SubitemStep(item: string, sub: string, qty: string)
    requires Unspaced(sub) && Unspaced(qty)
    ensures Step(Carry(item, "", Number(0)), SampleSubitem(sub, qty)) == Some(Carry(item, sub, Text(qty)))
  {
    FilterUniform(IsItemCell, SampleSubitem(sub, qty));
    FilterUniform(IsSubitemCell, SampleSubitem(sub, qty));
    StripUnspaced(sub);
    StripUnspaced(qty);
  }

  /** `Categoria` is not a numeric column name. */
  lemma CategoryNotNumeric()
    ensures !IsNumericColumn(CategoryColumn)
  {
    assert !Contains(CategoryColumn, "Quantidade");
    LeadAbsent(CategoryColumn, "Valor");
  }

  /** The candidate row each `tr` of the sample produces. */
  function SampleCarries(item: string, sub: string, qty: string): seq<seq<Value>> {
    [Emit(Start), Emit(Carry(item, "", Number(0))), Emit(Carry(item, sub, Text(qty)))]
  }

  /** One more row in front of the two-level fold. */
  lemma TwoLevelCons(c: Carry, row: Row, rows: seq<Row>, c': Carry, rest: seq<seq<Value>>)
    requires Step(c, row) == Some(c') && TwoLevel(c', rows) == Some(rest)
    ensures TwoLevel(c, [row] + rows) == Some([Emit(c')] + rest)
  {
    assert ([row] + rows)[0] == row;
    assert ([row] + rows)[1..] == rows;
  }

  /** The fold emits the carry after each row, the initial integer 0
      included. */
  lemma SampleTwoLevel(h1: string, h2: string, item: string, total: string, sub: string, qty: string)
    requires Unspaced(item) && Unspaced(sub) && Unspaced(qty)
    ensures TwoLevel(Start, Sample(h1, h2, item, total, sub, qty).rows) == Some(SampleCarries(item, sub, qty))
  {
    HeaderStep(h1, h2);
    ItemStep(item, total);
    SubitemStep(item, sub, qty);
    ChainThree(SampleHeader(h1, h2), SampleItem(item, total), SampleSubitem(sub, qty),
               Start, Start, Carry(item, "", Number(0)), Carry(item, sub, Text(qty)));
  }

  lemma KeepThird(x: seq<Value>, y: seq<Value>, z: seq<Value>)
    requires |x| == 3 && |y| == 3 && |z| == 3 && !Keep(x) && !Keep(y) && Keep(z)
    ensures Width([x, y, z]) == 3
    ensures PadAll([x, y, z], 3) == [x, y, z]
    ensures Filter(Keep, [x, y, z]) == [z]
  {
    PadAllIdentity([x, y, z], 3);
    assert [x, y, z][1..] == [y, z];
    assert [y, z][1..] == [z];
    assert [z][1..] == [];
    assert Filter(Keep, [z]) == [z] + Filter(Keep, []);
    assert Filter(Keep, [y, z]) == [] + Filter(Keep, [z]);
  }

  /** Only the label row survives the filter: the header row and the
      category row have an empty first or second cell. */
  lemma SampleKept(item: string, sub: string, qty: string)
    requires item != "" && sub != ""
    ensures Width(SampleCarries(item, sub, qty)) == 3
    ensures Filter(Keep, PadAll(SampleCarries(item, sub, qty), 3)) == [Emit(Carry(item, sub, Text(qty)))]
    ensures TextWhenKept(SampleCarries(item, sub, qty))
  {
    KeepThird(Emit(Start), Emit(Carry(item, "", Number(0))), Emit(Carry(item, sub, Text(qty))));
  }

  lemma ChainOne(r3: Row, c2: Carry, c3: Carry)
    requires Step(c2, r3) == Some(c3)
    ensures TwoLevel(c2, [r3]) == Some([Emit(c3)])
  {
    assert TwoLevel(c3, []) == Some([]);
    assert [r3] + [] == [r3];
    TwoLevelCons(c2, r3, [], c3, []);
    assert [Emit(c3)] + [] == [Emit(c3)];
  }

  lemma ChainTwo(r2: Row, r3: Row, c1: Carry, c2: Carry, c3: Carry)
    requires Step(c1, r2) == Some(c2) && Step(c2, r3) == Some(c3)
    ensures TwoLevel(c1, [r2, r3]) == Some([Emit(c2), Emit(c3)])
  {
    ChainOne(r3, c2, c3);
    assert [r2] + [r3] == [r2, r3];
    TwoLevelCons(c1, r2, [r3], c2, [Emit(c3)]);
    assert [Emit(c2)] + [Emit(c3)] == [Emit(c2), Emit(c3)];
  }

  lemma ChainThree(r1: Row, r2: Row, r3: Row, c0: Carry, c1: Carry, c2: Carry, c3: Carry)
    requires Step(c0, r1) == Some(c1) && Step(c1, r2) == Some(c2) && Step(c2, r3) == Some(c3)
    ensures TwoLevel(c0, [r1, r2, r3]) == Some([Emit(c1), Emit(c2), Emit(c3)])
  {
    ChainTwo(r2, r3, c1, c2, c3);
    assert [r1] + [r2, r3] == [r1, r2, r3];
    TwoLevelCons(c0, r1, [r2, r3], c1, [Emit(c2), Emit(c3)]);
    assert [Emit(c1)] + [Emit(c2), Emit(c3)] == [Emit(c1), Emit(c2), Emit(c3)];
  }

  /** With the widths in agreement, the frame is the coercion of the kept
      rows. */
  lemma BuildKept(cols: seq<string>, cands: seq<seq<Value>>, kept: seq<seq<Value>>)
    requires |cols| >= 2 && Width(cands) == |cols| && Filter(Keep, PadAll(cands, |cols|)) == kept
    ensures Build(cols, cands) == Some(Frame(cols, Coerce(cols, kept)))
  {
  }

  lemma CoerceSingle(cols: seq<string>, a: string, b: string, c: string)
    requires |cols| == 3 && !IsNumericColumn(cols[0]) && !IsNumericColumn(cols[1])
    ensures Coerce(cols, [[Text(a), Text(b), Text(c)]]) == [[Text(a), Text(b), Coerced(cols[2], Text(c))]]
  {
    var kept := [[Text(a), Text(b), Text(c)]];
    CoerceCells(cols, kept);
    var out := Coerce(cols, kept);
    assert out[0] == [Text(a), Text(b), Coerced(cols[2], Text(c))];
  }

  lemma BuildSingle(cols: seq<string>, cands: seq<seq<Value>>, a: string, b: string, c: string)
    requires |cols| == 3 && !IsNumericColumn(cols[0]) && !IsNumericColumn(cols[1])
    requires Width(cands) == 3
    requires Filter(Keep, PadAll(cands, 3)) == [[Text(a), Text(b), Text(c)]]
    ensures Build(cols, cands) == Some(Frame(cols, [[Text(a), Text(b), Coerced(cols[2], Text(c))]]))
  {
    BuildKept(cols, cands, [[Text(a), Text(b), Text(c)]]);
    CoerceSingle(cols, a, b, c);
  }

  lemma BuildSample(cols: seq<string>, item: string, sub: string, qty: string)
    requires |cols| == 3 && !IsNumericColumn(cols[0]) && !IsNumericColumn(cols[1])
    requires item != "" && sub != ""
    ensures Build(cols, SampleCarries(item, sub, qty))
         == Some(Frame(cols, [[Text(item), Text(sub), Coerced(cols[2], Text(qty))]]))
  {
    SampleKept(item, sub, qty);
    BuildSingle(cols, SampleCarries(item, sub, qty), item, sub, qty);
  }

  /** The sample table gives one row: the category, the label, and the
      label's value, coerced when the second header names a numeric
      column. */
  lemma SampleExtract(h1: string, h2: string, item: string, total: string, sub: string, qty: string)
    requires Unspaced(h1) && Unspaced(h2) && !IsNumericColumn(h1)
    requires Unspaced(item) && Unspaced(sub) && Unspaced(qty)
    ensures Extract(Sample(h1, h2, item, total, sub, qty))
         == Some(Frame([CategoryColumn, h1, h2], [[Text(item), Text(sub), Coerced(h2, Text(qty))]]))
  {
    var t := Sample(h1, h2, item, total, sub, qty);
    SampleColumns(h1, h2, item, total, sub, qty);
    SampleTwoLevel(h1, h2, item, total, sub, qty);
    CategoryNotNumeric();
    BuildSample([CategoryColumn, h1, h2], item, sub, qty);
  }

  lemma ProdutoPlain(h1: string)
    requires h1 == "Produto"
    ensures Unspaced(h1) && !IsNumericColumn(h1)
  {
    LeadAbsent(h1, "Quantidade");
    LeadAbsent(h1, "Valor");
  }

  lemma QuantityColumn(h2: string)
    requires h2 == "Quantidade (L.)"
    ensures Unspaced(h2) && IsNumericColumn(h2)
  {
    assert SliceAt(h2, "Quantidade", 0);
  }

  /** A category `VINHO DE MESA` followed by a label `Tinto` of `1.234`
      litres yields one record, labelled with the category, whose quantity
      loses its thousands separator. */
  lemma SampleScenario(h1: string, h2: string, item: string, sub: string, qty: string)
    requires h1 == "Produto" && h2 == "Quantidade (L.)"
    requires item == "VINHO DE MESA" && sub == "Tinto" && qty == "1.234"
    ensures Extract(Sample(h1, h2, item, qty, sub, qty))
         == Some(Frame([CategoryColumn, h1, h2], [[Text(item), Text(sub), Number(1234)]]))
  {
    ProdutoPlain(h1);
    QuantityColumn(h2);
    assert Unspaced(item) && Unspaced(sub) && Unspaced(qty);
    SampleExtract(h1, h2, item, qty, sub, qty);
    NumericValueOfSeparated();
  }
}
