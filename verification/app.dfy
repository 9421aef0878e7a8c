/** `get_vitibrasil_data` (app.py): the API endpoint. It scrapes a page,
    extracts its table, keeps the first successful extraction of each
    request as a snapshot file, and falls back to that snapshot whenever
    the scraping or the extraction fails.

    The `data` directory is a map from file path to the DataFrame stored
    there, and a call returns the directory after the call along with the
    reply, so writes are explicit. The site is the `fetch` parameter of the
    scraper, and the random user agent is a parameter too. */
module App {

  import opened Outcomes
  import opened Strings
  import opened Seqs
  import opened Cells
  import Clean
  import Scrape

  /** The values the endpoint's `sub_aba` parameter admits. */
  const SubsectionChoices: seq<string> :=
    ["Viníferas", "Americanas e híbridas", "Uvas de mesa", "Sem classificação",
     "Vinhos de mesa", "Espumantes", "Uvas frescas", "Uvas passas", "Suco de uva"]

  const DataDirectory: string := "data"

  /** One `column: value` entry of a record. */
  datatype Field = Field(name: string, value: Value)

  /** A row of `to_dict(orient="records")`: its entries in column order. */
  type Record = seq<Field>

  /** The `data` directory: snapshot path to stored DataFrame. */
  type Store = map<string, Clean.Frame>

  /** What the endpoint answers: the records, an HTTP 500 error, or the
      request validation error (422) for a value outside the parameter's
      `Literal` choices. */
  datatype Reply = Records(records: seq<Record>) | ServerError | Invalid

  /** The parameter validation the endpoint's signature demands: a section
      from the menu and, if given, one of the nine subsection names. */
  predicate Admissible(aba: string, subAba: Option<string>) {
    aba in Scrape.Sections && (subAba.None? || subAba.value in SubsectionChoices)
  }

  /** Python truthiness of an optional string. */
  predicate Truthy(s: Option<string>) {
    s.Some? && s.value != ""
  }

  /** The file name of the snapshot of a request, from its normalised
      section and subsection: `vitibrasil_<aba>_<ano>[_<sub_aba>].parquet`. */
  function FileName(aba: string, ano: int, subAba: Option<string>): (name: string)
    ensures |name| > |"vitibrasil_.parquet"| + |aba|
  {
    "vitibrasil_" + aba + "_" + IntToString(ano) + Tail(subAba)
  }

  /** `os.path.join("data", filename)`. */
  function SnapshotPath(aba: string, ano: int, subAba: Option<string>): string {
    DataDirectory + "/" + FileName(aba, ano, subAba)
  }

  /** What follows the year in a snapshot file name. */
  function Tail(subAba: Option<string>): (t: string)
    ensures |t| > 0 && IsSeparator(t[0])
  {
    (if Truthy(subAba) then "_" + subAba.value else "") + ".parquet"
  }

  /** The entries of one row, zipped with the column names. */
  function RowRecord(columns: seq<string>, row: seq<Value>): (r: Record)
    ensures |r| == if |row| < |columns| then |row| else |columns|
    ensures forall j :: 0 <= j < |r| ==> r[j] == Field(columns[j], row[j])
  {
    if columns == [] || row == [] then []
    else [Field(columns[0], row[0])] + RowRecord(columns[1..], row[1..])
  }

  /** `df.to_dict(orient="records")`. */
  function ToRecords(f: Clean.Frame): (r: seq<Record>)
    ensures |r| == |f.rows|
    ensures forall i :: 0 <= i < |r| ==> r[i] == RowRecord(f.columns, f.rows[i])
  {
    seq(|f.rows|, i requires 0 <= i < |f.rows| => RowRecord(f.columns, f.rows[i]))
  }

  /** The column names a record mentions, in order. */
  function Names(r: Record): seq<string> {
    Map((f: Field) => f.name, r)
  }

  /** The values a record carries, in order. */
  function Values(r: Record): seq<Value> {
    Map((f: Field) => f.value, r)
  }

  /** The scraping half of the endpoint: the DataFrame of the scraped table,
      or `None` when the scraper gives `None`, or one of its diagnostic
      dictionaries (the extraction raises on a dictionary and gives `None`),
      or when the extraction fails. */
  function Fresh(aba: string, ano: int, subAba: Option<string>, userAgent: string,
                 fetch: string -> Scrape.Response): (r: Option<Clean.Frame>)
    ensures r.Some? ==> Scrape.ScrapeData(aba, ano, subAba, userAgent, fetch).DataTable?
    ensures Scrape.ScrapeData(aba, ano, subAba, userAgent, fetch).DataTable? ==>
      r == Clean.Extract(Scrape.ScrapeData(aba, ano, subAba, userAgent, fetch).table)
  {
    match Scrape.ScrapeData(aba, ano, subAba, userAgent, fetch)
    case DataTable(t) => Clean.Extract(t)
    case _ => None
  }

  /** The subsection the endpoint hands on: normalised when truthy, `None`
      otherwise. */
  function NormalSubsection(subAba: Option<string>): (r: Option<string>)
    ensures r.None? <==> !Truthy(subAba)
    ensures r.Some? ==> r.value == Scrape.Normalize(subAba.value)
  {
    if Truthy(subAba) then Some(Scrape.Normalize(subAba.value)) else None
  }

  /** The snapshot path a request is stored under, from its raw
      parameters. */
  function RequestPath(aba: string, ano: int, subAba: Option<string>): string {
    SnapshotPath(Scrape.Normalize(aba), ano, NormalSubsection(subAba))
  }

  /** The file handling of the endpoint, given the snapshot path and the
      fresh DataFrame, if any: a fresh DataFrame is written only where
      nothing is stored yet and is the reply; without one the stored
      snapshot is the reply, or an error when there is none. The directory
      never loses or changes an entry. */
  function Commit(store: Store, path: string, extracted: Option<Clean.Frame>): (out: (Store, Reply))
    ensures forall p :: p in store ==> p in out.0 && out.0[p] == store[p]
    ensures forall p :: p in out.0 && p !in store ==> p == path && extracted.Some? && out.0[p] == extracted.value
    ensures extracted.Some? ==> path in out.0 && out.1 == Records(ToRecords(extracted.value))
    ensures extracted.None? ==> out.0 == store
    ensures out.1 == ServerError <==> extracted.None? && path !in store
    ensures out.1.Records? && extracted.None? ==> out.1 == Records(ToRecords(store[path]))
    ensures out.1 != Invalid
  {
    match extracted
    case Some(f) =>
      var written := if path in store then store else store[path := f];
      (written, Records(ToRecords(f)))
    case None =>
      if path in store then (store, Records(ToRecords(store[path])))
      else (store, ServerError)
  }

  /** `get_vitibrasil_data`: validation, normalisation, the scrape and the
      extraction, then the file handling. */
  function Serve(store: Store, aba: string, ano: int, subAba: Option<string>, userAgent: string,
                 fetch: string -> Scrape.Response): (out: (Store, Reply))
    ensures !Admissible(aba, subAba) ==> out == (store, Invalid)
    ensures Admissible(aba, subAba) ==> out.1 != Invalid
    ensures forall p :: p in store ==> p in out.0 && out.0[p] == store[p]
    ensures forall p :: p in out.0 && p !in store ==>
      && Admissible(aba, subAba) && p == RequestPath(aba, ano, subAba)
      && Fresh(Scrape.Normalize(aba), ano, NormalSubsection(subAba), userAgent, fetch)
         == Some(out.0[p])
    ensures Admissible(aba, subAba) ==>
      (out.1 == ServerError <==>
         && Fresh(Scrape.Normalize(aba), ano, NormalSubsection(subAba), userAgent, fetch).None?
         && RequestPath(aba, ano, subAba) !in store)
    ensures Admissible(aba, subAba) && Fresh(Scrape.Normalize(aba), ano, NormalSubsection(subAba), userAgent, fetch).Some? ==>
      RequestPath(aba, ano, subAba) in out.0
    ensures Admissible(aba, subAba) && Fresh(Scrape.Normalize(aba), ano, NormalSubsection(subAba), userAgent, fetch).Some? ==>
      out.1 == Records(ToRecords(Fresh(Scrape.Normalize(aba), ano, NormalSubsection(subAba), userAgent, fetch).value))
    ensures Fresh(Scrape.Normalize(aba), ano, NormalSubsection(subAba), userAgent, fetch).None? ==>
      && out.0 == store
      && (out.1.Records? ==> out.1 == Records(ToRecords(store[RequestPath(aba, ano, subAba)])))
  {
    if !Admissible(aba, subAba) then (store, Invalid)
    else
      Commit(store, RequestPath(aba, ano, subAba),
             Fresh(Scrape.Normalize(aba), ano, NormalSubsection(subAba), userAgent, fetch))
  }

  /** One call of the endpoint, with what the site answers during it. */
  datatype Request = Request(aba: string, ano: int, subAba: Option<string>, userAgent: string,
                             fetch: string -> Scrape.Response)

  /** A series of calls, each seeing the directory the previous left. */
  function ServeAll(store: Store, requests: seq<Request>): (out: (Store, seq<Reply>))
    ensures |out.1| == |requests|
    decreases |requests|
  {
    if requests == [] then (store, [])
    else
      var q := requests[0];
      var first := Serve(store, q.aba, q.ano, q.subAba, q.userAgent, q.fetch);
      var rest := ServeAll(first.0, requests[1..]);
      (rest.0, [first.1] + rest.1)
  }

  // ------------------------------------------------------------- properties

  /** The records of a DataFrame whose rows all have one value per column
      give back its column names and its rows. */
  lemma {:induction false} RecordRoundTrip(columns: seq<string>, row: seq<Value>)
    requires |row| == |columns|
    ensures Names(RowRecord(columns, row)) == columns
    ensures Values(RowRecord(columns, row)) == row
    decreases |row|
  {
    if row != [] {
      var r := RowRecord(columns, row);
      assert r == [Field(columns[0], row[0])] + RowRecord(columns[1..], row[1..]);
      assert r[1..] == RowRecord(columns[1..], row[1..]);
      RecordRoundTrip(columns[1..], row[1..]);
    }
  }

  lemma RecordsRoundTrip(f: Clean.Frame)
    requires forall i :: 0 <= i < |f.rows| ==> |f.rows[i]| == |f.columns|
    ensures forall i :: 0 <= i < |ToRecords(f)| ==>
      Names(ToRecords(f)[i]) == f.columns && Values(ToRecords(f)[i]) == f.rows[i]
  {
    forall i | 0 <= i < |f.rows|
      ensures Names(ToRecords(f)[i]) == f.columns && Values(ToRecords(f)[i]) == f.rows[i]
    {
      RecordRoundTrip(f.columns, f.rows[i]);
    }
  }

  /** Every record of an extracted DataFrame names every column, in order,
      and carries that row's values. */
  lemma ExtractedRecords(t: Clean.HtmlTable)
    requires Clean.Extract(t).Some?
    ensures forall i :: 0 <= i < |ToRecords(Clean.Extract(t).value)| ==>
      && Names(ToRecords(Clean.Extract(t).value)[i]) == Clean.Columns(t)
      && Values(ToRecords(Clean.Extract(t).value)[i]) == Clean.Extract(t).value.rows[i]
  {
    RecordsRoundTrip(Clean.Extract(t).value);
  }

  /** The directory only grows over a series of calls: no snapshot is ever
      overwritten or removed. */
  lemma {:induction false} SnapshotsPersist(store: Store, requests: seq<Request>)
    ensures forall p :: p in store ==> p in ServeAll(store, requests).0 && ServeAll(store, requests).0[p] == store[p]
    decreases |requests|
  {
    if requests != [] {
      var q := requests[0];
      var first := Serve(store, q.aba, q.ano, q.subAba, q.userAgent, q.fetch);
      SnapshotsPersist(first.0, requests[1..]);
    }
  }

  /** A request that succeeded while its snapshot path was free is answered
      with the very same records when it is repeated while the site is
      failing, and the repeat writes nothing. */
  lemma SuccessThenOutage(store: Store, aba: string, ano: int, subAba: Option<string>,
                          ua1: string, f1: string -> Scrape.Response,
                          ua2: string, f2: string -> Scrape.Response)
    requires Admissible(aba, subAba) && RequestPath(aba, ano, subAba) !in store
    requires Fresh(Scrape.Normalize(aba), ano, NormalSubsection(subAba), ua1, f1).Some?
    requires Fresh(Scrape.Normalize(aba), ano, NormalSubsection(subAba), ua2, f2).None?
    ensures var first := Serve(store, aba, ano, subAba, ua1, f1);
      && first.1.Records?
      && Serve(first.0, aba, ano, subAba, ua2, f2) == first
  {
    var path := RequestPath(aba, ano, subAba);
    var f := Fresh(Scrape.Normalize(aba), ano, NormalSubsection(subAba), ua1, f1).value;
    assert Serve(store, aba, ano, subAba, ua1, f1) == (store[path := f], Records(ToRecords(f)));
  }

  /** A snapshot, once written, is never replaced: a later successful
      scrape replies with its own records but leaves the file alone. */
  lemma WriteOnce(store: Store, aba: string, ano: int, subAba: Option<string>,
                  ua: string, fetch: string -> Scrape.Response)
    requires RequestPath(aba, ano, subAba) in store
    ensures Serve(store, aba, ano, subAba, ua, fetch).0 == store
  {
    if Admissible(aba, subAba) {
      var path := RequestPath(aba, ano, subAba);
      var f := Fresh(Scrape.Normalize(aba), ano, NormalSubsection(subAba), ua, fetch);
      assert Serve(store, aba, ano, subAba, ua, fetch) == Commit(store, path, f);
      assert Commit(store, path, f).0 == store;
    }
  }

  /** While every page the site serves is an error page or the site cannot
      be reached, the endpoint writes nothing and answers from the
      snapshot, or with a server error when there is none. */
  lemma SiteDown(store: Store, aba: string, ano: int, subAba: Option<string>,
                 ua: string, fetch: string -> Scrape.Response)
    requires Admissible(aba, subAba)
    requires forall u :: fetch(u).Response? ==> fetch(u).status != 200
    ensures Serve(store, aba, ano, subAba, ua, fetch).0 == store
    ensures Serve(store, aba, ano, subAba, ua, fetch).1 ==
      if RequestPath(aba, ano, subAba) in store then Records(ToRecords(store[RequestPath(aba, ano, subAba)]))
      else ServerError
  {
    var s := Scrape.ScrapeData(Scrape.Normalize(aba), ano, NormalSubsection(subAba), ua, fetch);
    assert !s.DataTable?;
  }

  /** The values the endpoint admits are already in normal form, so the
      endpoint's own normalisation hands the scraper exactly what the client
      sent, and a given subsection is always truthy. */
  lemma AdmissibleNormal(aba: string, subAba: Option<string>)
    requires Admissible(aba, subAba)
    ensures Scrape.Normalize(aba) == aba
    ensures NormalSubsection(subAba) == subAba
  {
    var i :| 0 <= i < |Scrape.Sections| && Scrape.Sections[i] == aba;
    Scrape.SectionNormal(i);
    if subAba.Some? {
      var j :| 0 <= j < |SubsectionChoices| && SubsectionChoices[j] == subAba.value;
      ChoiceNormal(j);
    }
  }

  lemma ChoiceNormal(j: nat)
    requires j < |SubsectionChoices|
    ensures SubsectionChoices[j] != "" && Scrape.Normalize(SubsectionChoices[j]) == SubsectionChoices[j]
  {
    Scrape.NormalizeFixes(SubsectionChoices[j]);
  }

  /** No `_` and no `.`: the characters that delimit the parts of a
      snapshot file name. */
  predicate NoSeparator(s: string) {
    MarkFree(s, IsSeparator)
  }

  predicate IsSeparator(c: char) {
    c == '_' || c == '.'
  }

  lemma PrintedYearPlain(ano: int)
    ensures NoSeparator(IntToString(ano))
  {
  }

  lemma TailInjective(s1: Option<string>, s2: Option<string>)
    requires Tail(s1) == Tail(s2)
    ensures Truthy(s1) == Truthy(s2)
    ensures Truthy(s1) ==> s1.value == s2.value
  {
    if Truthy(s1) && Truthy(s2) {
      assert s1.value == Tail(s1)[1..|Tail(s1)| - 8];
      assert s2.value == Tail(s2)[1..|Tail(s2)| - 8];
    }
  }

  lemma FileNameParts(a: string, y: int, s: Option<string>)
    ensures FileName(a, y, s) == "vitibrasil_" + (a + ("_" + (IntToString(y) + Tail(s))))
  {
  }

  /** The section part of a snapshot file name ends at its first `_`. */
  lemma SectionPart(a1: string, y1: int, s1: Option<string>,
                    a2: string, y2: int, s2: Option<string>)
    requires NoSeparator(a1) && NoSeparator(a2)
    requires SnapshotPath(a1, y1, s1) == SnapshotPath(a2, y2, s2)
    ensures a1 == a2 && IntToString(y1) + Tail(s1) == IntToString(y2) + Tail(s2)
  {
    var r1, r2 := IntToString(y1) + Tail(s1), IntToString(y2) + Tail(s2);
    CancelPrefix(DataDirectory + "/", FileName(a1, y1, s1), FileName(a2, y2, s2));
    FileNameParts(a1, y1, s1);
    FileNameParts(a2, y2, s2);
    CancelPrefix("vitibrasil_", a1 + ("_" + r1), a2 + ("_" + r2));
    SplitAtMark(a1, "_" + r1, a2, "_" + r2, IsSeparator);
    CancelPrefix("_", r1, r2);
  }

  /** Snapshot file names of separator-free sections tell apart the section,
      the year and the subsection they were written for. */
  lemma SnapshotPathInjective(a1: string, y1: int, s1: Option<string>,
                              a2: string, y2: int, s2: Option<string>)
    requires NoSeparator(a1) && NoSeparator(a2)
    requires SnapshotPath(a1, y1, s1) == SnapshotPath(a2, y2, s2)
    ensures a1 == a2 && y1 == y2
    ensures Truthy(s1) == Truthy(s2) && (Truthy(s1) ==> s1.value == s2.value)
  {
    SectionPart(a1, y1, s1, a2, y2, s2);
    PrintedYearPlain(y1);
    PrintedYearPlain(y2);
    SplitAtMark(IntToString(y1), Tail(s1), IntToString(y2), Tail(s2), IsSeparator);
    IntToStringInjective(y1, y2);
    TailInjective(s1, s2);
  }

  lemma SectionPlain(i: nat)
    requires i < |Scrape.Sections|
    ensures NoSeparator(Scrape.Sections[i])
  {
  }

  /** Two admissible requests share a snapshot file exactly when they ask
      for the same section, year and subsection. */
  lemma SharedSnapshot(a1: string, y1: int, s1: Option<string>,
                       a2: string, y2: int, s2: Option<string>)
    requires Admissible(a1, s1) && Admissible(a2, s2)
    ensures RequestPath(a1, y1, s1) == RequestPath(a2, y2, s2) <==> a1 == a2 && y1 == y2 && s1 == s2
  {
    AdmissibleNormal(a1, s1);
    AdmissibleNormal(a2, s2);
    if RequestPath(a1, y1, s1) == RequestPath(a2, y2, s2) {
      var i1 :| 0 <= i1 < |Scrape.Sections| && Scrape.Sections[i1] == a1;
      var i2 :| 0 <= i2 < |Scrape.Sections| && Scrape.Sections[i2] == a2;
      SectionPlain(i1);
      SectionPlain(i2);
      SnapshotPathInjective(a1, y1, s1, a2, y2, s2);
    }
  }

  /** A section with a subsection menu asked for without a subsection is
      refused by the scraper before any request, so the endpoint answers
      from the snapshot, or with a server error, whatever the site would
      serve. */
  lemma MissingSubsectionFallsBack(store: Store, i: nat, ano: int, ua: string,
                                   fetch: string -> Scrape.Response)
    requires i < |Scrape.Sections| && !Scrape.WithoutSubsections(Scrape.OptionNumber(i))
    ensures Serve(store, Scrape.Sections[i], ano, None, ua, fetch).0 == store
    ensures Serve(store, Scrape.Sections[i], ano, None, ua, fetch).1 ==
      if RequestPath(Scrape.Sections[i], ano, None) in store
      then Records(ToRecords(store[RequestPath(Scrape.Sections[i], ano, None)]))
      else ServerError
  {
    Scrape.SectionNormal(i);
    Scrape.LocateRefused(i, None);
  }
}
