/** `scrape_vitibrasil_data` (Scripts/scrape.py): turns a section, an
    optional subsection and a year into the statistics page's query, and
    classifies what the site answered.

    The HTTP request itself is a parameter: `fetch` gives the response the
    site would send for a URL, so the model covers every possible answer
    without modelling the network. */
module Scrape {

  import opened Outcomes
  import opened Strings
  import Clean

  /** The five sections, in the site's menu order. */
  const Sections: seq<string> := ["Produção", "Processamento", "Comercialização", "Importação", "Exportação"]

  const ProcessingSubsections: seq<string> :=
    ["Viníferas", "Americanas e híbridas", "Uvas de mesa", "Sem classificação"]
  const ImportSubsections: seq<string> :=
    ["Vinhos de mesa", "Espumantes", "Uvas frescas", "Uvas passas", "Suco de uva"]
  const ExportSubsections: seq<string> :=
    ["Vinhos de mesa", "Espumantes", "Uvas frescas", "Suco de uva"]

  const SiteUrl: string := "http://vitibrasil.cnpuv.embrapa.br/index.php"

  /** `s.capitalize().strip()`, applied to section and subsection names
      before any lookup. */
  function Normalize(s: string): string {
    Strip(Capitalize(s))
  }

  /** Python's `list.index`: the first position of `x`, or `None` where
      Python raises `ValueError`. */
  function IndexOf(xs: seq<string>, x: string): (r: Option<nat>)
    ensures r.None? <==> x !in xs
    ensures r.Some? ==> r.value < |xs| && xs[r.value] == x
    ensures r.Some? ==> forall k :: 0 <= k < r.value ==> xs[k] != x
  {
    if xs == [] then None
    else if xs[0] == x then Some(0)
    else match IndexOf(xs[1..], x)
      case None => None
      case Some(i) => Some(i + 1)
  }

  /** The section's `opcao` number: its menu position plus two. */
  function OptionNumber(section: nat): nat {
    section + 2
  }

  /** The two sections whose page has no subsection menu. */
  predicate WithoutSubsections(opt: nat) {
    opt == 2 || opt == 4
  }

  /** The subsection list of a section that has one (`opcao` 3, 5 or 6). */
  function SubsectionsOf(opt: nat): seq<string> {
    if opt == 3 then ProcessingSubsections
    else if opt == 5 then ImportSubsections
    else ExportSubsections
  }

  /** The query codes of a page: `opcao` and, for three sections,
      `subopcao`. */
  datatype Selection = Selection(opcao: string, subopcao: Option<string>)

  /** Why a selection was refused; each carries the list the user should
      have chosen from. */
  datatype Rejection =
    | UnknownSection(options: seq<string>)
    | MissingSubsection(options: seq<string>)
    | UnknownSubsection(options: seq<string>)

  /** `opt_0` followed by the section's option number. */
  function SectionCode(section: nat): string {
    "opt_0" + NatToString(OptionNumber(section))
  }

  /** `subopt_0` followed by the subsection's position plus one. */
  function SubsectionCode(sub: nat): string {
    "subopt_0" + NatToString(sub + 1)
  }

  /** The subsection half of the lookup, for a section that has a
      subsection menu: a missing subsection and one outside the section's
      list are refused with that list. */
  function LocateSubsection(opt: nat, subAba: Option<string>): (r: Result<string, Rejection>)
    ensures r.Ok? <==> subAba.Some? && Normalize(subAba.value) in SubsectionsOf(opt)
    ensures r.Ok? ==> r.value == SubsectionCode(IndexOf(SubsectionsOf(opt), Normalize(subAba.value)).value)
    ensures r.Err? ==> r.error == (if subAba.None? then MissingSubsection(SubsectionsOf(opt))
                                   else UnknownSubsection(SubsectionsOf(opt)))
  {
    var subs := SubsectionsOf(opt);
    match subAba
    case None => Err(MissingSubsection(subs))
    case Some(x) =>
      match IndexOf(subs, Normalize(x))
      case Some(j) => Ok(SubsectionCode(j))
      case None => Err(UnknownSubsection(subs))
  }

  /** The validation and code lookup of `scrape_vitibrasil_data`, done
      before any request is built: an unknown section is refused with the
      section list, and the two sections without a subsection menu ignore
      the subsection. */
  function Locate(aba: string, subAba: Option<string>): (r: Result<Selection, Rejection>)
    ensures Normalize(aba) !in Sections <==> r == Err(UnknownSection(Sections))
    ensures Normalize(aba) in Sections ==>
      var i := IndexOf(Sections, Normalize(aba)).value;
      if WithoutSubsections(OptionNumber(i)) then r == Ok(Selection(SectionCode(i), None))
      else match LocateSubsection(OptionNumber(i), subAba)
        case Ok(code) => r == Ok(Selection(SectionCode(i), Some(code)))
        case Err(e) => r == Err(e)
  {
    match IndexOf(Sections, Normalize(aba))
    case None => Err(UnknownSection(Sections))
    case Some(i) =>
      if WithoutSubsections(OptionNumber(i)) then Ok(Selection(SectionCode(i), None))
      else
        match LocateSubsection(OptionNumber(i), subAba)
        case Ok(code) => Ok(Selection(SectionCode(i), Some(code)))
        case Err(e) => Err(e)
  }

  /** The page address for a year and a selection. */
  function Url(ano: int, sel: Selection): string {
    YearParameter + (IntToString(ano) + Query(sel))
  }

  /** The page address up to the year. */
  const YearParameter: string := SiteUrl + "?ano="

  /** The query parameters after the year: `opcao` and, when the selection
      has one, `subopcao`. */
  function Query(sel: Selection): (q: string)
    ensures |q| > 0 && IsAmpersand(q[0])
  {
    "&opcao=" + sel.opcao + (if sel.subopcao.Some? then "&subopcao=" + sel.subopcao.value else "")
  }

  /** The character that separates the parameters of a query. */
  predicate IsAmpersand(c: char) {
    c == '&'
  }

  /** A `table` element of the page: its class list and its content. */
  datatype PageTable = PageTable(classes: seq<string>, table: Clean.HtmlTable)

  /** A parsed page, reduced to its `table` elements in document order. */
  datatype Page = Page(tables: seq<PageTable>)

  /** What the HTTP request produced: a response with its status code and
      parsed body, a connection failure, or any other exception. */
  datatype Response = Response(status: int, body: Page) | ConnectionFailed | Failed

  /** What `scrape_vitibrasil_data` returns: `None`, the data table, or one
      of the two diagnostic dictionaries. */
  datatype Scraped =
    | NoResult
    | DataTable(table: Clean.HtmlTable)
    | Unavailable(aba: string, ano: int, statusCode: int)
    | NoDataTable(page: Page, url: string, headers: map<string, string>)

  /** The marker the data table carries: class `tb_base tb_dados`. */
  predicate IsDataTable(pt: PageTable) {
    pt.classes == ["tb_base", "tb_dados"]
  }

  /** `soup.find('table', {'class': 'tb_base tb_dados'})`: the first marked
      table in document order. */
  function FindDataTable(tables: seq<PageTable>): (r: Option<Clean.HtmlTable>)
    ensures r.None? <==> forall k :: 0 <= k < |tables| ==> !IsDataTable(tables[k])
    ensures r.Some? ==> exists k :: (0 <= k < |tables| && IsDataTable(tables[k]) && tables[k].table == r.value
      && forall l :: 0 <= l < k ==> !IsDataTable(tables[l]))
  {
    if tables == [] then None
    else if IsDataTable(tables[0]) then Some(tables[0].table)
    else
      var r := FindDataTable(tables[1..]);
      assert forall k :: 1 <= k < |tables| ==> tables[k] == tables[1..][k - 1];
      if r.Some? then
        var k :| 0 <= k < |tables[1..]| && IsDataTable(tables[1..][k]) && tables[1..][k].table == r.value
          && forall l :: 0 <= l < k ==> !IsDataTable(tables[1..][l]);
        assert IsDataTable(tables[k + 1]) && tables[k + 1].table == r.value;
        r
      else r
  }

  /** `scrape_vitibrasil_data`: a refused selection gives `None` whatever
      the site would answer; otherwise the response is classified. */
  function ScrapeData(aba: string, ano: int, subAba: Option<string>, userAgent: string,
                      fetch: string -> Response): (r: Scraped)
    ensures Locate(aba, subAba).Err? ==> r == NoResult
    ensures Locate(aba, subAba).Ok? ==>
      var url := Url(ano, Locate(aba, subAba).value);
      match fetch(url)
      case ConnectionFailed => r == NoResult
      case Failed => r == NoResult
      case Response(status, body) =>
        if status != 200 then r == Unavailable(Normalize(aba), ano, status)
        else if FindDataTable(body.tables).Some? then r == DataTable(FindDataTable(body.tables).value)
        else r == NoDataTable(body, url, map["User-Agent" := userAgent])
  {
    match Locate(aba, subAba)
    case Err(_) => NoResult
    case Ok(sel) =>
      var url := Url(ano, sel);
      match fetch(url)
      case ConnectionFailed => NoResult
      case Failed => NoResult
      case Response(status, body) =>
        if status != 200 then Unavailable(Normalize(aba), ano, status)
        else match FindDataTable(body.tables)
          case Some(t) => DataTable(t)
          case None => NoDataTable(body, url, map["User-Agent" := userAgent])
  }

  // ------------------------------------------------------------- properties

  lemma UpperIdempotent(c: char)
    ensures Upper(Upper(c)) == Upper(c)
  {
  }

  lemma LowerIdempotent(c: char)
    ensures Lower(Lower(c)) == Lower(c)
  {
  }

  /** A name that starts with a capital, continues in lower case and has no
      surrounding white space is left alone by the normalisation. */
  lemma NormalizeFixes(s: string)
    requires s != [] && Upper(s[0]) == s[0] && !IsSpace(s[0]) && !IsSpace(s[|s| - 1])
    requires forall k :: 0 < k < |s| ==> Lower(s[k]) == s[k]
    ensures Normalize(s) == s
  {
    assert Capitalize(s) == s;
    assert LeadingSpace(s) == 0;
    assert TrailingSpace(s) == 0;
  }

  /** Normalising a name that does not start with white space a second time
      changes nothing, so the application's own normalisation before the
      call and the scraper's after it agree on such names. */
  lemma NormalizeTwice(s: string)
    requires s == [] || !IsSpace(s[0])
    ensures Normalize(Normalize(s)) == Normalize(s)
  {
    if s != [] {
      var r := Normalize(s);
      StripKeepsPrefix(Capitalize(s));
      if r != [] {
        CapitalizedPrefix(s, r);
        NormalizeFixes(r);
      }
    }
  }

  /** A prefix of a capitalised string is itself in capitalised form. */
  lemma CapitalizedPrefix(s: string, r: string)
    requires 0 < |r| <= |s| && r == Capitalize(s)[..|r|]
    ensures Upper(r[0]) == r[0]
    ensures forall k :: 0 < k < |r| ==> Lower(r[k]) == r[k]
  {
    UpperIdempotent(s[0]);
    forall k | 0 < k < |r| ensures Lower(r[k]) == r[k] {
      LowerIdempotent(s[k]);
    }
  }

  /** No name appears twice in a list. */
  predicate Distinct(xs: seq<string>) {
    forall a, b :: 0 <= a < b < |xs| ==> xs[a] != xs[b]
  }

  lemma IndexOfDistinct(xs: seq<string>, i: nat)
    requires Distinct(xs) && i < |xs|
    ensures IndexOf(xs, xs[i]) == Some(i)
  {
  }

  lemma MenusDistinct()
    ensures Distinct(Sections) && Distinct(ProcessingSubsections)
    ensures Distinct(ImportSubsections) && Distinct(ExportSubsections)
  {
  }

  /** The menu names are already in normal form. */
  lemma SectionNormal(i: nat)
    requires i < |Sections|
    ensures Normalize(Sections[i]) == Sections[i]
  {
    NormalizeFixes(Sections[i]);
  }

  lemma SubsectionNormal(opt: nat, j: nat)
    requires j < |SubsectionsOf(opt)|
    ensures Normalize(SubsectionsOf(opt)[j]) == SubsectionsOf(opt)[j]
  {
    NormalizeFixes(SubsectionsOf(opt)[j]);
  }

  /** Every section of the menu is accepted; `Produção` and
      `Comercialização` get their code alone, whatever subsection is
      given. */
  lemma LocatePlainSection(i: nat, subAba: Option<string>)
    requires i < |Sections| && WithoutSubsections(OptionNumber(i))
    ensures Locate(Sections[i], subAba) == Ok(Selection(SectionCode(i), None))
  {
    MenusDistinct();
    SectionNormal(i);
    IndexOfDistinct(Sections, i);
  }

  /** Every subsection a section's menu offers is accepted, with the code of
      the section's position and of the subsection's position. */
  lemma LocateListed(i: nat, j: nat)
    requires i < |Sections| && !WithoutSubsections(OptionNumber(i))
    requires j < |SubsectionsOf(OptionNumber(i))|
    ensures Locate(Sections[i], Some(SubsectionsOf(OptionNumber(i))[j]))
         == Ok(Selection(SectionCode(i), Some(SubsectionCode(j))))
  {
    MenusDistinct();
    SectionNormal(i);
    SubsectionNormal(OptionNumber(i), j);
    IndexOfDistinct(Sections, i);
    IndexOfDistinct(SubsectionsOf(OptionNumber(i)), j);
  }

  /** A section with a subsection menu refuses a missing subsection and one
      its menu does not list, each time with that menu. */
  lemma LocateRefused(i: nat, subAba: Option<string>)
    requires i < |Sections| && !WithoutSubsections(OptionNumber(i))
    requires subAba.None? || Normalize(subAba.value) !in SubsectionsOf(OptionNumber(i))
    ensures Locate(Sections[i], subAba)
         == Err(if subAba.None? then MissingSubsection(SubsectionsOf(OptionNumber(i)))
                else UnknownSubsection(SubsectionsOf(OptionNumber(i))))
  {
    MenusDistinct();
    SectionNormal(i);
    IndexOfDistinct(Sections, i);
  }

  lemma CodeDigits()
    ensures SectionCode(0) == "opt_02" && SectionCode(1) == "opt_03" && SectionCode(2) == "opt_04"
    ensures SectionCode(3) == "opt_05" && SectionCode(4) == "opt_06"
    ensures SubsectionCode(0) == "subopt_01" && SubsectionCode(3) == "subopt_04"
  {
  }

  lemma ProductionCode(sub: Option<string>)
    ensures Locate("Produção", sub) == Ok(Selection("opt_02", None))
  {
    CodeDigits();
    LocatePlainSection(0, sub);
  }

  lemma ProcessingCode()
    ensures Locate("Processamento", Some("Viníferas")) == Ok(Selection("opt_03", Some("subopt_01")))
  {
    CodeDigits();
    LocateListed(1, 0);
  }

  lemma CommercialisationCode(sub: Option<string>)
    ensures Locate("Comercialização", sub) == Ok(Selection("opt_04", None))
  {
    CodeDigits();
    LocatePlainSection(2, sub);
  }

  lemma ImportCode()
    ensures Locate("Importação", Some("Vinhos de mesa")) == Ok(Selection("opt_05", Some("subopt_01")))
  {
    CodeDigits();
    LocateListed(3, 0);
  }

  lemma ExportCode()
    ensures Locate("Exportação", Some("Vinhos de mesa")) == Ok(Selection("opt_06", Some("subopt_01")))
  {
    CodeDigits();
    LocateListed(4, 0);
  }

  /** The five sections map to `opt_02` to `opt_06` in menu order, and the
      two without a subsection menu ignore whatever subsection is given. */
  lemma SectionCodes(sub: Option<string>)
    ensures Locate("Produção", sub) == Ok(Selection("opt_02", None))
    ensures Locate("Processamento", Some("Viníferas")) == Ok(Selection("opt_03", Some("subopt_01")))
    ensures Locate("Comercialização", sub) == Ok(Selection("opt_04", None))
    ensures Locate("Importação", Some("Vinhos de mesa")) == Ok(Selection("opt_05", Some("subopt_01")))
    ensures Locate("Exportação", Some("Vinhos de mesa")) == Ok(Selection("opt_06", Some("subopt_01")))
  {
    ProductionCode(sub);
    ProcessingCode();
    CommercialisationCode(sub);
    ImportCode();
    ExportCode();
  }

  lemma RaisinsImported()
    ensures Locate("Importação", Some("Uvas passas")) == Ok(Selection("opt_05", Some("subopt_04")))
  {
    CodeDigits();
    LocateListed(3, 3);
  }

  lemma RaisinsNotExported()
    ensures Locate("Exportação", Some("Uvas passas")) == Err(UnknownSubsection(ExportSubsections))
  {
    SubsectionNormal(5, 3);
    LocateRefused(4, Some("Uvas passas"));
  }

  /** `Uvas passas` is a subsection of imports only: it is the fourth import
      subsection and is refused for exports, with the export list. */
  lemma RaisinsImportedOnly()
    ensures Locate("Importação", Some("Uvas passas")) == Ok(Selection("opt_05", Some("subopt_04")))
    ensures Locate("Exportação", Some("Uvas passas")) == Err(UnknownSubsection(ExportSubsections))
  {
    RaisinsImported();
    RaisinsNotExported();
  }

  /** A section with a subsection menu and no subsection given is refused
      with that section's list, and nothing is requested. */
  lemma ImportNeedsSubsection(ano: int, userAgent: string, fetch: string -> Response)
    ensures Locate("Importação", None) == Err(MissingSubsection(ImportSubsections))
    ensures ScrapeData("Importação", ano, None, userAgent, fetch) == NoResult
  {
    LocateRefused(3, None);
  }

  /** For `Produção` and `Comercialização` the subsection plays no part. */
  lemma SubsectionIgnored(aba: string, s1: Option<string>, s2: Option<string>)
    requires Normalize(aba) == "Produção" || Normalize(aba) == "Comercialização"
    ensures Locate(aba, s1) == Locate(aba, s2)
    ensures Locate(aba, s1).Ok? && Locate(aba, s1).value.subopcao.None?
  {
  }

  lemma SingleDigitCode(a: nat, b: nat)
    requires a < 10 && b < 10 && NatToString(a) == NatToString(b)
    ensures a == b
  {
    assert DigitChar(a) == NatToString(a)[0];
  }

  lemma SectionCodeInjective(i1: nat, i2: nat)
    requires i1 < |Sections| && i2 < |Sections| && SectionCode(i1) == SectionCode(i2)
    ensures i1 == i2
  {
    assert NatToString(OptionNumber(i1)) == SectionCode(i1)[5..];
    assert NatToString(OptionNumber(i2)) == SectionCode(i2)[5..];
    SingleDigitCode(OptionNumber(i1), OptionNumber(i2));
  }

  lemma SubsectionCodeInjective(j1: nat, j2: nat)
    requires j1 < 9 && j2 < 9 && SubsectionCode(j1) == SubsectionCode(j2)
    ensures j1 == j2
  {
    assert NatToString(j1 + 1) == SubsectionCode(j1)[8..];
    assert NatToString(j2 + 1) == SubsectionCode(j2)[8..];
    SingleDigitCode(j1 + 1, j2 + 1);
  }

  lemma SubsectionsShort(opt: nat)
    ensures |SubsectionsOf(opt)| <= 5
  {
  }

  /** What an accepted selection is made of: the section's menu position
      and, for a section with a subsection menu, the subsection's. */
  lemma LocateParts(aba: string, subAba: Option<string>) returns (i: nat, j: nat)
    requires Locate(aba, subAba).Ok?
    ensures i < |Sections| && Sections[i] == Normalize(aba)
    ensures Locate(aba, subAba).value.opcao == SectionCode(i)
    ensures WithoutSubsections(OptionNumber(i)) <==> Locate(aba, subAba).value.subopcao.None?
    ensures !WithoutSubsections(OptionNumber(i)) ==>
      && subAba.Some? && j < |SubsectionsOf(OptionNumber(i))|
      && SubsectionsOf(OptionNumber(i))[j] == Normalize(subAba.value)
      && Locate(aba, subAba).value.subopcao == Some(SubsectionCode(j))
  {
    i := IndexOf(Sections, Normalize(aba)).value;
    j := 0;
    if !WithoutSubsections(OptionNumber(i)) {
      j := IndexOf(SubsectionsOf(OptionNumber(i)), Normalize(subAba.value)).value;
    }
  }

  /** Different accepted selections lead to different pages: equal query
      codes mean the same section and, where one is needed, the same
      subsection. */
  lemma LocateInjective(a1: string, s1: Option<string>, a2: string, s2: Option<string>)
    requires Locate(a1, s1).Ok? && Locate(a1, s1) == Locate(a2, s2)
    ensures Normalize(a1) == Normalize(a2)
    ensures Locate(a1, s1).value.subopcao.Some? ==> Normalize(s1.value) == Normalize(s2.value)
  {
    var i1, j1 := LocateParts(a1, s1);
    var i2, j2 := LocateParts(a2, s2);
    SectionCodeInjective(i1, i2);
    if !WithoutSubsections(OptionNumber(i1)) {
      SubsectionsShort(OptionNumber(i1));
      SubsectionCodeInjective(j1, j2);
    }
  }

  /** A printed year never contains `&`, so it ends where the query's
      next parameter begins. */
  lemma YearUnmarked(ano: int)
    ensures MarkFree(IntToString(ano), IsAmpersand)
  {
  }

  /** Every section code of an accepted selection has six characters:
      `opt_0` and one digit. */
  lemma SectionCodeLength(aba: string, subAba: Option<string>)
    requires Locate(aba, subAba).Ok?
    ensures |Locate(aba, subAba).value.opcao| == 6
  {
    var i, j := LocateParts(aba, subAba);
    assert |NatToString(OptionNumber(i))| == 1;
  }

  /** The query parameters give back the selection they were built from. */
  lemma QueryInjective(sel1: Selection, sel2: Selection)
    requires |sel1.opcao| == 6 && |sel2.opcao| == 6 && Query(sel1) == Query(sel2)
    ensures sel1 == sel2
  {
    var q1, q2 := Query(sel1), Query(sel2);
    assert sel1.opcao == q1[7..13];
    assert sel2.opcao == q2[7..13];
    var t1, t2 := q1[13..], q2[13..];
    assert t1 == (if sel1.subopcao.Some? then "&subopcao=" + sel1.subopcao.value else "");
    assert t2 == (if sel2.subopcao.Some? then "&subopcao=" + sel2.subopcao.value else "");
    if sel1.subopcao.Some? && sel2.subopcao.Some? {
      assert sel1.subopcao.value == t1[10..];
      assert sel2.subopcao.value == t2[10..];
    }
  }

  /** A URL gives back the year and the selection it was built from, for
      selections with a one-digit section code. */
  lemma UrlParts(y1: int, sel1: Selection, y2: int, sel2: Selection)
    requires |sel1.opcao| == 6 && |sel2.opcao| == 6 && Url(y1, sel1) == Url(y2, sel2)
    ensures y1 == y2 && sel1 == sel2
  {
    CancelPrefix(YearParameter, IntToString(y1) + Query(sel1), IntToString(y2) + Query(sel2));
    YearUnmarked(y1);
    YearUnmarked(y2);
    SplitAtMark(IntToString(y1), Query(sel1), IntToString(y2), Query(sel2), IsAmpersand);
    IntToStringInjective(y1, y2);
    QueryInjective(sel1, sel2);
  }

  /** Different accepted requests fetch different pages: the URL gives back
      the year and the selection. */
  lemma UrlInjective(y1: int, a1: string, s1: Option<string>, y2: int, a2: string, s2: Option<string>)
    requires Locate(a1, s1).Ok? && Locate(a2, s2).Ok?
    requires Url(y1, Locate(a1, s1).value) == Url(y2, Locate(a2, s2).value)
    ensures y1 == y2 && Locate(a1, s1) == Locate(a2, s2)
  {
    SectionCodeLength(a1, s1);
    SectionCodeLength(a2, s2);
    UrlParts(y1, Locate(a1, s1).value, y2, Locate(a2, s2).value);
  }

  /** One request at most, for the selection's own URL: two sites that answer
      that URL alike yield the same result, and a refused selection yields
      `None` whatever the site would answer. */
  lemma SingleRequest(aba: string, ano: int, subAba: Option<string>, userAgent: string,
                      f1: string -> Response, f2: string -> Response)
    requires Locate(aba, subAba).Err? || f1(Url(ano, Locate(aba, subAba).value)) == f2(Url(ano, Locate(aba, subAba).value))
    ensures ScrapeData(aba, ano, subAba, userAgent, f1) == ScrapeData(aba, ano, subAba, userAgent, f2)
  {
  }
}
