# VitiBrasil statistics API — a Dafny model of its core

The system answers one HTTP endpoint, `/vitibrasil/`. It scrapes a statistics page of the
VitiBrasil viticulture site for a section (`aba`), a year (`ano`) and an optional
subsection (`sub_aba`), and turns the page's data table into a DataFrame. It returns the
DataFrame as a list of records. It keeps the first successful result of every request as
a snapshot file, and answers from that snapshot whenever scraping or extraction fails.

The model covers the three functions that make up this behaviour:

- `extract_table_from_html` (Scripts/clean.py), modules `Clean` and `Cells`:
  - column names from the `th` cells;
  - the two-level layout, as a fold with an `(item, subitem, value)` carry;
  - the flat layout;
  - padding, the filter on the first two columns and the column schema;
  - the numeric normaliser (`.` deleted, `-` turned into `0`, parse, missing when the
    parse fails);
  - `None` on every exception the code raises.
- `scrape_vitibrasil_data` (Scripts/scrape.py), module `Scrape`:
  - name normalisation (`capitalize().strip()`);
  - the section and subsection lists and their `opt_0N` / `subopt_0N` codes;
  - the URL;
  - the three refusals;
  - the classification of the site's answer.
- `get_vitibrasil_data` (app.py), module `App`:
  - the parameter choices;
  - the snapshot file name;
  - the write-if-absent step on success;
  - the fallback to the snapshot, or an HTTP 500, on any failure.

Supporting modules:

- `Outcomes` holds `Option` and `Result`.
- `Strings` covers Python's `strip`, `capitalize` (ASCII letters and U+00C0–U+00FE
  except ×, ÷ and ß), `in` on strings, `str(int)` and decimal parsing.
- `Seqs` holds filter and map, with the positions a filter keeps.
- `CleanScenario` works one two-level table through the whole extraction.

Inputs:

- The HTTP request is the parameter `fetch: string -> Response`. It gives the site's answer
  for a URL: a status code with the page reduced to its `table` elements, a connection
  failure, or any other exception.
- The random user agent is a string parameter.
- The `data` directory is a `map` from file path to the stored DataFrame. Each call returns
  the directory as it leaves it.

Two behaviours of the code are easy to misread; the model follows the code in both:

- A dash inside a figure is replaced by `0` before parsing, so `"12-3"` becomes the number
  1203, not a missing value (`Cells.NumericValueOfInnerDash`).
- A diagnostic dictionary returned by the scraper is truthy, so the endpoint passes it to
  the extractor. The extractor raises on it and returns `None`. Using that `None` raises
  in turn, so the request ends in the fallback (`App.Fresh`, `App.SiteDown`).

## Model

| member | source | states |
|---|---|---|
| Clean.Columns | Scripts/clean.py:19-27 | In the two-level layout, which is chosen exactly when two header texts are non-empty, the schema is `Categoria` followed by those two names; otherwise it is the header names themselves. No column name is empty. |
| Clean.ColumnNamesAreHeaders | Scripts/clean.py:20-21 | The column names are exactly the stripped `th` texts that are non-empty, in document order: each comes from one header position, none is dropped and none is reordered. |
| Clean.Step | Scripts/clean.py:30-38 | One row's update of the carry. An item cell replaces only the category. Two or more subitem cells replace the label and the value with the first two, and further ones are ignored. No subitem cell leaves label and value alone. Exactly one subitem cell is a failure. |
| Clean.TwoLevelFails | Scripts/clean.py:28-41 | The two-level loop fails exactly when some row has a single subitem cell, whatever the carry. |
| Clean.TwoLevelCarriesForward | Scripts/clean.py:16-41 | Candidate row `i` holds the text of the latest item cell in rows 0 to `i`, and the first two subitem texts of the latest such row with at least two. Where no such row exists, it holds the starting carry. This is checked against an independent "latest row" definition. |
| Clean.TwoLevelLabelledText | Scripts/clean.py:16-41 | Starting from a text or unlabelled carry, every two-level candidate row has three cells. The value is text unless the label is still the empty starting one. |
| Clean.CandidatesFail | Scripts/clean.py:25-47 | Building the candidate rows fails only in the two-level layout, and there exactly when some row has a single subitem cell. |
| Clean.Width | Scripts/clean.py:50 | A DataFrame built from ragged rows has as many columns as its longest row; with no rows it has none. |
| Clean.Pad | Scripts/clean.py:50-54 | A short row keeps its cells and is filled with empty strings up to the frame's width. |
| Clean.Build | Scripts/clean.py:50-70 | The shared steps fail exactly when the widest candidate row has fewer than two cells or differs in width from the schema. On success the frame has the schema as its columns. If kept candidate rows are text only, every frame row has one cell per column, its first two cells are non-empty, numeric columns hold numbers or missing values, and all other cells are text. |
| Clean.KeptRowsAreText | Scripts/clean.py:54-66 | Every row that survives the filter has the full width and holds text only. So every numeric column passes pandas' string-dtype test and is always coerced. |
| Clean.CandidateRowsText | Scripts/clean.py:16-47 | In both layouts a candidate row that would pass the filter holds text only. The carried integer 0 only sits beside the empty starting label, which the filter drops. |
| Clean.CoerceCells | Scripts/clean.py:61-69 | Each cell of the coerced frame depends only on its own text and its column's name. It is normalised when the name contains `Quantidade` or `Valor`, and left untouched otherwise. |
| Clean.BuildRows | Scripts/clean.py:54-69 | The frame's rows are the padded candidate rows whose first two cells are non-empty, in their original order, each cell coerced for its column. No other row is dropped and no row is reordered. |
| Clean.Extract | Scripts/clean.py:18-75 | The extraction gives `None` exactly when: the two-level loop raises; or the widest candidate row has fewer than two cells; or its width differs from the schema. Otherwise the frame's columns are the schema, which has at least three names. Every row is well formed for them. |
| Clean.TwoLevelExtract | Scripts/clean.py:25-71 | End to end for the two-level layout: the columns are `Categoria` and the two headers. The rows are the carried (category, label, value) triples of every `tr` whose category and label are non-empty at that point, in order, with numeric columns coerced. |
| Clean.FlatExtract | Scripts/clean.py:43-71 | End to end for the flat layout: the columns are the header names, and no row has more `td` cells than there are columns. The frame's rows are the stripped `td` texts of every `tr` whose first two cells are non-empty, in order, padded with empty strings, with numeric columns coerced. |
| Cells.NumericValue | Scripts/clean.py:66-69 | Normalising a cell gives a natural number exactly when the text holds only digits, `.` and `-`, and at least one character that is not `.`. Anything else becomes the missing value and is never an error. |
| Cells.DigitsOfThousands | Scripts/clean.py:67 | Deleting the thousands separators from a number printed with them leaves its non-empty decimal digits. |
| Cells.NumericValueOfThousands | Scripts/clean.py:67-69 | Round trip: normalising any natural number printed with `.` between groups of three digits gives back that number. The model's integers are unbounded; the source is exact only below 2^64 (see Left out). |
| Cells.NumericValueOfSeparated | Scripts/clean.py:67-69 | `"1.234"` normalises to 1234. |
| Cells.NumericValueOfDash | Scripts/clean.py:68-69 | The no-data dash `"-"` normalises to 0. |
| Cells.NumericValueOfInnerDash | Scripts/clean.py:68-69 | A dash inside a figure also becomes a zero digit: `"12-3"` normalises to 1203. |
| Cells.NumericValueOfNonFigures | Scripts/clean.py:69 | An empty cell and a word both normalise to the missing value. |
| Strings.Strip | Scripts/clean.py:21 | `strip()` leaves no white space at either end and never lengthens a string. |
| Strings.StripSlice | Scripts/clean.py:21 | `strip()` keeps one contiguous slice of its input and removes only white space around it. It empties exactly the all-white-space strings. |
| Strings.StripIdempotent | Scripts/clean.py:21 | Stripping twice is stripping once. |
| Strings.Contains | Scripts/clean.py:61 | `sub in s` holds exactly when `sub` occurs at some position of `s`. |
| Strings.ParseNatRoundTrip | Scripts/clean.py:69 | Parsing the decimal print of a natural number gives it back. |
| Strings.DigitsValueAppend | Scripts/clean.py:67-69 | Digits written after others shift the others' value by a power of ten, which is why deleting separators between digit groups yields the whole number. |
| Strings.IntToStringInjective | app.py:43 | Different years print differently. |
| Seqs.FilterIsKept | Scripts/clean.py:54-56 | Filtering keeps, in order, exactly the elements at the positions that pass, each position once. |
| Scrape.IndexOf | Scripts/scrape.py:38 | Python's `list.index`: the first position holding the name, or a failure exactly when the name is absent. |
| Scrape.NormalizeTwice | Scripts/scrape.py:28-29 | For a name that does not start with white space, a second `capitalize().strip()` changes nothing. So the endpoint's normalisation and the scraper's agree on such names. |
| Scrape.SectionNormal | Scripts/scrape.py:28-31 | Every section name on the menu is already in normal form. |
| Scrape.LocateSubsection | Scripts/scrape.py:49-67 | For a section with a subsection menu, the lookup succeeds exactly when the normalised subsection is on that section's own list. The code is the subsection's first position on that list plus one. A missing subsection and an unlisted one are refused with that list. |
| Scrape.Locate | Scripts/scrape.py:28-67 | The lookup refuses a section whose normalised name is not on the menu, with the menu. `Produção` and `Comercialização` get their code alone. The other three sections need their own subsection lookup to succeed. |
| Scrape.LocatePlainSection | Scripts/scrape.py:45-46 | `Produção` and `Comercialização` are accepted with only their section code, whatever subsection is given. |
| Scrape.LocateListed | Scripts/scrape.py:49-58 | Every subsection on a section's own list is accepted. It gets the code of the section's menu position and of the subsection's list position. |
| Scrape.LocateRefused | Scripts/scrape.py:59-67 | A section with a subsection menu refuses a missing subsection and an unlisted one, each time with that menu. |
| Scrape.SectionCodes | Scripts/scrape.py:31-46 | The five sections map to `opt_02` … `opt_06` in menu order, and each list's first subsection gets `subopt_01`. |
| Scrape.RaisinsImportedOnly | Scripts/scrape.py:34-35 | `Uvas passas` is the fourth import subsection (`subopt_04`) and is refused for exports, with the export list. |
| Scrape.ImportNeedsSubsection | Scripts/scrape.py:62-64 | `Importação` without a subsection is refused with the import list, and the scraper returns `None` without any request. |
| Scrape.SubsectionIgnored | Scripts/scrape.py:45-46 | For the two sections without a subsection menu, the subsection plays no part in the lookup. |
| Scrape.LocateInjective | Scripts/scrape.py:37-58 | Equal query codes mean the same normalised section and, where a subsection is needed, the same normalised subsection: different selections reach different pages. |
| Scrape.FindDataTable | Scripts/scrape.py:82 | The data table is the first table, in document order, whose class is `tb_base tb_dados`. There is none exactly when no table has that class. |
| Scrape.ScrapeData | Scripts/scrape.py:26-97 | A refused selection gives `None`. Otherwise the response to the selection's URL is classified: a non-200 status gives the `(aba, ano, status_code)` dictionary; a 200 page gives its data table, or the `(soup, url, headers)` dictionary when it has none; a connection failure or any other exception gives `None`. |
| Scrape.UrlParts | Scripts/scrape.py:46-58 | A page address gives back the year and the selection (`opcao`, and `subopcao` when present) it was built from, for one-digit section codes. |
| Scrape.UrlInjective | Scripts/scrape.py:46-58 | Accepted requests with different years or different selections fetch different page addresses. |
| Scrape.SingleRequest | Scripts/scrape.py:74 | The scraper depends on the site only through its answer for the selection's own URL. A refused selection does not depend on the site at all. |
| App.NormalSubsection | app.py:41 | The subsection handed on is absent exactly when the given one is falsy (absent or empty). Otherwise it is the given one after `capitalize().strip()`. |
| App.AdmissibleNormal | app.py:15-41 | Every value the endpoint's parameter choices admit is already in normal form, so the endpoint's normalisation hands the scraper exactly what the client sent. |
| App.Fresh | app.py:50-52 | A frame is obtained only when the scraper returns a data table, and then it is that table's extraction. A `None` or a diagnostic dictionary gives no frame. |
| App.Commit | app.py:49-73 | With a fresh frame, it is written only if the path is free, and its records are the reply. Without one, the stored snapshot's records are the reply, or a server error when there is none, and nothing is written. No existing entry is ever changed or removed. |
| App.Serve | app.py:14-73 | A value outside the parameter choices is refused and changes nothing. An admissible call never changes or removes a stored snapshot; the only entry it can add is its own snapshot path, holding the fresh frame. A fresh frame is written when its path is free, so after the call the path is always taken, and the fresh frame is the reply, as records. Without one, nothing is written and the reply is the stored snapshot's records, or a server error exactly when no snapshot exists. |
| App.RecordRoundTrip | app.py:57 | The record of a row with one value per column names every column in order and carries the row's values. |
| App.RecordsRoundTrip | app.py:57 | `to_dict(orient="records")` of a rectangular frame loses nothing: each record gives back the column names and that row. |
| App.ExtractedRecords | app.py:52-57 | Every record of an extracted frame names the schema's columns, in order, and carries its row. |
| App.SnapshotsPersist | app.py:54-55 | Over any series of calls, no snapshot is ever overwritten or removed. |
| App.SuccessThenOutage | app.py:49-69 | After a successful call has written its snapshot, a repeat while the site fails gives the very same reply and writes nothing. |
| App.WriteOnce | app.py:54-55 | A call whose snapshot path is taken leaves the directory as it was, even when the scrape succeeds. |
| App.SiteDown | app.py:59-73 | While the site answers only with errors or not at all, the endpoint writes nothing. It answers with the snapshot, or with a server error when there is none. |
| App.MissingSubsectionFallsBack | app.py:49-73 | A section with a subsection menu asked for without one never reaches the site. The endpoint answers from the snapshot, or with a server error. |
| App.SnapshotPathInjective | app.py:43-44 | For section names without `_` or `.`, the snapshot path determines the section, the year and the (truthy) subsection it was written for. |
| App.SharedSnapshot | app.py:40-44 | Two admissible requests share a snapshot file exactly when they ask for the same section, year and subsection. |
| CleanScenario.SampleExtract | Scripts/clean.py:25-70 | For non-empty header, category, label and value texts without surrounding white space, and a first header that does not name a numeric column, a two-level table with a header row, a category row and a label row extracts to one row: the category, the label, and the coerced value under the two headers. |
| CleanScenario.SampleScenario | Scripts/clean.py:25-70 | The table `Produto` / `Quantidade (L.)` with category `VINHO DE MESA` and label `Tinto` at `1.234` litres extracts to the single row (`VINHO DE MESA`, `Tinto`, 1234). |

## Left out

- The HTTP request (`requests.get`) and the random user agent (`fake_useragent`) are
  parameters of the model. Which exceptions the network raises is not modelled; they are
  the `ConnectionFailed` and `Failed` answers.
- BeautifulSoup parsing is not modelled:
  - A page is the list of its `table` elements, and a table is the list of its `tr` rows
    of `td`/`th` cells with class lists and text.
  - Nested tables are not modelled.
  - `get_text()` of a cell is its text.
  - A `class="tb_base tb_dados"` match is a class list equal to those two names.
- `print` diagnostics are not modelled. A refusal carries the list the message would
  print.
- FastAPI routing is not modelled. The `Literal` validation of the parameters is the
  `Admissible` predicate and the `Invalid` reply. `HTTPException` is the `ServerError`
  reply without its detail text.
- The parquet format, `os.makedirs("data")` and the file system are not modelled:
  - The `data` directory is a map from path to DataFrame.
  - A snapshot reads back as the DataFrame that was written.
  - Write errors other than writing `None` are not modelled.
- Cells.NumericValue: only digit strings are parsed. Forms `pd.to_numeric` also accepts
  after the two replacements are not (sign, decimal point, exponent, surrounding white
  space, `inf`/`nan`); they become the missing value. Neither are pandas' float
  promotion of a column that holds a missing value, nor dtypes in general.
- Cells.NumericValue: numbers are unbounded. `pd.to_numeric` gives an exact integer only
  within 64 bits (int64, or uint64 for larger non-negative values). A longer digit string
  becomes a float64, which is inexact above 2^53. So Cells.NumericValueOfThousands holds
  in the source only for numbers below 2^64.
- Duplicate column names are not modelled. pandas returns a DataFrame for `df[name]`
  there, and the string-dtype test and the numeric coercion behave differently.
- Strings.Capitalize maps case only for the ASCII letters and U+00C0–U+00FE except ×,
  ÷ and ß. Every other character is left alone, including `ß`, `µ` and `ÿ`. Python changes
  those: a leading `ß` becomes `Ss`, which also lengthens the string, and `ÿ` becomes `Ÿ`.
  Letters outside Latin-1 are left alone too.
- The JSON encoding of missing values in the reply is not modelled. A frame with a missing
  numeric cell holds NaN, which the framework's JSON rendering refuses. So that request
  most likely ends in an HTTP 500 even though the model replies `Records`, and its
  snapshot has already been written by then.
- The race between two concurrent requests that check for and write the same snapshot
  is not modelled: calls are sequential.
- Scrape.NormalizeTwice: the double normalisation (endpoint, then scraper) is not
  idempotent for names with leading white space. `"  x"` capitalises to `"  x"` and
  strips to `"x"`, which capitalises to `"X"`. Such names never pass the endpoint's
  parameter choices, so the lemma requires a name without leading white space.
