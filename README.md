# Köppen climate table extraction, modelled in Dafny

`scrapcliamte.py` downloads a page that lists major Indian cities grouped by
Köppen climate class, and `parse_climate` turns the page's table into records
with two fields, `City` and `Koppen Code`. This project models the extraction
rule of `parse_climate` and proves what it produces:

- the document is its `tr` rows in document order, and the first row is skipped
  as a header because of its position;
- for every other row, the text of cell 2 is read with `get_text(strip=True)`
  and becomes the Köppen code;
- the text of every link (`a`) in cell 3 is read with `.text.strip()` and becomes
  a city;
- one record is emitted per city, tagged with the row's code, in row order and
  then link order.

The project has three modules, one file each:

- `text.dfy`, module `Text`: Python's `str.strip()` (with `lstrip` and `rstrip`)
  and `"".join`. `IsSpace` lists the characters that Python's `str.isspace`
  accepts. Every lemma except `ScrapClimate.MumbaiAndThane` treats it as an
  arbitrary predicate on characters. That one lemma uses that the first and last
  letters of "Aw", "Mumbai" and "Thane" are not whitespace.
- `soup.dfy`, module `Soup`: the abstract document. A `Row` is its `td` cells. A
  `Cell` holds the text nodes under it and, for each link under it, that link's
  text nodes. This module also defines the two text rules.
  `JoinStripped` is `get_text(strip=True)`: strip each node, then join.
  `StripJoined` is `.text.strip()`: join the nodes, then strip once.
  The two rules are kept apart because they give different results.
- `climate.dfy`, module `ScrapClimate`: the records. `Extract` is the specification.
  It is a recursive function over the data rows. `ParseClimate` is the nested
  loop of the source, which appends to `data`. It is proved equal to `Extract`.

The text functions carry no postconditions. Their meaning is stated by the lemmas
in the same module. This keeps proofs about records from unfolding string facts
they do not need.

Reading cell 2 or cell 3 of a row with fewer than four `td` cells raises
`IndexError` (scrapcliamte.py:39-40). So `Extract` and `ParseClimate` take
`WellFormed(rows)` as a precondition: every row except the header has at least
four cells. The header row may have any shape. The model has no rule that skips
short rows, because the code has none.

Neither the city nor the code is checked for emptiness (scrapcliamte.py:39-47).
A link whose text is only whitespace gives a record with an empty city
(`BlankLinkGivesEmptyCity`). A code cell whose text is only whitespace gives an
empty code.

## Model

| member | source | states |
|---|---|---|
| `Text.StripLeading` | scrapcliamte.py:41 | no contract; the first half of `.strip()` (the source never calls `lstrip` itself); specified by `StripLeadingSpec` |
| `Text.StripTrailing` | scrapcliamte.py:41 | no contract; the second half of `.strip()` (the source never calls `rstrip` itself); specified by `StripTrailingSpec` |
| `Text.Strip` | scrapcliamte.py:41 | no contract; `str.strip()` with no argument; specified by `StripSplits` and `StripCharacterized` |
| `Text.Concat` | scrapcliamte.py:41 | no contract; `"".join` of the text nodes, as `.text` does; specified by `ConcatAppend` |
| `Text.StripLeadingSpec` | scrapcliamte.py:41 | the leading half of `.strip()` (what `lstrip` would do) keeps a suffix, removes only whitespace, and stops at the first character that is not whitespace |
| `Text.StripTrailingSpec` | scrapcliamte.py:41 | the trailing half of `.strip()` (what `rstrip` would do) keeps a prefix, removes only whitespace, and stops at the last character that is not whitespace |
| `Text.StripSplits` | scrapcliamte.py:41 | `s.strip()` is a slice `s[lo..hi]` with only whitespace outside it and no whitespace at either end of it |
| `Text.StripCharacterized` | scrapcliamte.py:41 | whenever `s` is whitespace, then a middle with no edge whitespace, then whitespace, `s.strip()` is that middle (uniqueness) |
| `Text.StripDropsAddedSpace` | scrapcliamte.py:41 | trailing whitespace added to a trimmed string is removed again by `strip` |
| `Text.StripIdempotent` | scrapcliamte.py:41 | stripping twice is the same as stripping once |
| `Text.ConcatAppend` | scrapcliamte.py:41 | joining text nodes distributes over concatenating node runs |
| `Soup.JoinStripped` | scrapcliamte.py:39 | no contract; `get_text(strip=True)`: strip each text node, join with nothing between; specified by `JoinStrippedTrimmed`, `JoinStrippedAppend` and `JoinStrippedPair` |
| `Soup.StripJoined` | scrapcliamte.py:41 | no contract; `.text.strip()`: join the text nodes, then strip once; specified by `StripJoinedTrimmed` and `StripJoinedKeepsSeam` |
| `Soup.JoinStrippedTrimmed` | scrapcliamte.py:39 | text read with `get_text(strip=True)` has no whitespace at either end |
| `Soup.StripJoinedTrimmed` | scrapcliamte.py:41 | text read with `.text.strip()` has no whitespace at either end, and stripping it again changes nothing |
| `Soup.JoinStrippedAppend` | scrapcliamte.py:39 | `get_text(strip=True)` works node by node: the text of two node runs is the first run's text followed by the second's |
| `Soup.JoinStrippedPair` | scrapcliamte.py:39 | for two text nodes, `get_text(strip=True)` strips each node separately and concatenates the results |
| `Soup.SingleNodeRulesAgree` | scrapcliamte.py:39-41 | on an element with a single text node, the two text rules give the same string |
| `Soup.JoinStrippedDropsSeam` | scrapcliamte.py:39 | whitespace between two text nodes is lost by `get_text(strip=True)` (`["New ", "Delhi"]` reads `NewDelhi`) |
| `Soup.StripJoinedKeepsSeam` | scrapcliamte.py:41 | whitespace between two non-empty text nodes is kept by `.text.strip()` (`["New ", "Delhi"]` reads `New Delhi`) |
| `ScrapClimate.DataRows` | scrapcliamte.py:38 | `rows[1:]`: one row fewer than the document (none for an empty document), with data row `i` being document row `i + 1` |
| `ScrapClimate.WellFormed` | scrapcliamte.py:39-40 | no contract; every row after the header has at least four `td` cells, which is exactly when the indexing `[2]` and `[3]` does not raise |
| `ScrapClimate.KoppenCode` | scrapcliamte.py:39 | no contract; the row's code is the `get_text(strip=True)` text of cell 2; `RecordsAreTrimmed` states it is trimmed and `RecordAt` states where it appears in the output |
| `ScrapClimate.Cities` | scrapcliamte.py:40-41 | one city per link of cell 3, in link order, each the link's text joined and then stripped |
| `ScrapClimate.RowRecords` | scrapcliamte.py:39-47 | a row contributes exactly one record per link of cell 3, each pairing that link's city with the row's cell-2 code |
| `ScrapClimate.ExtractRows` | scrapcliamte.py:38-47 | no contract; the records of a run of data rows, row by row; specified by `ExtractRowsAppend`, `ExtractRowsCount`, `RecordAt` and `RecordOrigin` |
| `ScrapClimate.Extract` | scrapcliamte.py:35-47 | no contract; the records of a document, those of `rows[1:]`; specified by `RecordCount`, `ExtractRecordAt`, `HeaderIgnored` and `ShortDocumentYieldsNothing`; the reference that `ParseClimate` is proved equal to |
| `ScrapClimate.ParseClimate` | scrapcliamte.py:35-47 | the loop that appends one record per city to `data` returns exactly `Extract(rows)` |
| `ScrapClimate.ExtractRowsAppend` | scrapcliamte.py:38-47 | the records of two runs of rows are the first run's records followed by the second's (order kept, no interaction between rows) |
| `ScrapClimate.ShortDocumentYieldsNothing` | scrapcliamte.py:35-38 | a document with zero or one rows yields no records |
| `ScrapClimate.HeaderIgnored` | scrapcliamte.py:35-38 | replacing the first row with any row leaves the output unchanged |
| `ScrapClimate.ExtractRowsCount` | scrapcliamte.py:38-47 | the number of records from a run of data rows equals the total number of links in their cities cells |
| `ScrapClimate.RecordCount` | scrapcliamte.py:35-47 | the number of records from a document equals the total number of city links over the rows after the header |
| `ScrapClimate.RecordAt` | scrapcliamte.py:38-47 | the record for link `j` of data row `i` comes after the records of all earlier rows. It holds that link's stripped text and row `i`'s code |
| `ScrapClimate.ExtractRecordAt` | scrapcliamte.py:35-47 | the same, for row `i >= 1` of the whole document |
| `ScrapClimate.RecordOrigin` | scrapcliamte.py:39-47 | every record's code is the code of some data row, and its city is one of that row's cities |
| `ScrapClimate.RecordsAreTrimmed` | scrapcliamte.py:39-47 | every output city and code has no whitespace at either end, and stripping a city again leaves it unchanged |
| `ScrapClimate.RowWithoutLinksAddsNothing` | scrapcliamte.py:41-43 | a data row with no links in cell 3 adds no records and leaves the other rows' records unchanged |
| `ScrapClimate.BlankLinkGivesEmptyCity` | scrapcliamte.py:41-47 | a link with only whitespace still yields a record, and its city is empty |
| `ScrapClimate.MumbaiAndThane` | scrapcliamte.py:35-47 | a header plus one row with code `Aw` and links `Mumbai` and `Thane` gives exactly the records (Mumbai, Aw) and (Thane, Aw) |

## Left out

- ScrapClimate.Extract: defined only for documents where `WellFormed` holds. On a row with fewer than four cells the code raises `IndexError` (scrapcliamte.py:39-40), and the model does not represent that exception.
- ScrapClimate.ParseClimate: requires `WellFormed`, for the same reason. The model does not say what happens after a short row.

- `fetch_decorator` (scrapcliamte.py:6-22) is not modelled. It is network I/O: an HTTP GET with a fixed `User-Agent`, a check for status 200, and a printed diagnostic otherwise.
- HTML parsing is not modelled: `BeautifulSoup(...)` and the `find_all` searches for `tr`, `td` and `a`. The model starts from their results, `Row` and `Cell`. What counts as a text node, and the handling of nested tables and nested links, belong to the parser.
- `pd.DataFrame(data)` (scrapcliamte.py:49-50) and `df.to_csv(...)` (scrapcliamte.py:53) are not modelled. The model stops at the record sequence that would be handed to the data frame.
- The module-level call (scrapcliamte.py:52-53) is not modelled. This includes the failure when `parse_climate` returns `None` after a non-200 status.
- The unused `import re` (scrapcliamte.py:1) is not modelled.
- `IsSpace` follows the whitespace set of Python's `str.isspace`. A Python build using another Unicode version could differ. Only `MumbaiAndThane` depends on which characters are in the set, and it needs only that the letters it uses are not whitespace.
- Running the extraction twice on the same input gives the same records. This needs no lemma, because `Extract` is a function.
