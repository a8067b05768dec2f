# Qualisys export tools: JSON splitter and XML record extraction

This project models two parts of a small Python code base for gait-lab
data exported by Qualisys software.

1. `split_json_file` in `split_data_filtered.py` cuts a JSON list into
   consecutive chunks and writes each chunk to its own numbered file.
   The chunk grows one item at a time. It is measured only when its
   length is a multiple of 100 or when the last input item has just been
   added. When a measurement is over the byte limit, the newest item is
   dropped (if the chunk holds more than one) and the chunk is closed.
2. The `QualisysParser` class in `code/ScriptClasses.py`:
   - `select_files` parses the first file of a directory walk whose name
     ends with a given suffix;
   - `parse_xml` turns an XML export into a table of records. In its
     generic branch the records are the cross-product of all `owner`,
     `type` and `folder` elements of the whole document with the
     `name`/`component` nesting under each folder;
   - `load_timeseries_data` selects records by four substring conditions,
     splits their `data` attribute at commas into tokens (`nodata` is the
     missing-value sentinel) and drops the rows that hold a missing value;
   - `get_parameter` tokenises the `data` of the first record whose name
     contains a query.

Modules:

- `Outcomes`: `Option` and `Result`.
- `Seqs`: filtering, first-match search and flattening of sequences.
- `PyStr`: the Python string operations used: `in`, `endswith`,
  `split`, `str(n)` and POSIX `os.path.join`. The scripts do not call
  `str.join`. `JoinWith`, the inverse of `split`, is there only to state
  the round trip of tokenising.
- `XmlTree`: an ElementTree element and `findall` for `.//tag` (all
  descendants in document order) and for `tag` or `./tag` (direct
  children).
- `SplitDataFiltered`: the splitter.
- `QualisysParser`: the parser.

The code is imperative where the source is:

- `SplitJsonFile` is a `while` loop over `startIdx`.
- `NextChunk` is the inner `for` loop with its early exit.
- `ParseGeneric` is the five nested loops.
- `SelectFiles` is the early-return scan.
- `BuildMatrix` is the matrix loop.

Each method is proved equal to a specification function. The properties
are lemmas about those functions.

The byte size `len(json.dumps(chunk, indent=2).encode('utf-8'))` is the
function parameter `size`. The directory walk is a sequence of
`WalkEntry` values. Parsing a file is a function parameter
`read: string -> Element`.

Where the code and its documentation disagree, the model follows the
code:

- The splitter's comments speak of a size limit per file, but the
  chunks are not guaranteed to be under the limit.
  `SplitDataFiltered.ChunkMayExceedLimit` gives a concrete input where a
  part is over it.
- The comments in `parse_xml` describe folders "inside the current type"
  and names inside the folder. Only the name and component searches are
  scoped, though. Owners, types and folders are each searched over the
  whole document.

## Model

| member | source | states |
|---|---|---|
| SplitDataFiltered.Items | split_data_filtered.py:20-22 | A list is kept as it is. A dict becomes its values in entry order. Any other value `v` becomes `[v]`. |
| SplitDataFiltered.ChunkLen | split_data_filtered.py:38-51 | Every chunk holds at least one item and no more than the remaining tail. |
| SplitDataFiltered.ChunksFrom | split_data_filtered.py:35-61 | There are no more chunks than remaining items, and no chunk is empty, so `start_idx` strictly increases and the loop ends. |
| SplitDataFiltered.FirstOverSpec | split_data_filtered.py:38-48 | The inner loop breaks at an over-limit measurement with none before it. It runs to the end exactly when no measurement from `start` on is over the limit. |
| SplitDataFiltered.NextChunk | split_data_filtered.py:37-51 | The inner loop's chunk is the `ChunkLen` items from `startIdx`. The one-item fallback of lines 50-51 is unreachable (asserted non-empty). |
| SplitDataFiltered.SplitJsonFile | split_data_filtered.py:12-62 | The parts written are the chunks of the normalised input, one part per chunk, numbered from 1 in order. |
| SplitDataFiltered.SplitPartsChunks | split_data_filtered.py:35-62 | From any start position, the loop adds exactly one numbered part per remaining chunk after the parts already written. |
| SplitDataFiltered.PartsOf | split_data_filtered.py:53-62 | There is one part per chunk. |
| SplitDataFiltered.PartsOfNumbering | split_data_filtered.py:53-62 | Part `k + 1` holds chunk `k`, so part numbers run consecutively from 1. |
| SplitDataFiltered.NoPartsIffNoItems | split_data_filtered.py:24-35 | No part is written exactly when the input has no items. |
| SplitDataFiltered.ChunksPartition | split_data_filtered.py:35-61 | The chunks, concatenated in part order, are exactly the input from `start` on: same order, nothing lost, nothing duplicated. |
| SplitDataFiltered.ChunkBoundary | split_data_filtered.py:38-48 | A chunk that stops short of the tail was closed by an over-limit measurement of the candidate with the next item. Every measurement of a chunk of two or more items was within the limit. If no measurement along the tail is over, the chunk is the whole tail. |
| SplitDataFiltered.ChunkLenShape | split_data_filtered.py:42-48 | A chunk that does not take the whole tail has length `100k - 1`, or it is the tail less its last item, which then forms the next chunk alone. |
| SplitDataFiltered.WithinLimitSinglePart | split_data_filtered.py:38-48 | When no measurement from the first item on is over the limit, the whole input is one part. |
| SplitDataFiltered.SingleItemSinglePart | split_data_filtered.py:44-51 | A single item is one part, whatever its size. |
| SplitDataFiltered.FirstOverMeasuredOnly | split_data_filtered.py:42-44 | The break position depends on the size only at the measured candidates. |
| SplitDataFiltered.ChunksMeasuredOnly | split_data_filtered.py:42-44 | Two size functions that agree on every measured candidate give the same chunks. |
| SplitDataFiltered.ChunkMayExceedLimit | split_data_filtered.py:42-47 | With three items of 10 bytes and a limit of 15 bytes, the first part holds 20 bytes, because a two-item candidate is never measured. |
| SplitDataFiltered.PartFileName | split_data_filtered.py:53 | The file name is the base name, `_part`, the number and `.json`. The text between `_part` and `.json` is decimal digits with no leading zero, and it reads back as the number. |
| SplitDataFiltered.PartFileNamesDistinct | split_data_filtered.py:53 | Distinct part numbers give distinct `<base>_part<N>.json` names, so no part overwrites another. |
| PyStr.NatToString | split_data_filtered.py:53 | `str(n)` is a non-empty string of decimal digits, with no leading zero unless it is `0`. |
| PyStr.NatToStringRoundTrip | split_data_filtered.py:53 | The decimal text of the part number reads back as that number. |
| PyStr.NatToStringInjective | split_data_filtered.py:53 | Distinct part numbers have distinct decimal texts. |
| XmlTree.Get | code/ScriptClasses.py:130-158 | `get(key)` is `None` exactly when the attribute is absent, and otherwise its value. |
| XmlTree.FindAll | code/ScriptClasses.py:129-135 | `findall('.//tag')` returns no more elements than there are descendants. |
| XmlTree.FindAllSpec | code/ScriptClasses.py:129-135 | `findall('.//tag')` returns descendants with that tag, and every descendant with that tag. |
| XmlTree.FindChildren | code/ScriptClasses.py:138-142 | `findall('./name')` and `findall('component')` return no more elements than there are children. |
| XmlTree.FindChildrenSpec | code/ScriptClasses.py:138-142 | `findall('./name')` and `findall('component')` return children with that tag, and every child with that tag. |
| QualisysParser.ParseGeneric | code/ScriptClasses.py:124-163 | The five nested loops build exactly the records of the specification `TidyRows`, in append order. |
| QualisysParser.AddComponentsAttach | code/ScriptClasses.py:142-159 | The component loop appends one record per `component` child of the name, in order. |
| QualisysParser.AddNamesAttach | code/ScriptClasses.py:138-159 | The name loop appends one record per (name, component) placement under the folder, in order. |
| QualisysParser.AddFoldersAttach | code/ScriptClasses.py:135-159 | The folder loop appends one record per placement of the whole document, in order. |
| QualisysParser.AddTypesBlocks | code/ScriptClasses.py:132-159 | For one owner, the type loop appends one block of records per `type` element of the whole document, in document order. |
| QualisysParser.AddOwnersBlocks | code/ScriptClasses.py:129-159 | The records are one block per `owner` element of the whole document, in document order. |
| QualisysParser.NamePlacementsNested | code/ScriptClasses.py:138-142 | Every placement under a folder pairs one of its `name` children with a `component` child of that name. |
| QualisysParser.PlacementsNested | code/ScriptClasses.py:135-142 | Every placement has a `folder` found anywhere in the document, a `name` child of that folder and a `component` child of that name. |
| QualisysParser.PlacementsOfName | code/ScriptClasses.py:138-142 | The components of a folder's `n`-th name follow the components of its earlier names, in order. |
| QualisysParser.PlacementsOfFolder | code/ScriptClasses.py:135-142 | The nestings of the `f`-th folder follow those of the earlier folders, in name-then-component order. |
| QualisysParser.NamePlacementsComplete | code/ScriptClasses.py:138-142 | Conversely, every `component` child of every `name` child of a folder is a placement under it. It sits after the components of the earlier names, at the position the name and component loops reach it. |
| QualisysParser.PlacementsComplete | code/ScriptClasses.py:135-142 | Conversely, every component of every name of every `.//folder` element is a placement. The placements run folder by folder in document order, then name by name, then component by component, and each nesting sits at the position the three loops reach it. |
| QualisysParser.PlacementsCover | code/ScriptClasses.py:135-142 | Every (folder, name, component) nesting of the document is among the placements. |
| QualisysParser.PlacementsCount | code/ScriptClasses.py:135-142 | The number of placements is the sum over all folders and their names of the component count. |
| QualisysParser.NamePlacementsCount | code/ScriptClasses.py:138-142 | The placements under a folder number the components under its names. |
| QualisysParser.OwnerBlockAt | code/ScriptClasses.py:132-159 | One owner's records hold the record for type `j` and placement `x` at position `j * e + x`. |
| QualisysParser.OwnerBlocksUniform | code/ScriptClasses.py:129-142 | Every owner contributes the same number of records: one per type and placement. |
| QualisysParser.TidyRowsCount | code/ScriptClasses.py:129-142 | The record count is the number of owners × the number of types × the sum over all folders and their names of the component count. |
| QualisysParser.TidyRowsOrder | code/ScriptClasses.py:129-159 | Records come in nested-loop order: owner outermost, then type, then folder, name and component. Each record's owner, type, folder and name are the `value` attributes of those elements. Its eight component fields are copied from the component's attributes, and an absent attribute gives `None`. |
| QualisysParser.ParseXml | code/ScriptClasses.py:103-163 | The session branch is taken exactly when `session.xml` occurs in the path. Otherwise the table holds the generic records of the parsed document. |
| QualisysParser.CandidatesPrefix | code/ScriptClasses.py:22-23 | The files of the first `r` walk entries come first in visiting order. |
| QualisysParser.CandidatesAt | code/ScriptClasses.py:22-23 | The files are visited entry by entry and, within an entry, in list order, each paired with its entry's directory. |
| QualisysParser.SelectFiles | code/ScriptClasses.py:22-27 | The scan returns the parsed table of the first matching file, or nothing when the loops end. |
| QualisysParser.SelectedPathFirstMatch | code/ScriptClasses.py:22-27 | Nothing is selected exactly when no file name ends with the suffix. Otherwise the selection is the first such file in walk order, joined to its directory. |
| QualisysParser.ReadToken | code/ScriptClasses.py:57 | A piece is the missing-value token exactly when it is `nodata`. The token's text gives back the piece. |
| QualisysParser.Tokenise | code/ScriptClasses.py:56-57 | There is one token per piece of `data.split(',')`. |
| QualisysParser.TokeniseSpec | code/ScriptClasses.py:56-57 | There is one token more than there are commas. A token is Missing exactly when its piece is `nodata`. A number token keeps its piece's text. |
| QualisysParser.TokeniseRoundTrip | code/ScriptClasses.py:56-57 | Joining the tokens' texts with commas gives back the `data` string. |
| QualisysParser.DropMissingRows | code/ScriptClasses.py:63 | No more rows are kept than there were, and every kept row is complete. |
| QualisysParser.DropMissingRowsSpec | code/ScriptClasses.py:63 | Every kept row has no Missing entry and comes from the matrix. Every row without a Missing entry is kept. Dropping distributes over concatenation, so order is kept. |
| QualisysParser.FieldContains | code/ScriptClasses.py:49 | A missing value never matches. A value equal to the pattern always does. |
| QualisysParser.IsTimeseriesRow | code/ScriptClasses.py:49 | A selected record has a name, a component value, a type and an owner. |
| QualisysParser.NameQuery | code/ScriptClasses.py:204 | A record without a name is not selected. A record whose name is the query is selected. |
| QualisysParser.TokenRows | code/ScriptClasses.py:53-58 | There is one token row per selected record: the tokens of its `data`. |
| QualisysParser.BuildMatrix | code/ScriptClasses.py:53-63 | The loop fails on the first selected record without data. Otherwise it builds the token rows, which must be rectangular and non-empty, and drops the incomplete ones. |
| QualisysParser.LoadTimeseriesData | code/ScriptClasses.py:48-63 | The result is `TimeseriesMatrix` for the `timeseries.xml` table the walk selects. |
| QualisysParser.TimeseriesMatrixRows | code/ScriptClasses.py:49-63 | Every result row is complete and is the token row of a record that meets all four conditions. Every record that meets them has data, and its token row is in the result when complete. |
| QualisysParser.TimeseriesMissingData | code/ScriptClasses.py:49-57 | On a non-empty tidy table, the code fails on `None.split` exactly when a record that meets the four conditions has no data. |
| QualisysParser.TimeseriesEmptySelection | code/ScriptClasses.py:49-63 | On a non-empty tidy table, the empty-selection failure happens exactly when no record meets the four conditions. |
| QualisysParser.GetParameter | code/ScriptClasses.py:203-208 | The result is `ParameterTokens` for the `metrics_per_trial.xml` table the walk selects. A record without a name makes the `.loc` mask unusable (`NaMask`). |
| QualisysParser.ParameterFirstMatch | code/ScriptClasses.py:204-208 | The mask fails exactly when some record has no name. Otherwise no row matches exactly when no record's name contains the query, and a result is the tokens of the first record whose name contains it. |
| Seqs.FilterMembers | code/ScriptClasses.py:50 | A filtered row comes from the input and satisfies the condition. Every input row that satisfies it is kept. |
| Seqs.FilterAppend | code/ScriptClasses.py:50 | Filtering distributes over concatenation, so kept rows stay in input order. |
| Seqs.FilterFirst | code/ScriptClasses.py:205-206 | The first row of a selection is the first satisfying row of the input. The selection is empty exactly when no row satisfies the condition. |
| Seqs.FirstIndex | code/ScriptClasses.py:22-27 | The first-match position satisfies the predicate and no earlier one does. There is none exactly when no element satisfies it. |
| PyStr.Contains | code/ScriptClasses.py:49 | `sub in s` implies `sub` is no longer than `s`. The empty string is in every string. |
| PyStr.EndsWith | code/ScriptClasses.py:24 | `s.endswith(suffix)` implies `suffix` is no longer than `s`. |
| PyStr.Split | code/ScriptClasses.py:56 | `s.split(sep)` always has at least one piece. |
| PyStr.ContainsIff | code/ScriptClasses.py:103 | `sub in s` holds exactly when `sub` occurs at some position of `s`. |
| PyStr.EndsWithIff | code/ScriptClasses.py:24 | `s.endswith(suffix)` holds exactly when `s` is some string followed by `suffix`. |
| PyStr.PathJoin | code/ScriptClasses.py:25 | An absolute file name replaces the directory. Otherwise the result starts with the directory and ends with the file name. Its length is that of both together, plus one exactly when a `/` is needed. A non-empty directory is followed by a `/` right before the file name. |
| PyStr.PathJoinDetermined | code/ScriptClasses.py:25 | For a relative file name, those facts leave no freedom: any string that meets them is the joined path. |
| PyStr.SplitLength | code/ScriptClasses.py:56 | `s.split(',')` has one piece more than `s` has commas. |
| PyStr.SplitPiecesFree | code/ScriptClasses.py:56 | No piece of `s.split(',')` contains a comma. |
| PyStr.JoinSplit | code/ScriptClasses.py:56 | Joining the pieces of `s.split(',')` with commas gives back `s`. |
| PyStr.SplitJoin | code/ScriptClasses.py:56 | Splitting a comma-join of comma-free pieces gives back the pieces. |

## Left out

- File and process effects:
  - `open`, `json.load`, `json.dump`, `os.path.getsize` and the `print` calls of the splitter;
  - `ET.parse` and its errors;
  - `os.walk` itself.

  The walk is a given sequence and a parsed document is given by `read`.
- The JSON encoder and UTF-8 length are not modelled. The size of a candidate chunk is the parameter `size`.
- Output paths: the output directory and the base name derived from the input path (lines 28-29) are not modelled. A part carries its number, and `PartFileName(baseName, number)` is its file name.
- SplitDataFiltered.SplitJsonFile: the megabyte limit is an integer. A fractional `max_size_mb` is not modelled. A negative one and the default of 90 are modelled.
- The final count message (line 64) is not modelled.
- `json.load` with duplicate object keys is not modelled. A `JObject` holds its entries as the resulting dict would.
- The `session.xml` branch of `parse_xml` (lines 107-121) is pandas `read_xml` with UTF-16, concatenation, duplicate-column removal and a transpose. It is modelled only as a table tagged with its path, and it has no `name` column. `load_session_data` (lines 165-180) only forwards to `select_files` and is not modelled.
- The statistics are floating-point numerics and are not modelled:
  - `float()` parsing;
  - `np.std`, `np.mean` and `np.percentile` (lines 66-72, 81, 210-214);
  - the `std > 1` threshold filter (lines 75-78).

  The model stops at the matrix of complete token rows, and number tokens keep their text.
- QualisysParser.DropMissingRows: a number token whose text `float()` reads as NaN (such as `nan`) would also be dropped by line 63. The model drops only `nodata` rows. A token `float()` cannot read, which raises ValueError, is not modelled either.
- QualisysParser.FieldContains: pandas `str.contains` reads its pattern as a regular expression. The model reads it literally, so patterns with metacharacters are not modelled.
- QualisysParser.GetParameter: `NaMask` follows pandas 1.x and 2.x, where `str.contains` leaves NA for a missing name and `.loc` refuses a mask that holds NA.
- QualisysParser.GetParameter: the source reads the module-level `dir_path_qualisys`, which is defined only under `__main__`. The walk is a parameter here.
- Numpy's error for ragged rows (`RaggedRows`) follows numpy 1.24 and later. Older versions build an object array instead.
- The `__main__` blocks are not modelled.
