# Kaltura bulk-upload converter, modelled in Dafny

`kaltura-bulk.py` turns a `;`-separated CSV export into Kaltura bulk-upload
XML files. The header row is mapped onto nine column names. Each data row is
checked to be UTF-8. A row that is not goes to a reject log (`bad_rows.txt`).
Every other row becomes one `item` element. Items are written in numbered
files `<base>_<nnn>.xml` of at most `split_size` items each (one item each
when `split_size` is below 1).

This project models that core:

- `pystr.dfy` (module `PyStr`): Python 2 byte strings and the string
  operations the script uses: `list.index`, `sep.join`, `s.split(sep)`,
  `s.strip()` and `{:03d}` formatting.
- `utf8.dfy` (module `Utf8`): the UTF-8 grammar of section 4 of RFC 3629, the
  one relaxation of the Python 2.7 codec, and `is_bad`.
- `fields.dfy` (module `Fields`): `FIELDS` and `parse_fields`.
- `items.dfy` (module `Items`): the tag/category splitting and the element
  tree `create_item` builds. A reader `ReadItem` serves as the inverse that
  the round-trip lemma uses.
- `bulk.dfy` (module `Bulk`): `process`, as the method `Process` with its
  row loop in `ProcessRows`. It also holds `bad_row`, `write_bulk_file` and
  the batching, numbering and accounting properties.

Strings are byte strings (`seq<Char8>`, one character per byte), as in
Python 2. Files are not written. `Process` returns the files it would write,
as `BulkFile` records (number, name, document), and the lines it would
append to the reject log. An ElementTree element is the datatype
`Items.Element`: tag, attributes, text and children.

The model follows the code as written:

- `contentAssets` comes right after `name`, before the optional children.
- `description` is read from the row but never emitted.
- Empty pieces of a tags cell are kept: `"a,,b"` gives `a`, an empty tag, `b`.
- A header missing one of the nine names stops the run before any row is read.

## Model

| member | source | states |
|---|---|---|
| PyStr.IndexOf | kaltura-bulk.py:33 | `headers.index(f)`: absent exactly when `f` is not in the list; otherwise the first position holding `f` |
| PyStr.IndexOfAppend | kaltura-bulk.py:33 | columns appended after the header do not move the first occurrence of a present name |
| PyStr.Join | kaltura-bulk.py:54-59 | `sep.join(pieces)` as used by `bad_row` and `is_bad`: the pieces with `sep` between neighbours; recovered by `SplitOnJoin` |
| PyStr.SplitOn | kaltura-bulk.py:80 | `s.split(sep)`: one piece more than separators, no piece holds the separator, joining the pieces gives `s` back |
| PyStr.SplitOnFirst | kaltura-bulk.py:80 | splitting `a + sep + b`, with no separator in `a`, yields `a` and then the pieces of `b` |
| PyStr.SplitOnJoin | kaltura-bulk.py:80 | pieces without the separator are recovered exactly by splitting their join |
| PyStr.SplitOnNoSep | kaltura-bulk.py:80 | a string without the separator splits into itself alone |
| PyStr.StripKeepsOut | kaltura-bulk.py:80 | a byte absent from a piece is absent from the stripped piece |
| PyStr.LeadingSpaces | kaltura-bulk.py:80 | the leading run that `strip()` removes is all whitespace and stops at a non-space |
| PyStr.TrailingCut | kaltura-bulk.py:80 | the trailing run that `strip()` removes is all whitespace and ends right after a non-space |
| PyStr.Strip | kaltura-bulk.py:80 | `t.strip()`: a slice of the input; what is dropped on each side is whitespace; the result neither starts nor ends with whitespace; empty exactly when the input is all whitespace |
| PyStr.DigitChar | kaltura-bulk.py:44 | a digit character denoting the given digit |
| PyStr.Decimal | kaltura-bulk.py:44 | the decimal digits of `n`, without leading zero, denoting `n`; at most three digits below 1000 |
| PyStr.DecimalValueZeros | kaltura-bulk.py:44 | leading zeros do not change the value of a digit string |
| PyStr.Format03d | kaltura-bulk.py:44 | `{:03d}`: digits denoting `n`; exactly three below 1000; no padding zero beyond three digits |
| Utf8.CharLength | kaltura-bulk.py:59 | the length of the well-formed character at the front (1 to 4 bytes, all tails after the first); 1 exactly for an ASCII byte |
| Utf8.CharLengthPrefix | kaltura-bulk.py:59 | the front character depends only on its own bytes |
| Utf8.WellFormedConcat | kaltura-bulk.py:59 | two decodable byte strings concatenate to a decodable one |
| Utf8.WellFormedSplit | kaltura-bulk.py:59 | around an ASCII byte, a string decodes exactly when both sides do |
| Utf8.RfcImpliesPython | kaltura-bulk.py:59 | everything well-formed under RFC 3629 also decodes with the Python 2.7 codec |
| Utf8.SurrogateAcceptedByPython | kaltura-bulk.py:59 | the converse fails: the encoded surrogate ED A0 80 decodes under Python 2.7 but is not RFC 3629 UTF-8 |
| Utf8.WellFormed | kaltura-bulk.py:59 | `.decode("utf-8")` succeeds: the string is a sequence of well-formed characters under the chosen codec (defined by `CharLength`) |
| Utf8.IsBad | kaltura-bulk.py:56-62 | `is_bad(row)`: the `;`-join of the row fails to decode with the Python 2.7 codec (characterised by `IsBadIffSomeCell`) |
| Utf8.IsBadIffSomeCell | kaltura-bulk.py:56-62 | `is_bad(row)` holds exactly when some cell fails to decode on its own; hence the empty row is never bad |
| Fields.FieldNamesDistinct | kaltura-bulk.py:5 | `FIELDS` holds nine pairwise distinct column names, so `parse_fields` maps each field separately |
| Fields.Position | kaltura-bulk.py:5 | each of the nine fields has a position inside `FIELDS` |
| Fields.PositionNames | kaltura-bulk.py:5 | each field's position in `FIELDS` holds that field's column name |
| Fields.ParseNames | kaltura-bulk.py:33 | the dict comprehension succeeds exactly when every name is in the header; its keys are the names; each value is the first index of its name; on failure it names the first absent name |
| Fields.ParseFields | kaltura-bulk.py:32-33 | `parse_fields(headers)`: the same, for the nine names of `FIELDS` |
| Fields.ParseNamesExtraColumns | kaltura-bulk.py:33 | columns added after the header do not change a successful mapping |
| Items.Leaves | kaltura-bulk.py:18-23 | one text-only `tag` (resp. `category`) child per text, whose texts are the list again |
| Items.SplitField | kaltura-bulk.py:78-83 | empty cell stays empty, so no element follows; otherwise one piece more than commas, piece `k` is the stripped `k`-th comma piece, no piece holds a comma or surrounding whitespace |
| Items.StripStripped | kaltura-bulk.py:80 | `strip()` leaves an already stripped piece alone |
| Items.SplitFieldJoin | kaltura-bulk.py:80 | stripped, comma-free tags joined with commas split back into the same tags |
| Items.XmlNameInjective | kaltura-bulk.py:8-40 | the element names `create_item` and `write_bulk_file` emit are pairwise distinct strings, so the tags of the model stand for the XML names one to one |
| Items.ItemHead | kaltura-bulk.py:9-15 | the five fixed children (`action` "add", `type` "1", `userId`, `name`, `contentAssets/content/urlContentResource` with `url`); read back by `ReadItemHead` |
| Items.ItemTail | kaltura-bulk.py:16-29 | the optional children and `media`; their tags are stated by `ItemTailTags` |
| Items.CreateItem | kaltura-bulk.py:7-30 | `create_item(...)`: an `item` element whose children are `ItemHead` then `ItemTail`; its child order is stated by `CreateItemOrder` and its contents by `ReadCreateItem` |
| Items.CreateItemOrder | kaltura-bulk.py:7-30 | children: `action`, `type`, `userId`, `name`, `contentAssets`, then `tags`, `categories`, `startDate`, `endDate` each exactly when its value is non-empty, then `media` |
| Items.CreateItemFullOrder | kaltura-bulk.py:7-30 | with every optional value present the children follow `ItemOrder` exactly |
| Items.CreateItemNoDescription | kaltura-bulk.py:7-30 | no `description` element appears anywhere in the item |
| Items.ChildTagsConcat | kaltura-bulk.py:8-29 | the tags of appended children are the appended tags |
| Items.ChildTagsOptional | kaltura-bulk.py:16-27 | an optional child contributes its tag exactly when present |
| Items.ItemTailTags | kaltura-bulk.py:16-29 | the children after `contentAssets` are the present optional ones, then `media` |
| Items.NoneMentionsConcat | kaltura-bulk.py:8-29 | two child lists without `description` concatenate to one without it |
| Items.NoMentionInLeaves | kaltura-bulk.py:18-23 | tag and category leaves hold no other element name |
| Items.ItemHeadNoDescription | kaltura-bulk.py:9-15 | the fixed children hold no `description` |
| Items.ItemTailNoDescription | kaltura-bulk.py:16-29 | the optional children and `media` hold no `description` |
| Items.TakeIfOptional | kaltura-bulk.py:16-27 | an optional child is taken back exactly when it was emitted |
| Items.ReadItemHead | kaltura-bulk.py:9-15 | the fixed children read back as name, download URL and user id |
| Items.ReadItemDates | kaltura-bulk.py:24-29 | the date children and `media` read back as their values, a missing date as empty |
| Items.ReadList | kaltura-bulk.py:16-23 | a tags or categories element reads as the texts of its children exactly when every child is a text-only `tag` (resp. `category`) element, and the element is then those leaves; a missing element reads as the empty list |
| Items.ReadListOfLeaves | kaltura-bulk.py:16-23 | a tags or categories element `create_item` builds reads back as its list; a missing one as the empty list |
| Items.ReadCreateItem | kaltura-bulk.py:7-30 | every field except the description reads back unchanged from the item `create_item` builds |
| Bulk.Cell | kaltura-bulk.py:74-86 | `row[fields[name]]` for one of the nine fields; located by name in `CellByName` |
| Bulk.CellByName | kaltura-bulk.py:74-86 | each cell read is the row's entry at the column the header maps that name to, and that column exists and lies inside the row |
| Bulk.RowItem | kaltura-bulk.py:74-87 | the item a good row becomes; its contents are stated by `ReadRowItem` |
| Bulk.ReadRowItem | kaltura-bulk.py:74-87 | the item of a good row carries exactly the row's media type, name, download URL, user id, start and end date, and its tags and categories cells split at commas and stripped |
| Bulk.RejectLine | kaltura-bulk.py:54 | `";".join(row)+"\n"`; read back by `RejectLineSplit` |
| Bulk.ItemsOf | kaltura-bulk.py:70-87 | the items of the good rows in row order; characterised by `ItemsOfSift` and `RowsPartition` |
| Bulk.Rejects | kaltura-bulk.py:70-73 | the reject lines of the bad rows in row order; characterised by `RejectsSift` and `RowsPartition` |
| Bulk.Chunks | kaltura-bulk.py:88-94 | the batches the flush test produces; characterised by `ChunksFlatten`, `ChunksShape` and `ChunksCount` |
| Bulk.FileName | kaltura-bulk.py:44 | `"{0}_{1:03d}.xml".format(path, nbr)`; characterised by `FileNameThreeDigits` and `FileNameInjective` |
| Bulk.BulkDocument | kaltura-bulk.py:39-41 | the `mrss` root with the three schema attributes and one `channel` holding the batch |
| Bulk.WriteBulkFile | kaltura-bulk.py:35-45 | `write_bulk_file(items, name=path, nbr=nbr)` as the file it writes: number, name and document |
| Bulk.BulkFiles | kaltura-bulk.py:89-94 | the files written for a run's batches, numbered from 1; characterised by `BulkFilesNumbered` and `BulkFileNamesDistinct` |
| Bulk.Sift | kaltura-bulk.py:70-73 | the rows with a given `is_bad` verdict, each having that verdict |
| Bulk.RowItems | kaltura-bulk.py:74-87 | one item per good row |
| Bulk.RejectLines | kaltura-bulk.py:53-54 | one reject line per bad row |
| Bulk.BatchSize | kaltura-bulk.py:88 | the batch size the test `len(items) >= split_size` gives: `split_size` when it is at least 1, and 1 when it is below 1 (every item is flushed at once) |
| Bulk.Process | kaltura-bulk.py:64-94 | a header lacking a name ends the run with that name and nothing written; otherwise the rejects are the lines of the bad rows and the files are the numbered batches of the good rows' items |
| Bulk.ProcessRows | kaltura-bulk.py:68-94 | the row loop and last flush produce exactly the numbered batches of the items and the reject lines of the bad rows |
| Bulk.BadRowStep | kaltura-bulk.py:71-73 | a bad row extends the reject log by its line and changes nothing else |
| Bulk.GoodRowStep | kaltura-bulk.py:74-87 | a good row fits and appends its item to the current batch |
| Bulk.FlushStep | kaltura-bulk.py:88-91 | a full batch is written under the next number and a new batch starts |
| Bulk.LastFlush | kaltura-bulk.py:93-94 | after the last row a non-empty remainder is written as the last file |
| Bulk.Step | kaltura-bulk.py:70-87 | what one row adds to the items and to the reject log |
| Bulk.BulkFilesSnoc | kaltura-bulk.py:89-90 | writing one more batch appends one file with the next number |
| Bulk.AllOfSizeSnoc | kaltura-bulk.py:88-91 | a flushed batch of full size keeps every flushed batch full |
| Bulk.FlattenSnoc | kaltura-bulk.py:87-91 | the items of the batches plus one more batch |
| Bulk.ChunksOfFull | kaltura-bulk.py:88-94 | full batches followed by a short remainder are exactly the batches of their concatenation |
| Bulk.ChunksFlatten | kaltura-bulk.py:87-94 | concatenating the batches in order gives every item back |
| Bulk.ChunksShape | kaltura-bulk.py:88-94 | no batch is empty or larger than the split size, and every batch but the last is exactly the split size |
| Bulk.ChunksCount | kaltura-bulk.py:88-94 | the number of batches is the ceiling of items over split size: none for no items, enough for all, one fewer would not be |
| Bulk.SiftPartition | kaltura-bulk.py:70-73 | each row lands on exactly one side |
| Bulk.SiftAppend | kaltura-bulk.py:70-73 | the row order is kept on both sides across any split of the input |
| Bulk.SiftUniform | kaltura-bulk.py:70-73 | rows all of one verdict all land on that side |
| Bulk.SiftFits | kaltura-bulk.py:74-86 | the good rows that survive sifting are still long enough to read |
| Bulk.RowItemsSnoc | kaltura-bulk.py:87 | one more good row appends its item |
| Bulk.RejectLinesSnoc | kaltura-bulk.py:72 | one more bad row appends its line |
| Bulk.ItemsOfSift | kaltura-bulk.py:70-87 | the items built are those of the rows `is_bad` lets through, in row order |
| Bulk.RejectsSift | kaltura-bulk.py:70-73 | the reject log holds the lines of the rows `is_bad` stops, in row order |
| Bulk.RowsPartition | kaltura-bulk.py:70-87 | items plus reject lines number exactly the rows: each row is used once, never both |
| Bulk.ItemsOfGoodRows | kaltura-bulk.py:70-87 | rows that all decode give one item each, in order, and no reject line |
| Bulk.RejectsOfBadRows | kaltura-bulk.py:70-73 | rows that all fail to decode give no item and one reject line each, in order |
| Bulk.RejectLineSplit | kaltura-bulk.py:54 | a reject line ends with a newline, and when no cell holds `;` the row splits back out of it |
| Bulk.FileNameInjective | kaltura-bulk.py:44 | different numbers give different file names |
| Bulk.FileNameThreeDigits | kaltura-bulk.py:44 | below 1000 a file name is the path, `_`, three digits denoting the number, and `.xml` |
| Bulk.BulkFilesNumbered | kaltura-bulk.py:89-90 | files are numbered 1, 2, 3, … in order with no gap, each named after its number and holding its batch |
| Bulk.BulkFileNamesDistinct | kaltura-bulk.py:89-90 | no two files of a run share a name |

## Left out

- File I/O. This covers `open`, writing the XML files, appending to `bad_rows.txt`, `os.path.join` with `out_dir`, and `os.makedirs`. Files are returned as records and reject lines as a sequence.
- The CSV reader's quoting and line-splitting rules. Rows arrive already split into cells, and the header arrives as a separate row.
- An input without a header line. There `lines.next()` raises `StopIteration`; the model always receives a header.
- XML serialization (`ET.tostring`) and escaping. Documents stay element trees.
- The `UnicodeDecodeError` handler around serialization. In Python 2 a batch whose text holds non-ASCII bytes can raise there; the batch is then skipped, but its number is still consumed. The model writes every batch.
- Rows shorter than a mapped column. The source raises `IndexError` there; `Process` requires that every good row is long enough.
- Command-line parsing and the default split sizes (250 in `process`, 200 on the command line). The split size is a plain parameter.
- `print` of the decode error.
