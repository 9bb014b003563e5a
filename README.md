# Format converter: the conversion route, modelled in Dafny

This project models the conversion route of the format-converter backend:
`POST /convert/<conversion_type>` in
`format-converter-backend/src/routes/converter.py` (`src/routes/converter.py`
is an identical copy). The model covers these parts:

- **The extension registry.** `ALLOWED_EXTENSIONS` and `allowed_file` live in module `Registry`. `ExtensionOf` is the route's own extension extraction: split once at the last dot, then ASCII lower-case.
- **`json_to_csv`, over parsed JSON.** It lives in module `JsonCsv` and is written imperatively, like the source. One loop gathers the field names into a set, they are sorted by code point, and a second loop writes one row per object. `JsonToCsv` is proved to return `Tabulation`, the specification function. The lemmas about `Tabulation` give the output's shape. They also show that the CSV reader, applied to the header and rows handed to the writer, gives back each object's fields with the values that were handed over. The text the writer makes of those values is outside the model.
- **The sort order.** Python `sorted` on strings is code-point lexicographic order. It lives in module `TextOrder` as `Less`, with its order laws. `SortedOf` is the unique strictly sorted sequence of a set.
- **`csv_to_json` at record level.** It is modelled as `csv.DictReader`'s behaviour:
  - the first line is the header;
  - empty rows are skipped;
  - a short row fills its missing fields with `None`;
  - a duplicate column name takes the later column.
- **The branch chain.** The `if`/`elif` chain of `handle_conversion` lives in module `Routing`. It gives the branch, the download suffix and the media type of each (token, extension) pair.
- **The temporary directory.** Module `Lifecycle` holds it as a class `TempDir` with a `files` map and a ghost event log. It supports create, write, unlink and "unlink if it exists".
- **`handle_conversion` itself.** It lives in module `Handler` and covers:
  - the two pre-checks;
  - staging the upload;
  - running the branch;
  - `send_file` and removing the output;
  - the `except` that maps every fault to 500 with `转换失败: ` before the message;
  - the `finally` that removes the staged input.

  `HandleConversion` is proved to return `Expected`, the response function. Its contract also states, for the file system:
  - what it holds afterwards;
  - the order of events;
  - which output file, if any, is left behind.

  Module `HandlerFacts` proves properties of `Expected`: status codes, when a 400 or a 500 happens, download names and types, and when an output can be left behind.

The converters and library calls are fields of the datatype `Handler.Library`:
- These return a value or a fault, which stands for an exception: UTF-8 decoding and encoding, `json.loads`, the CSV reader, markdown-to-document, document saving, docx reading, image open and save, the two OCR calls, and `send_file`.
- These are modelled as total functions that never raise: `secure_filename`, the CSV writer and `json.dumps`.

`json.dumps` is given the header row together with the records. A record from `csv.DictReader` has its keys in header order, and `json.dumps` writes them in that order; a Dafny `map` has no order, so the header carries it.

The first eight characters of `uuid.uuid4()` are the parameter `uniqueId`.

What the code does at its edges:

- An unknown token and an extension that fits neither direction both get the same generic 400, `不支持的转换类型或文件格式`. There is no message naming the accepted extensions.
- `target_format` is optional and defaults to `"png"`.
- A 500 body carries the converter's own message after the prefix.
- An output file created before a fault stays in the temporary directory. See `HandlerFacts.LeakOnlyOnServerError` and the key-set clauses of `Handler.HandleConversion`.

## Model

| member | source | states |
|---|---|---|
| Registry.Category | format-converter-backend/src/routes/converter.py:27-35 | `ALLOWED_EXTENSIONS.get(t, [])`: a known category gives its list, an unknown one the empty list |
| Registry.ToLower | format-converter-backend/src/routes/converter.py:40 | `lower()` on ASCII: same length, no upper-case letter remains, other characters unchanged, A-Z shifted by 32 |
| Registry.RSplitDot | format-converter-backend/src/routes/converter.py:40 | `rsplit(".", 1)`: no dot gives the string alone; otherwise two parts joined by the dot give the string back, and the last part has no dot |
| Registry.AllowedFile | format-converter-backend/src/routes/converter.py:37-40 | `allowed_file`: the lower-cased text after the last dot is in the category's list; a name it allows has a dot and a known file type |
| Registry.ExtensionOf | format-converter-backend/src/routes/converter.py:177 | `file_ext`: `""` for a name without a dot; never holds a dot or an upper-case letter |
| Registry.RSplitDotUnique | format-converter-backend/src/routes/converter.py:40 | any split `base + "." + ext` with a dot-free `ext` is exactly the split `rsplit` returns |
| Registry.AllowedFileIffExtension | format-converter-backend/src/routes/converter.py:37-40 | `allowed_file` holds iff the name has a dot and its lower-cased last extension is in the category |
| Registry.AllowedFileOfParts | format-converter-backend/src/routes/converter.py:37-40 | for `base.ext` with a dot-free `ext`, allowed iff `lower(ext)` is in the category, whatever dots `base` holds |
| Registry.AllowedFileNeedsDot | format-converter-backend/src/routes/converter.py:39 | a name without a dot is never allowed |
| Registry.UnknownCategoryRejects | format-converter-backend/src/routes/converter.py:40 | an unknown file type allows nothing |
| Registry.AllowedFileIgnoresCase | format-converter-backend/src/routes/converter.py:40 | the extension's letter case does not change the answer |
| Registry.LowerIdempotent | format-converter-backend/src/routes/converter.py:40 | lower-casing twice is lower-casing once |
| Registry.ExtensionOfParts | format-converter-backend/src/routes/converter.py:177 | `file_ext` of `base.ext` (dot-free `ext`) is `lower(ext)` |
| TextOrder.LessIrreflexive | format-converter-backend/src/routes/converter.py:64 | `Less` is Python's `<` on `str` (first different code point decides, a proper prefix comes first); no string is less than itself |
| TextOrder.LessTransitive | format-converter-backend/src/routes/converter.py:64 | the order of `sorted` is transitive |
| TextOrder.LessTotal | format-converter-backend/src/routes/converter.py:64 | any two different strings are ordered one way |
| TextOrder.LessAsymmetric | format-converter-backend/src/routes/converter.py:64 | at most one of `a < b`, `b < a` |
| TextOrder.StrictlySortedDistinct | format-converter-backend/src/routes/converter.py:64 | a strictly sorted sequence has no repeats |
| TextOrder.InsertSorted | format-converter-backend/src/routes/converter.py:64 | inserting into a strictly sorted sequence keeps it strictly sorted and adds exactly the new element |
| TextOrder.PrependLeast | format-converter-backend/src/routes/converter.py:64 | a string below the head of a strictly sorted sequence goes in front and keeps it strictly sorted |
| TextOrder.PrependHead | format-converter-backend/src/routes/converter.py:64 | the head stays in front when a larger string was inserted into the rest |
| TextOrder.SortedUnique | format-converter-backend/src/routes/converter.py:64 | two strictly sorted sequences with the same elements are equal |
| TextOrder.SortedOf | format-converter-backend/src/routes/converter.py:64 | `sorted(list(s))` of a set: strictly sorted, with exactly the set's elements |
| TextOrder.SortedOfUnique | format-converter-backend/src/routes/converter.py:64 | any strictly sorted listing of a set is `sorted` of it |
| JsonCsv.AsList | format-converter-backend/src/routes/converter.py:50-54 | a list is kept, an object becomes a one-element list, anything else is the shape error with its prefix |
| JsonCsv.Records | format-converter-backend/src/routes/converter.py:71-72 | the objects of the list, in order: no more records than items, each one an object of the list |
| JsonCsv.KeysOf | format-converter-backend/src/routes/converter.py:60-62 | the union of the field names: every object's keys are in it |
| JsonCsv.Tabulation | format-converter-backend/src/routes/converter.py:42-79 | what `json_to_csv` yields for a parsed value: the shape error iff it is neither list nor object; the empty text iff it is `[]`; otherwise a BOM, a strictly sorted header and rows as long as the header, no more than the items |
| JsonCsv.Get | format-converter-backend/src/routes/converter.py:73 | `item.get(field, "")`: the object's value for a field it has, otherwise `""` |
| JsonCsv.Row | format-converter-backend/src/routes/converter.py:73 | one cell per header field |
| JsonCsv.Rows | format-converter-backend/src/routes/converter.py:71-75 | one row per record |
| JsonCsv.JsonToCsv | format-converter-backend/src/routes/converter.py:42-79 | the imperative conversion returns exactly `Tabulation` of its input |
| JsonCsv.CollectFieldNames | format-converter-backend/src/routes/converter.py:60-62 | the set loop gathers the union of the keys of the objects in the list, ignoring non-objects |
| JsonCsv.SortFieldNames | format-converter-backend/src/routes/converter.py:64 | the sort gives `SortedOf` of the field names |
| JsonCsv.WriteRows | format-converter-backend/src/routes/converter.py:71-75 | the row loop writes one row per object, in order, with `item.get(field, "")` for each header field |
| JsonCsv.SingleObjectAsList | format-converter-backend/src/routes/converter.py:50-51 | a single object converts as the list holding it |
| JsonCsv.ScalarRejected | format-converter-backend/src/routes/converter.py:53-54 | a value that is neither object nor list fails with `JSON转CSV失败: JSON数据必须是对象数组或单个对象` |
| JsonCsv.EmptyListBlank | format-converter-backend/src/routes/converter.py:56-57 | the empty list gives the empty text, without BOM or header |
| JsonCsv.RecordsAppend | format-converter-backend/src/routes/converter.py:71-72 | the objects of a concatenation are the objects of each part, in order |
| JsonCsv.RecordsAreTheObjects | format-converter-backend/src/routes/converter.py:71-72 | a non-object element contributes no row; an object contributes its own |
| JsonCsv.KeysOfMeans | format-converter-backend/src/routes/converter.py:60-62 | a name is a field name iff some object of the list has it as a key |
| JsonCsv.TableShape | format-converter-backend/src/routes/converter.py:60-75 | for a non-empty list: a BOM first; a strictly sorted header naming exactly the keys of some object; one row per object; each row as long as the header, with the field's value or `""` |
| JsonCsv.ZipAt | format-converter-backend/src/routes/converter.py:85-86 | a duplicate-free header and a full row map each field to its own cell |
| JsonCsv.ZipPrefix | format-converter-backend/src/routes/converter.py:85-86 | the reader uses only the first header-many cells of a row |
| JsonCsv.ZipRow | format-converter-backend/src/routes/converter.py:73 | reading back a written row, each header field holds the object's value for it, or `""` when the object lacks it |
| JsonCsv.RowRoundTrip | format-converter-backend/src/routes/converter.py:73 | reading back a written row gives every header field; the object's own fields keep their values and the others read as `""` |
| JsonCsv.TableRoundTrip | format-converter-backend/src/routes/converter.py:42-89 | for a non-empty list in which some object has a field: reading back the header and the rows handed to the writer gives one record per object, in order, and each field holds the value handed to the writer for it (the source reads back that value's text) |
| JsonCsv.FieldlessObjectsVanish | format-converter-backend/src/routes/converter.py:59-75 | when no object has a field: the header is empty, every row is empty and the reader skips them all, whether the BOM is kept or dropped, so the read-back is `[]` |
| JsonCsv.EmptyObjectLost | format-converter-backend/src/routes/converter.py:59-75 | `[{}]` holds one object yet reads back as no record |
| JsonCsv.RecordKeysInKeysOf | format-converter-backend/src/routes/converter.py:60-62 | every object's keys are among the header fields |
| JsonCsv.ReadRowsBack | format-converter-backend/src/routes/converter.py:85-86 | no written row is empty, so the reader yields one record per written row |
| JsonCsv.Zip | format-converter-backend/src/routes/converter.py:85-86 | `dict(zip(fieldnames, row))` with `restval` `None`: its keys are exactly the header fields |
| JsonCsv.ZipValues | format-converter-backend/src/routes/converter.py:85-86 | every value of a record is a cell of its row or `None` |
| JsonCsv.CsvToRecords | format-converter-backend/src/routes/converter.py:85-86 | `DictReader` after the header: at most one record per row, each keyed by the whole header |
| JsonCsv.CsvToRecordsValues | format-converter-backend/src/routes/converter.py:85-86 | when every cell is a string, every value the reader yields is a string or `None` |
| JsonCsv.ReadRecords | format-converter-backend/src/routes/converter.py:83-86 | `csv_to_json` at record level: an empty text or a header alone gives `[]`; every record is keyed by the first line; every value is a string or `None` |
| JsonCsv.Cells | format-converter-backend/src/routes/converter.py:85-86 | every cell the reader yields is a string, one per cell of the line |
| JsonCsv.ZipMeans | format-converter-backend/src/routes/converter.py:85-86 | a field takes the cell of its last column; past the end of a short row it is `None` |
| JsonCsv.CsvToRecordsMeans | format-converter-backend/src/routes/converter.py:83-86 | with no empty row, exactly one zip per row, in order; all rows empty gives `[]` |
| JsonCsv.HeaderAsRead | format-converter-backend/src/routes/converter.py:68 | when decoded as plain UTF-8 the BOM stays part of the first line, so it sits in front of the first field name; this describes a first field name the writer leaves unquoted |
| JsonCsv.StripBom | format-converter-backend/src/routes/converter.py:68 | reading with the BOM dropped, for a first field name longer than the BOM: same number of fields, the first without its leading BOM |
| JsonCsv.BomBreaksRoundTrip | format-converter-backend/src/routes/converter.py:68 | as written: `{"a": 1}` converted to CSV and back gives a record without `"a"` and with BOM-`"a"` |
| JsonCsv.BomAwareRoundTrip | format-converter-backend/src/routes/converter.py:68 | corrected: for a non-empty list in which some object has a field, with the BOM dropped on reading, the header reads back as written, and each object's field holds the value handed to the writer for it (the source reads back that value's text) |
| Routing.Route | format-converter-backend/src/routes/converter.py:189-249 | the `if`/`elif` chain: the image branch iff the token is `image-format`; each OCR token leads only to its own branch or its own rejection; a rejection iff an OCR token meets a non-image extension |
| Routing.OutputOf | format-converter-backend/src/routes/converter.py:189-249 | the suffix and media type a branch assigns: none iff the branch is a rejection or the fallthrough; a fixed branch's suffix is non-empty |
| Routing.DownloadName | format-converter-backend/src/routes/converter.py:196 | `converted_<id>.<suffix>`, never empty |
| Routing.BidirectionalMatchesTable | format-converter-backend/src/routes/converter.py:189-219 | under `json-csv` and `markdown-docx` the extension picks the direction in the (token, extension) table; any other extension reaches the generic fallthrough |
| Routing.ImageFormatIgnoresExtension | format-converter-backend/src/routes/converter.py:221-225 | `image-format` ignores the extension; suffix and media type come from the lower-cased target |
| Routing.ImageFormatDefault | format-converter-backend/src/routes/converter.py:222 | with no `target_format` the download is `png`, `image/png` |
| Routing.OcrNeedsImage | format-converter-backend/src/routes/converter.py:232-249 | the OCR tokens produce `txt` / `pdf` iff the extension is an image extension; otherwise they take their own rejection |
| Routing.UnknownTokenFallsThrough | format-converter-backend/src/routes/converter.py:189-256 | an unrecognised token assigns nothing |
| Routing.ProducesIff | format-converter-backend/src/routes/converter.py:189-249 | an output is assigned iff the pair is in the direction table, or the token is `image-format`, or an OCR token meets an image extension |
| Lifecycle.TempDir.Exists | format-converter-backend/src/routes/converter.py:261 | `os.path.exists`: the name is a file of the directory |
| Lifecycle.TempDir.Create | format-converter-backend/src/routes/converter.py:181 | a new empty file under a non-empty name not already in use; the log records its creation |
| Lifecycle.TempDir.Write | format-converter-backend/src/routes/converter.py:182 | the file's content is replaced and nothing else changes |
| Lifecycle.TempDir.Stage | format-converter-backend/src/routes/converter.py:181-183 | the upload is saved under a new non-empty name holding exactly its bytes; the log records creation then writing |
| Lifecycle.TempDir.Unlink | format-converter-backend/src/routes/converter.py:253 | the file is gone and nothing else changes |
| Lifecycle.TempDir.RemoveIfExists | format-converter-backend/src/routes/converter.py:261-262 | the file is gone afterwards; a removal is logged only if it existed |
| Lifecycle.FreshPathExists | format-converter-backend/src/routes/converter.py:181 | however many names are taken, a fresh one exists |
| Handler.PassesPreChecks | format-converter-backend/src/routes/converter.py:168-173 | both pre-checks pass: a `file` field is present and its name is not empty |
| Handler.RequestExtension | format-converter-backend/src/routes/converter.py:176-177 | `file_ext` of the request: the extension of the sanitised file name |
| Handler.CsvText | format-converter-backend/src/routes/converter.py:56-76 | the text `json_to_csv` returns: empty for `[]`, otherwise the BOM followed by the writer's text of the header and rows |
| Handler.Prefixed | format-converter-backend/src/routes/converter.py:78-79 | `raise ValueError(f"<prefix>{e}")`: a value passes unchanged, a fault gains the prefix |
| Handler.PrepareOther | format-converter-backend/src/routes/converter.py:81-164 | the converter step of each non-JSON branch: what it hands on matches the branch (document, image, PDF or text); the branches that read the staged file raise only with their converter's prefix |
| Handler.Finish | format-converter-backend/src/routes/converter.py:99-162 | the step after the output file exists: a PDF is already written; document and image saving faults carry their converter's prefix |
| Handler.ProductionOf | format-converter-backend/src/routes/converter.py:189-249 | a branch declines iff it is an OCR rejection, produces nothing iff no branch matched, and otherwise raises or produces |
| Handler.PrepareJsonToCsv | format-converter-backend/src/routes/converter.py:190-192 | decode, parse with the converter's prefix, tabulate, and prepend the BOM to the CSV text |
| Handler.Reply | format-converter-backend/src/routes/converter.py:240-259 | the answer for a branch's outcome: 400 iff declined or no output; 500 iff raised or `send_file` failed, with the failure prefix; a download only after production |
| Handler.Expected | format-converter-backend/src/routes/converter.py:166-259 | the response of `handle_conversion`: a download only after both pre-checks pass; every error body is non-empty |
| Handler.RunBranch | format-converter-backend/src/routes/converter.py:189-249 | the staged converter's outcome: an output file exists iff the branch produced or raised after creating it; its content is the produced bytes |
| Handler.Deliver | format-converter-backend/src/routes/converter.py:251-256 | the reply for the branch's outcome; the output file is removed exactly when the file was sent |
| Handler.Attempt | format-converter-backend/src/routes/converter.py:189-259 | the `try` after staging: the reply, nothing existing touched, and the output added iff the branch leaves it |
| Handler.ConvertStaged | format-converter-backend/src/routes/converter.py:181-262 | stage, try and finally for the routed branch: the reply is `Reply` of that branch's outcome on the payload; the staged input is new, created first and removed last; old files are untouched; the output remains iff the branch leaves it; a download logs exactly six events |
| Handler.ExpectedOfStaged | format-converter-backend/src/routes/converter.py:175-262 | past the pre-checks, the response and what is left are those of the branch the chain picks for the upload's token, extension and form |
| Handler.HandleConversion | format-converter-backend/src/routes/converter.py:166-262 | the response is `Expected`. The pre-checks touch nothing. Old files are untouched. The staged input never survives. Only an output the request leaves can remain. A download's full event order is: create+write input, create+write output, remove output, remove input |
| HandlerFacts.StatusCodes | format-converter-backend/src/routes/converter.py:166-262 | the status is 200, 400 or 500 |
| HandlerFacts.PreChecksRefuse | format-converter-backend/src/routes/converter.py:168-173 | missing file and empty name give 400 with their own messages and leave nothing |
| HandlerFacts.BadRequestIff | format-converter-backend/src/routes/converter.py:168-256 | 400 iff a pre-check fails or the route assigns no output; a 400 carries one of the five fixed messages |
| HandlerFacts.ServerErrorShape | format-converter-backend/src/routes/converter.py:258-259 | a 500 comes only from a route with an output and its body starts with `转换失败: ` |
| HandlerFacts.ConverterFaultIsServerError | format-converter-backend/src/routes/converter.py:189-259 | any raised fault answers 500 with the prefix and its message; a converter fault before the output exists leaves nothing, one after it leaves the output |
| HandlerFacts.DownloadIff | format-converter-backend/src/routes/converter.py:251-259 | a download iff the branch produced content and `send_file` succeeded, with the name, type and body of that call; a failed `send_file` answers 500 and leaves the output |
| HandlerFacts.RefusalMessages | format-converter-backend/src/routes/converter.py:233-256 | an OCR token with a non-image extension gets its own 400 message; an unknown token, or a bidirectional token with neither direction's extension, gets the generic one |
| HandlerFacts.SuccessIdentity | format-converter-backend/src/routes/converter.py:251-254 | a download is named `converted_<id>.<suffix>` with the media type of its branch |
| HandlerFacts.RefusalIgnoresConverters | format-converter-backend/src/routes/converter.py:240-256 | a request with no output never reaches a converter: its response does not depend on them, and it leaves nothing |
| HandlerFacts.LeakOnlyOnServerError | format-converter-backend/src/routes/converter.py:251-262 | an output file remains only after a 500; a download leaves none |
| HandlerFacts.JsonScalarIsServerError | format-converter-backend/src/routes/converter.py:190-192 | a `.json` upload holding a scalar answers 500 `转换失败: JSON转CSV失败: JSON数据必须是对象数组或单个对象` and leaves no output |
| HandlerFacts.UndecodableJsonIsServerError | format-converter-backend/src/routes/converter.py:191 | an upload that is not UTF-8 fails before any output exists, with the decoder's message unprefixed by the converter |
| HandlerFacts.JsonToCsvDownload | format-converter-backend/src/routes/converter.py:190-197 | a non-empty JSON list downloads as `converted_<id>.csv`, `text/csv`, holding the BOM and the CSV text |

## Left out

- Flask itself is not modelled: the request objects, `jsonify`, the blueprint, and the HTTP layer. A request is the optional `file` field (name and bytes) plus the optional `target_format` field.
- `secure_filename`, `uuid.uuid4()`, and the temporary-file names are parameters or a free choice. These names come from code outside this module or from the operating system.
- The converters' internals and the libraries they call are parameters of `Handler.Library`: `markdown_to_docx`, `docx_to_markdown`, `convert_image_format`, the two OCR functions, `json.loads`, the CSV writer's quoting and `str()` of cells, `json.dumps`, and `send_file`'s streaming. Each may return or raise, except the three listed as never raising. For each, only the point where it creates its output file is modelled.
- JsonCsv.TableRoundTrip and JsonCsv.BomAwareRoundTrip require that some object has a field. When none does, as in `[{}]`, the header and every row are empty, and the reader skips the empty lines, so the objects are lost. This is what the code does too; `JsonCsv.FieldlessObjectsVanish` states it.
- Handler.Library: `secure_filename`, the CSV writer and `json.dumps` are modelled as never raising. A fault in one of them would be caught by the same `except` and answer 500; that case is not modelled.
- JsonCsv.TableRoundTrip and JsonCsv.BomAwareRoundTrip compare the read-back with the JSON values handed to the CSV writer, not with the text `csv.DictReader` returns. The source reads back every value as a string: `1` as `"1"`, `true` as `"True"`, and `null` as `""`. So the values come back equal in the source only for string fields.
- JsonCsv.Tabulation keeps CSV cells as JSON values. Turning them into text, including `None` written as the empty field, is the CSV writer's job, which lies outside this module.
- JsonCsv.Json numbers are integers. Floating point is not modelled.
- Registry.ToLower lower-cases ASCII only. Python's `lower()` also maps non-ASCII letters.
- JsonCsv.ReadRecords: records are unordered maps. The key order that `json.dumps` writes, which is the column order, is carried by the header handed to `Handler.Library.dumpJson`, and no lemma states anything about that text.
- JsonCsv.StripBom describes a first field name longer than the BOM. The line written for `[{}]` holds only the BOM. Decoded as `utf-8-sig`, it becomes an empty line, which the reader takes as no field at all, while StripBom keeps one empty field. This does not change any read-back, because every row under that header is empty and skipped (`JsonCsv.FieldlessObjectsVanish`). StripBom cannot return no field there: a header holding only the empty name reads as the same BOM-only line once the writer's quoting is left out, and the source reads that header back as one field.
- JsonCsv.Zip ignores cells beyond the header. `csv.DictReader` collects them under the key `None` (`restkey`), which a record keyed by strings cannot hold.
- Handler.HandleConversion does not model faults in `secure_filename`, in creating a temporary file, or in `file.save`. It also does not model a fault when writing the `.pdf` produced by OCR after that file was created. The text-mode newline translation of the output files is not modelled either.
- The registration of the HEIF image plugin is not modelled.
- The `video` entry is kept in `Registry.AllowedExtensions`; nothing in the route reads it. The commented-out `video-gif` branch is not modelled.
- Concurrency between requests is not modelled.

## Findings

| source | as written | input that shows it | evidently intended | confidence | as-written member | corrected member |
|---|---|---|---|---|---|---|
| format-converter-backend/src/routes/converter.py:68 | `json_to_csv` writes a BOM before the header. The route reads uploads with `encoding="utf-8"` (lines 191, 199), which keeps the BOM as a character, so `csv_to_json` on that file names the first field BOM+name | `[{"a": 1}]` converted to CSV and back gives `[{"\ufeffa": "1"}]` | a CSV file written by the service reads back with its own field names: decode with `utf-8-sig`, or drop a leading BOM before reading | not executed | JsonCsv.BomBreaksRoundTrip | JsonCsv.BomAwareRoundTrip |
