# pdfWeApi record store and form fill, modelled in Dafny

This project models the logic of a small web service. The service keeps key/value records in a CSV file. It copies those records onto the named fields of a fixed PDF form template. The model covers the five algorithms in the service's request handlers:

- **Record shape selection** (`Records`). A file's header row picks one of two record classes. The rich class has `Field`, `Section`, `Notes`, `PdfPage` and `DataType`. The plain class has `Field` and `Value`.
- **Upsert of the record list** (`Upsert`, `DataEndpoint`). This is the write behind `POST /data`. A payload with no record is refused. Two or more records replace the stored list. A single record replaces the first stored record with the same `Field`, or is appended. `DataEndpoint` adds the write lock and the file rewrite around the upsert.
- **Form fill** (`FormFill`). This is the loop of `POST /pdf`. The value records, in stored order, set the template fields they name.
- **Renaming of unnamed fields** (`FormFields`). This is the loop of `POST /renameFields`. The k-th field with an empty name becomes `UnnamedField<k>`. The module also models the field-name listing of `GET /pdf/Fields`.
- **Row projection** (`RowProjection`). This is the read behind `GET /data`. Each data line becomes a map from every header name to that line's cell.

The merge, the fill, the renaming, the listing and the row projection are Dafny methods with loop invariants. Each method is proved equal to a specification function, or its contract states the property outright. Lemmas prove what the source promises about those functions. The loop that copies a JSON array's records into the incoming list (Program.cs:120-123) is modelled by the function `Upsert.IncomingRecords`.

Three behaviours of the code worth knowing:

- A header with no `Value` column selects the rich `Field/Section/Notes/PdfPage/DataType` shape. This includes a header with no recognisable column at all. The plain shape is not the fallback.
- A single-record upsert replaces the whole matching record. It does not copy only its `Value` and `Notes`.
- Renaming does not check synthetic names against existing names, and a second run does not continue an earlier counter. `FormFields.RenameMayCollide` shows such a collision.

## Model

| member | source | states |
|---|---|---|
| `Records.ShapeOf` | Program.cs:343-353 | The plain Field/Value shape is chosen exactly when some header column is named "Value". Every other header gets the rich shape, the empty header included. |
| `Records.ShapeOfColumns` | Models/CsvDataModel.cs:8-23 | The header written for a shape (its class's properties in order) selects that same shape when the file is read again. |
| `Upsert.IncomingRecords` | Program.cs:116-130 | A JSON array yields its records in order. A single object yields exactly that record. The result is empty only for the empty array. |
| `Upsert.FirstMatch` | Program.cs:152 | Returns the index of the first record whose Field equals the key, or None exactly when no record has that key. |
| `Upsert.FindFirst` | Program.cs:152-156 | The search loop returns the same index as `FirstMatch`. |
| `Upsert.Upsert` | Program.cs:132-164 | The imperative merge (clear and re-add, replace at the index, or append) returns exactly the specified outcome `Upserted`. |
| `Upsert.RejectedIffEmpty` | Program.cs:132 | The write is refused exactly when the payload is the empty array. |
| `Upsert.SingleObjectAsArray` | Program.cs:116-130 | A single object and a one-element array make the same write. |
| `Upsert.BatchReplaces` | Program.cs:141-148 | With two or more incoming records, the stored list becomes the incoming list exactly, in the given order, whatever it held before. |
| `Upsert.SingleReplacesFirstMatch` | Program.cs:151-158 | With one incoming record whose Field some stored record has, the first such record is replaced by the incoming record at the same index. The length and every other position are unchanged. |
| `Upsert.SingleAppends` | Program.cs:159-163 | With one incoming record whose Field no stored record has, the record is appended: the length grows by one and the old list is the prefix. |
| `Upsert.SingleKeepsFieldsUnique` | Program.cs:150-164 | If the stored Fields are distinct, a single-record write keeps them distinct. |
| `Upsert.BatchMayDuplicateFields` | Program.cs:141-148 | A batch write can store two records with the same Field, because nothing checks the incoming keys. |
| `Upsert.UpdateExistingScenario` | Program.cs:151-158 | Writing age=31 into [name=Alice, age=30] gives [name=Alice, age=31], in the same order and with the same row count. |
| `DataEndpoint.PostDataAsWritten` | Program.cs:99-132 | As written, a rejected write leaves the file untouched but leaves the write lock taken. BadRequest happens exactly for the empty array when the lock is free. |
| `DataEndpoint.RejectedWriteStallsNextRequest` | Program.cs:99-132 | As written, after a POST /data with an empty array, the next POST /data request, whatever its payload, waits on the lock forever. |
| `Upsert.UpsertedDrawsFromInputs` | Program.cs:141-164 | Every record an accepted write stores was either in the stored list or in the payload. |
| `DataEndpoint.PostDataKeepsShape` | Program.cs:108-136 | When the stored rows and the payload's records are of the class the header selects, the file after the write holds only records of the class its new header selects. |
| `DataEndpoint.PostData` | Program.cs:99-173 | With the lock released on every path: a request on a free lock leaves it free and never waits. A rejected write leaves the file as it was. BadRequest happens exactly for the empty array. |
| `DataEndpoint.PostAllNeverStalls` | Program.cs:99-172 | For any sequence of requests handled one after another from a free lock, none waits forever and the lock ends free. |
| `DataEndpoint.AcceptedWriteRewritesFile` | Program.cs:104-170 | A non-empty payload is accepted. The file then holds exactly the upsert's result under the header of the shape its old header selected, and that shape is kept on the next read. |
| `FormFill.Fill` | Program.cs:260-266 | The fill loop over the records in stored order computes exactly the left fold `Filled`. |
| `FormFill.FilledKeys` | Program.cs:260-266 | The fill keeps the template's set of field names unchanged. |
| `FormFill.FilledValue` | Program.cs:260-266 | A field that no record names keeps its prior value. Otherwise it ends with the Value of the last record, in list order, whose Field equals its name. |
| `FormFill.UnmatchedRecordIgnored` | Program.cs:262 | A record whose Field names no template field has no effect on the result, wherever it stands in the list. |
| `FormFields.RenameUnnamed` | Program.cs:303-312 | The counter loop gives exactly `Renamed`: the k-th empty name becomes "UnnamedField" + k (counter from 1, one step per unnamed field), and other names are kept. |
| `FormFields.RenamedShape` | Program.cs:303-312 | Renaming keeps the field count and every non-empty name, and leaves no empty name. |
| `FormFields.RenameIdempotent` | Program.cs:303-312 | A second pass over the renamed names changes nothing. |
| `FormFields.SyntheticNamesDistinct` | Program.cs:306-308 | Two different unnamed fields in one run never receive the same synthetic name. |
| `FormFields.DecimalStringInjective` | Program.cs:308 | Different counter values are written as different decimal texts. |
| `FormFields.RenameMayCollide` | Program.cs:306-310 | A synthetic name can repeat an existing name: ["UnnamedField1", ""] becomes ["UnnamedField1", "UnnamedField1"]. |
| `FormFields.RenameScenario` | Program.cs:303-312 | The fields A, (unnamed), B become A, UnnamedField1, B. |
| `FormFields.ListFieldNames` | Program.cs:327-331 | The listing returns every field name, empty ones included, in enumeration order. |
| `RowProjection.FirstIndex` | Program.cs:76 | A by-name cell lookup uses the first column that carries the name. |
| `RowProjection.ProjectLine` | Program.cs:73-78 | A data line becomes a map whose keys are exactly the header names. Each key maps to the line's cell in that name's column, or to null when the line is too short. |
| `RowProjection.ProjectFile` | Program.cs:68-80 | The read fails exactly when there is no header line. Otherwise each data line gives one projected record, in file order, and the header line is not emitted. |
| `RowProjection.ProjectionUnique` | Program.cs:73-78 | The projected record is determined by the header and the line. |
| `RowProjection.RepeatedHeaderReadsFirstColumn` | Program.cs:74-77 | A header name that appears twice reads the cell of its first column. |

## Findings

| source | as written | input that shows it | evidently intended | confidence | as-written member | corrected member |
|---|---|---|---|---|---|---|
| Program.cs:99-132 | The write lock is taken at line 99. The BadRequest return at line 132 leaves without reaching the release at line 172. Any exception between those lines leaks the permit the same way, for example a missing file (101), an undecodable body (119, 128) or a null single record against a non-empty list (152). | A POST of `[]` to /data, then any other POST to /data: the second request waits forever. | The lock is released on every path (try/finally), so neither a rejected write nor a failed one blocks later writes. The model covers the rejecting path. | high (by reading; not executed) | `DataEndpoint.PostDataAsWritten` | `DataEndpoint.PostData` |

## Left out

- HTTP hosting, routing, OpenAPI and Scalar setup, static file serving and service registration: plumbing with no logic.
- CSV reading and writing (CsvHelper): lines come as already split cells, and records come as already decoded values. Quoting, blank-line skipping and the conversion of records to cells are library behaviour.
- JSON decoding (Newtonsoft): the payload is already decoded into records of the file's shape. Null records are not modelled. A `null` body, sent as the single record, fails on a null reference at line 152 when the stored list is non-empty. Against an empty stored list, the null record is appended (162) and handed to the writer (169). A null inside a batch of two or more is only copied (141-148).
- Upsert.FirstMatch: keys are never null in the model. In the source, a JSON record without a `Field` property, or with `"Field": null`, has a null key. A null key matches no stored key that is non-null, and stored keys are non-null whenever the header has a `Field` column; then the record is appended (162) and written as an empty cell. Against a file whose header has no `Field` column, every stored key is null, so a null key replaces the first row (157). Repeating the same write appends again, because the stored key now reads back as the empty string, not null.
- PDF reading and writing and AcroForm access (iText): the template's fields are a map from name to value for the fill, and a sequence of names in enumeration order for the renaming and the listing.
- FormFields.RenameUnnamed: the names model allows any number of empty names. The source's field collection is a name-keyed dictionary, so it holds at most one.
- FormFields.RenameUnnamed: the counter is unbounded here. The source's 32-bit `int` would wrap only after 2^31 - 1 unnamed fields.
- FormFill.Fill: the fill reads the value file with the library's default settings, so a file without a `Value` column fails header validation before the loop. The model takes the rows already read as value records.
- The base64 download of the filled PDF (`GET /pdf/base64`): file I/O and a library encoder, with no logic of its own.
- Concurrency: only the sequential effect of the write lock's single permit is modelled. Readers that do not take the lock and the non-atomic overwrite of the file are not modelled.
- I/O failures (a missing or unreadable file) and the fixed file paths: the model takes file contents as parameters.
- The commented-out handlers: dead code.
