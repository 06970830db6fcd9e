# Demo analytics pipeline: conditioning function

This project models, in Dafny, the `condition` function of the demo analytics
pipeline. An upload to the data lake's `raw` directory triggers the function.
The function then does these steps, in this order:

1. Opens the raw file.
2. Copies it to a local staging file.
3. Creates a file of the same name in the `conditioned` directory.
4. Decodes the staged Parquet file and collects every column into a dictionary keyed by data field.
5. Writes one new row group in which the `body` field is replaced by the values 1, 2, 3, 4.
6. Appends and flushes the result to the conditioned file.
7. Deletes the raw file.

Files:

- `parquet.dfy`: module `Parquet`, the decoded shape of a Parquet file. A schema is a sequence of data fields. A file holds row groups, and each row group holds one chunk of values per field.
- `failures.dfy`: module `Failures`, the exceptions a run can raise, plus `Result` and `Option`. `None` stands for a null column.
- `conditioning.dfy`: module `Conditioning`, the column work.
  - `CollectColumns` is the nested collection loop. It is proved equal to the specification function `Collected`, which fails on a duplicate key as `Dictionary.Add` does.
  - `ConditionedColumn` is the per-field choice. What it yields is stated by `BodyGetsReplacement`, `OtherFieldsPassThrough` and `WrittenColumnsFollowSchema`.
  - `WriteRowGroup` is the write loop. It is proved to produce `ConditionedRowGroup`.
  - The lemmas state what collection and writing yield.
- `run.dfy`: module `ConditioningRun`, the run's order of steps and its failure policy.
  - The class `DataLake` holds the raw directory, the conditioned directory and the log.
  - Its `Run` method performs the steps in the source's order. Which abstract steps throw is given by `Faults`.
  - `Run` is proved equal to the specification function `RunEffect`. The lemmas about `RunEffect` state which failures escape, which are swallowed, and what then remains in each directory.

Where the code behaves differently from the stricter contract one might expect of such a pipeline, the model follows the code:

- One might expect the raw file to be deleted only after a confirmed publish. The code catches a failed append or flush, logs it, and deletes the raw file anyway (`RawDeletedEvenWhenPublishFails`).
- One might expect a failed decode to create nothing. The code creates the conditioned file before decoding, so a decode failure leaves an empty file behind (`FailureAfterCreateLeavesEmptyFile`).
- One might expect creation to fail when the conditioned file already exists. The data lake's create call overwrites instead, and the model does the same.
- One might expect every row group to be transformed. The code collects columns into one dictionary across all row groups, so a file with two or more row groups throws a duplicate-key exception (`CollectedRejectsSecondRowGroup`).

## Model

| member | source | states |
|---|---|---|
| Conditioning.CollectColumns | DemoConditioningApp/DemoConditioningFxn.cs:88-104 | The nested loop over row groups and data fields returns exactly `Collected(file)`: the filled dictionary, or the first read or duplicate-key exception in loop order |
| Conditioning.CollectedColumnsMatchFields | DemoConditioningApp/DemoConditioningFxn.cs:98-101 | After a successful collection, every key is a schema field, and its column carries that same field. All data fields are present once there is a row group; the dictionary is empty when there is none |
| Conditioning.CollectedSingleRowGroup | DemoConditioningApp/DemoConditioningFxn.cs:94-104 | A well-formed file with one row group collects without error. Each data field maps to exactly its stored chunk, and no other key is present |
| Conditioning.CollectedRejectsSecondRowGroup | DemoConditioningApp/DemoConditioningFxn.cs:88-104 | A well-formed file with at least two row groups and one data field fails with a duplicate key on the schema's first field |
| Conditioning.CollectedAtMostOneRowGroup | DemoConditioningApp/DemoConditioningFxn.cs:94-104 | For any file whose schema has a data field, a successful collection implies at most one row group |
| Conditioning.ConditionedRowGroup | DemoConditioningApp/DemoConditioningFxn.cs:117-131 | The new row group has one column per schema data field, in schema order, and position j holds the column chosen for field j |
| Conditioning.WriteRowGroup | DemoConditioningApp/DemoConditioningFxn.cs:114-132 | The write loop, counting as it goes, produces exactly `ConditionedRowGroup`, and its count equals the number of data fields |
| Conditioning.IsBody | DemoConditioningApp/DemoConditioningFxn.cs:121 | The ordinal ignore-case test against "body" accepts a name if and only if it is one of the sixteen letter-case spellings of "body" |
| Conditioning.BodyGetsReplacement | DemoConditioningApp/DemoConditioningFxn.cs:121-123 | A `body` field gets a column of its own field holding exactly the four values 1, 2, 3, 4, whatever the dictionary holds |
| Conditioning.OtherFieldsPassThrough | DemoConditioningApp/DemoConditioningFxn.cs:125-128 | After a successful collection, a non-body field is written with the chunk stored for it when the file has one row group, and as null (the dictionary's default) when the file has none |
| Conditioning.WrittenColumnsFollowSchema | DemoConditioningApp/DemoConditioningFxn.cs:100-131 | After a successful collection, each non-null written column carries the schema field at its position. A null column is written exactly for a non-body field of a file with no row groups |
| Conditioning.ConditionedSingleRowGroup | DemoConditioningApp/DemoConditioningFxn.cs:94-131 | For a well-formed file with one row group, the new row group holds the replacement for each `body` field and the stored chunk for every other field |
| Conditioning.ReplacementIgnoresRowCount | DemoConditioningApp/DemoConditioningFxn.cs:123 | Nothing compares the replacement with the row count. With a row count other than four, the written `body` column has 4 values and every other written column has a different length |
| ConditioningRun.DataLake.Run | DemoConditioningApp/DemoConditioningFxn.cs:47-166 | Performing the steps in the source's order, the outcome and the new directories and log are exactly `RunEffect` of the old state |
| ConditioningRun.ReturnsIffReachesPublish | DemoConditioningApp/DemoConditioningFxn.cs:67-165 | The run returns normally if and only if open, stage, create, decode, collection and encode all succeed and no column handed to the writer is null, whatever append, flush and delete do |
| ConditioningRun.EscapingFailureSkipsDelete | DemoConditioningApp/DemoConditioningFxn.cs:67-134 | An exception that escapes leaves the raw directory and the log unchanged, because the delete is never reached |
| ConditioningRun.FailureBeforeCreateChangesNothing | DemoConditioningApp/DemoConditioningFxn.cs:66-80 | A missing raw file, or a failure to open, stage or create, throws and changes nothing |
| ConditioningRun.FailureAfterCreateLeavesEmptyFile | DemoConditioningApp/DemoConditioningFxn.cs:80-134 | Creation comes before decoding, so a decode, collection or encode failure throws and leaves an empty conditioned file, replacing any earlier one. Nothing else changes |
| ConditioningRun.RawDeletedEvenWhenPublishFails | DemoConditioningApp/DemoConditioningFxn.cs:140-160 | A failed append or flush is only logged. The raw file is then deleted, and the run returns with the conditioned file empty |
| ConditioningRun.DeleteFailureIsOnlyLogged | DemoConditioningApp/DemoConditioningFxn.cs:158-165 | A failed delete is only logged and the run returns normally. The raw directory is unchanged, the conditioned file is flushed with what the writer was given (or empty if append or flush failed), and the log gains exactly the append-failure message if publishing failed, then the delete-failure message |
| ConditioningRun.SuccessfulRunPublishes | DemoConditioningApp/DemoConditioningFxn.cs:111-160 | With no fault, the conditioned file is flushed with what the writer was given: the schema and one new row group with a non-null column per data field, each carrying its field. The raw file is removed and no failure message is logged |
| ConditioningRun.PublishedContentOfSingleRowGroup | DemoConditioningApp/DemoConditioningFxn.cs:88-160 | End to end, for a well-formed one-row-group file with no fault: the new row group the writer is given, and that is flushed, has `[1,2,3,4]` for `body` and the original chunk for every other field, in schema order |
| ConditioningRun.SeveralRowGroupsNeverPublish | DemoConditioningApp/DemoConditioningFxn.cs:80-104 | A well-formed file with several row groups throws a duplicate key before any column is written. The raw file stays, and the conditioned file is left empty |
| ConditioningRun.NullColumnNeverPublished | DemoConditioningApp/DemoConditioningFxn.cs:125-130 | For a file without row groups that has a non-body field, the null column handed to the writer makes it throw; the raw file stays and the conditioned file is left empty |
| ConditioningRun.OtherFilesUntouched | DemoConditioningApp/DemoConditioningFxn.cs:66-160 | A run changes no file other than its own, in either directory |
| ConditioningRun.RedeliveryAfterDeleteFails | DemoConditioningApp/DemoConditioningFxn.cs:66-67 | After a run that returned and deleted the raw file, a second run for the same name throws `RawMissing` and changes nothing |

## Left out

- The Parquet byte format is not modelled; the decoder and encoder are abstract. A raw file is either `ParquetBlob(file)`, which decodes to `file`, or `Unreadable`, which makes decoding throw.
- The writer is abstract. A null column handed to it is taken to make it throw (`EncodeFailed`). Any other exception from it is the `encode` fault. This covers the library's possible rejection of a replacement whose element type differs from the field's, and of columns whose row counts differ. Which of these the library rejects is not part of this model.
- The writer is opened in the library's append mode on the staged copy. The model does not capture what that mode does with the row groups already in the staged file. `WrittenFile` records only the schema and the one row group this code hands to the writer. The published bytes may also contain the staged file's own row groups, original `body` values included; the model does not say they do not.
- Data lake calls (open, create, append, flush, delete) are abstract steps that succeed or throw, as given by `Faults`. Create overwrites an existing file of the same name. Appended data is not visible until a flush succeeds.
- A raw file that disappears between the open and the delete cannot occur in this sequential model. A delete fails only through the `delete` fault.
- Not modelled: the fixed local staging name `temp.parquet` and collisions between concurrent runs, async/await, stream positioning, and the trigger's stream argument (used only to log its length).
- Not modelled: configuration lookup and `GetDataLakeServiceClient`.
- The log keeps only the two information messages written in the catch blocks for a failed append or flush (DemoConditioningApp/DemoConditioningFxn.cs:149) and a failed delete (line 164). It drops the information message every run writes on entry (line 50), and the exception text of each message.
- `DemoEventTestApp/DemoMessage.cs` is not part of this model. It is an Event Hub producer with no conditioning logic.
- Conditioning.ReadColumn: the library's `ReadColumnAsync` is reduced to returning the j-th stored chunk of the row group under the requested field; a row group too short to hold that chunk throws `ColumnMissing`. What the read promises is stated through `CollectedColumnsMatchFields`, `CollectedSingleRowGroup` and `AddFieldsKeeps` rather than by the function itself.
- Conditioning.EqualsIgnoreCase: folds only ASCII letters. For the one comparison the code makes, against "body", no other character upper-cases to B, O, D or Y, so `IsBody` is unaffected.
- Column values distinguish only 64-bit integers and strings. A data field is a name plus a declared type, and two fields are the same dictionary key exactly when these are equal.
