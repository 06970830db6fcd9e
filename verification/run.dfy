/** One run of the conditioning function for one uploaded file: open the raw
    file, stage it locally, create the conditioned file, decode, collect,
    write the new row group, publish it with append and flush, then delete
    the raw file. Storage calls and the Parquet codec are abstract steps that
    either succeed or throw; which of them throw is given by `Faults`. */
module ConditioningRun {
  import opened Parquet
  import opened Failures
  import opened Conditioning

  /** The content of a raw file as the Parquet reader sees it. */
  datatype Blob = ParquetBlob(file: ParquetFile) | Unreadable

  /** What the Parquet writer is given: the schema and the one new row group.
      A `None` column is a null column reference. The bytes the writer
      produces from it are not modelled. */
  datatype WrittenFile = WrittenFile(schema: seq<DataField>, rowGroup: seq<Option<DataColumn>>)

  /** A file in the conditioned directory: created and still empty, or flushed
      with the encoding of what the writer was given. Appended data is not
      visible until a flush succeeds. */
  datatype ConditionedFile = Empty | Flushed(content: WrittenFile)

  /** The two information messages logged for swallowed exceptions. */
  datatype FailureMessage = AppendFailed | DeleteFailed

  /** Which abstract steps throw in this run (true: the step throws). */
  datatype Faults = Faults(open: bool, stage: bool, create: bool, encode: bool,
                           append: bool, flush: bool, delete: bool)

  /** How `Run` ends: it returns, or an exception escapes it. */
  datatype Outcome = Returned | Threw(error: Error)

  /** The observable state: the raw and conditioned directories and the log,
      reduced to the two failure messages (the message every run logs on entry
      is left out). */
  datatype Lake = Lake(raw: map<string, Blob>, conditioned: map<string, ConditionedFile>,
                       log: seq<FailureMessage>)

  datatype RunResult = RunResult(outcome: Outcome, after: Lake)

  /** The effect of one run, step by step as the function performs them. */
  function RunEffect(before: Lake, filename: string, faults: Faults): RunResult
  {
    if filename !in before.raw then RunResult(Threw(RawMissing), before)
    else if faults.open then RunResult(Threw(OpenFailed), before)
    else if faults.stage then RunResult(Threw(StageFailed), before)
    else if faults.create then RunResult(Threw(CreateFailed), before)
    else
      var created := before.(conditioned := before.conditioned[filename := Empty]);
      match before.raw[filename]
      case Unreadable => RunResult(Threw(DecodeFailed), created)
      case ParquetBlob(file) =>
        match Collected(file)
        case Err(e) => RunResult(Threw(e), created)
        case Ok(originalData) =>
          var columns := ConditionedRowGroup(file.schema, originalData);
          if faults.encode || None in columns then RunResult(Threw(EncodeFailed), created)
          else
            var written := WrittenFile(file.schema, columns);
            var published :=
              if faults.append || faults.flush then created.(log := created.log + [AppendFailed])
              else created.(conditioned := created.conditioned[filename := Flushed(written)]);
            if faults.delete then RunResult(Returned, published.(log := published.log + [DeleteFailed]))
            else RunResult(Returned, published.(raw := published.raw - {filename}))
  }

  /** The run gets as far as publishing: open, stage, create, decode,
      collection and encode all succeed, and no column handed to the writer
      is null. */
  predicate ReachesPublish(before: Lake, filename: string, faults: Faults)
  {
    && filename in before.raw
    && !faults.open && !faults.stage && !faults.create && !faults.encode
    && before.raw[filename].ParquetBlob?
    && Collected(before.raw[filename].file).Ok?
    && var file := before.raw[filename].file;
       None !in ConditionedRowGroup(file.schema, Collected(file).value)
  }

  /** The data lake the function works on, with the failure messages it logs. */
  class DataLake {
    var raw: map<string, Blob>
    var conditioned: map<string, ConditionedFile>
    var log: seq<FailureMessage>

    function State(): Lake
      reads this
    {
      Lake(raw, conditioned, log)
    }

    constructor (raw: map<string, Blob>, conditioned: map<string, ConditionedFile>)
      ensures State() == Lake(raw, conditioned, [])
    {
      this.raw := raw;
      this.conditioned := conditioned;
      this.log := [];
    }

    /** One invocation for the uploaded file `filename`. */
    method Run(filename: string, faults: Faults) returns (outcome: Outcome)
      modifies this
      ensures RunResult(outcome, State()) == RunEffect(old(State()), filename, faults)
    {
      // Open the raw file for reading.
      if filename !in raw {
        return Threw(RawMissing);
      }
      if faults.open {
        return Threw(OpenFailed);
      }
      var staged := raw[filename];
      // Copy it to the local staging file.
      if faults.stage {
        return Threw(StageFailed);
      }
      // Create (or overwrite) the file in the conditioned directory.
      if faults.create {
        return Threw(CreateFailed);
      }
      conditioned := conditioned[filename := Empty];
      // Decode the staged copy and collect its columns.
      if staged.Unreadable? {
        return Threw(DecodeFailed);
      }
      var file := staged.file;
      var originalData := CollectColumns(file);
      if originalData.Err? {
        return Threw(originalData.error);
      }
      // Write the one new row group to the staging file; the writer throws
      // on a null column as on any other encoding failure.
      var columns, count := WriteRowGroup(file.schema, originalData.value);
      if faults.encode || None in columns {
        return Threw(EncodeFailed);
      }
      var written := WrittenFile(file.schema, columns);
      // Publish: append then flush; a failure of either is logged only.
      if faults.append || faults.flush {
        log := log + [AppendFailed];
      } else {
        conditioned := conditioned[filename := Flushed(written)];
      }
      // Delete the raw file; a failure is logged only.
      if faults.delete {
        log := log + [DeleteFailed];
      } else {
        raw := raw - {filename};
      }
      return Returned;
    }
  }

  // ---------------------------------------------------------------------------
  // The failure policy, stated over RunEffect
  // ---------------------------------------------------------------------------

  /** The run returns normally exactly when every step before the publish
      succeeded, whatever the append, flush and delete do. */
  lemma ReturnsIffReachesPublish(before: Lake, filename: string, faults: Faults)
    ensures RunEffect(before, filename, faults).outcome.Returned?
        <==> ReachesPublish(before, filename, faults)
  {
  }

  /** An exception that escapes the run is thrown before the delete: the raw
      directory and the log are as they were. */
  lemma EscapingFailureSkipsDelete(before: Lake, filename: string, faults: Faults)
    ensures var r := RunEffect(before, filename, faults);
      r.outcome.Threw? ==> r.after.raw == before.raw && r.after.log == before.log
  {
  }

  /** A failure to open, stage or create changes nothing at all. */
  lemma FailureBeforeCreateChangesNothing(before: Lake, filename: string, faults: Faults)
    requires filename !in before.raw || faults.open || faults.stage || faults.create
    ensures var r := RunEffect(before, filename, faults);
      r.outcome.Threw? && r.after == before
  {
  }

  /** Because the conditioned file is created before decoding, a decode,
      collection or encode failure escapes and leaves an empty conditioned
      file behind, replacing any earlier file of that name. */
  lemma FailureAfterCreateLeavesEmptyFile(before: Lake, filename: string, faults: Faults)
    requires filename in before.raw && !faults.open && !faults.stage && !faults.create
    requires !ReachesPublish(before, filename, faults)
    ensures var r := RunEffect(before, filename, faults);
      && r.outcome.Threw?
      && r.after == before.(conditioned := before.conditioned[filename := Empty])
  {
  }

  /** A failed append or flush is only logged, and the raw file is deleted
      anyway: the run returns normally with the raw file gone and the
      conditioned file empty, so the data survives in neither. */
  lemma RawDeletedEvenWhenPublishFails(before: Lake, filename: string, faults: Faults)
    requires ReachesPublish(before, filename, faults)
    requires (faults.append || faults.flush) && !faults.delete
    ensures var r := RunEffect(before, filename, faults);
      && r.outcome == Returned
      && filename !in r.after.raw
      && r.after.conditioned[filename] == Empty
      && r.after.log == before.log + [AppendFailed]
  {
  }

  /** A failed delete is only logged: the run returns normally, the raw file
      stays where it was, the conditioned file holds whatever the publish left
      there, and the log ends with the delete-failure message. */
  lemma DeleteFailureIsOnlyLogged(before: Lake, filename: string, faults: Faults)
    requires ReachesPublish(before, filename, faults) && faults.delete
    ensures var r := RunEffect(before, filename, faults);
      var file := before.raw[filename].file;
      var published := faults.append || faults.flush;
      && r.outcome == Returned
      && r.after.raw == before.raw
      && r.after.conditioned == before.conditioned[filename :=
           if published then Empty
           else Flushed(WrittenFile(file.schema, ConditionedRowGroup(file.schema, Collected(file).value)))]
      && r.after.log == before.log + (if published then [AppendFailed] else []) + [DeleteFailed]
  {
  }

  /** When nothing throws, the conditioned file is flushed with what the
      writer was given: the schema and one new row group holding a non-null
      column for each data field, carrying that field. The raw file is gone. */
  lemma SuccessfulRunPublishes(before: Lake, filename: string, faults: Faults)
    requires ReachesPublish(before, filename, faults)
    requires !faults.append && !faults.flush && !faults.delete
    ensures var r := RunEffect(before, filename, faults);
      var file := before.raw[filename].file;
      && r.outcome == Returned
      && r.after.raw == before.raw - {filename}
      && r.after.log == before.log
      && filename in r.after.conditioned && r.after.conditioned[filename].Flushed?
      && var content := r.after.conditioned[filename].content;
         && content.schema == file.schema
         && |content.rowGroup| == |file.schema|
         && forall j :: 0 <= j < |file.schema| ==>
              content.rowGroup[j].Some? && content.rowGroup[j].value.field == file.schema[j]
  {
    var file := before.raw[filename].file;
    WrittenColumnsFollowSchema(file);
  }

  /** End to end, for a well-formed raw file with one row group and no fault:
      the row group the writer is given, and that is flushed, holds the
      replacement for `body` and the stored column for every other field. */
  lemma PublishedContentOfSingleRowGroup(before: Lake, filename: string, faults: Faults)
    requires filename in before.raw && before.raw[filename].ParquetBlob?
    requires var file := before.raw[filename].file; WellFormed(file) && |file.rowGroups| == 1
    requires faults == Faults(false, false, false, false, false, false, false)
    ensures var r := RunEffect(before, filename, faults);
      var file := before.raw[filename].file;
      && r.outcome == Returned
      && filename in r.after.conditioned && r.after.conditioned[filename].Flushed?
      && var rowGroup := r.after.conditioned[filename].content.rowGroup;
         && |rowGroup| == |file.schema|
         && forall j :: 0 <= j < |file.schema| ==>
              rowGroup[j] == Some(DataColumn(file.schema[j],
                                             if IsBody(file.schema[j].name) then Replacement
                                             else file.rowGroups[0].chunks[j]))
  {
    ConditionedSingleRowGroup(before.raw[filename].file);
  }

  /** A well-formed raw file with several row groups is never conditioned:
      the collection throws a duplicate key before any column is written, and
      the raw file stays while the conditioned file is left empty. */
  lemma SeveralRowGroupsNeverPublish(before: Lake, filename: string, faults: Faults)
    requires filename in before.raw && before.raw[filename].ParquetBlob?
    requires var file := before.raw[filename].file;
      WellFormed(file) && |file.rowGroups| >= 2 && |file.schema| >= 1
    requires !faults.open && !faults.stage && !faults.create
    ensures var r := RunEffect(before, filename, faults);
      var file := before.raw[filename].file;
      && r.outcome == Threw(DuplicateKey(file.schema[0]))
      && r.after.raw == before.raw
      && r.after.conditioned[filename] == Empty
  {
    CollectedRejectsSecondRowGroup(before.raw[filename].file);
  }

  /** A file without row groups collects nothing, so every non-body field is
      handed to the writer as a null column; the writer throws, the raw file
      stays and the conditioned file is left empty. */
  lemma NullColumnNeverPublished(before: Lake, filename: string, faults: Faults, j: nat)
    requires filename in before.raw && before.raw[filename].ParquetBlob?
    requires var file := before.raw[filename].file;
      |file.rowGroups| == 0 && j < |file.schema| && !IsBody(file.schema[j].name)
    requires !faults.open && !faults.stage && !faults.create
    ensures var r := RunEffect(before, filename, faults);
      && r.outcome == Threw(EncodeFailed)
      && r.after.raw == before.raw
      && r.after.conditioned[filename] == Empty
  {
    var file := before.raw[filename].file;
    OtherFieldsPassThrough(file, j);
    assert ConditionedRowGroup(file.schema, Collected(file).value)[j] == None;
  }

  /** A run touches no file but its own in either directory. */
  lemma OtherFilesUntouched(before: Lake, filename: string, faults: Faults, name: string)
    requires name != filename
    ensures var r := RunEffect(before, filename, faults);
      && (name in r.after.raw <==> name in before.raw)
      && (name in before.raw ==> r.after.raw[name] == before.raw[name])
      && (name in r.after.conditioned <==> name in before.conditioned)
      && (name in before.conditioned ==> r.after.conditioned[name] == before.conditioned[name])
  {
  }

  /** A trigger delivered again after a run that deleted the raw file finds
      nothing to open: the second run throws and changes nothing. */
  lemma RedeliveryAfterDeleteFails(before: Lake, filename: string, first: Faults, second: Faults)
    requires RunEffect(before, filename, first).outcome.Returned? && !first.delete
    ensures var mid := RunEffect(before, filename, first).after;
      RunEffect(mid, filename, second) == RunResult(Threw(RawMissing), mid)
  {
  }
}
