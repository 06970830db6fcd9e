/** Column conditioning: collecting every column of the decoded file into a
    dictionary keyed by data field, choosing the column to write for each
    field, and writing one new row group in schema order. */
module Conditioning {
  import opened Parquet
  import opened Failures

  /** The `originalData` dictionary from data field to the column read for it. */
  type ColumnMap = map<DataField, DataColumn>

  // ---------------------------------------------------------------------------
  // Reading columns
  // ---------------------------------------------------------------------------

  /** Reading the column of field `df`, the schema's j-th data field, from one
      row group: the library returns a column carrying `df` and the stored
      values, or throws when the row group has no chunk for it. */
  function ReadColumn(g: RowGroup, j: nat, df: DataField): (r: Result<DataColumn>)
    ensures r.Ok? <==> j < |g.chunks|
    ensures r.Ok? ==> r.value.field == df && r.value.values == g.chunks[j]
    ensures r.Err? ==> r.error == ColumnMissing(df)
  {
    if j < |g.chunks| then Ok(DataColumn(df, g.chunks[j])) else Err(ColumnMissing(df))
  }

  /** What the inner collection loop does from field j onwards, starting from
      dictionary `m`: read each field's column, then `Add` it, failing on a key
      that is already present. */
  function AddFields(m: ColumnMap, schema: seq<DataField>, g: RowGroup, j: nat): Result<ColumnMap>
    requires j <= |schema|
    decreases |schema| - j
  {
    if j == |schema| then Ok(m)
    else
      var df := schema[j];
      match ReadColumn(g, j, df)
      case Err(e) => Err(e)
      case Ok(column) =>
        if df in m then Err(DuplicateKey(df))
        else AddFields(m[df := column], schema, g, j + 1)
  }

  /** What the outer collection loop does from row group i onwards. */
  function AddGroups(m: ColumnMap, file: ParquetFile, i: nat): Result<ColumnMap>
    requires i <= |file.rowGroups|
    decreases |file.rowGroups| - i
  {
    if i == |file.rowGroups| then Ok(m)
    else
      match AddFields(m, file.schema, file.rowGroups[i], 0)
      case Err(e) => Err(e)
      case Ok(m') => AddGroups(m', file, i + 1)
  }

  /** The dictionary the collection builds from an empty one, or the exception it throws. */
  function Collected(file: ParquetFile): Result<ColumnMap>
  {
    AddGroups(map[], file, 0)
  }

  /** The nested collection loop: for every row group, for every data field
      of the schema, read the column and add it under its field. */
  method CollectColumns(file: ParquetFile) returns (r: Result<ColumnMap>)
    ensures r == Collected(file)
  {
    var originalData: ColumnMap := map[];
    var i := 0;
    while i < |file.rowGroups|
      invariant i <= |file.rowGroups|
      invariant AddGroups(originalData, file, i) == Collected(file)
    {
      var rowGroup := file.rowGroups[i];
      ghost var atGroupStart := originalData;
      var j := 0;
      while j < |file.schema|
        invariant j <= |file.schema|
        invariant AddFields(originalData, file.schema, rowGroup, j)
               == AddFields(atGroupStart, file.schema, rowGroup, 0)
      {
        var df := file.schema[j];
        var columnData := ReadColumn(rowGroup, j, df);
        if columnData.Err? {
          return Err(columnData.error);
        }
        if df in originalData {
          return Err(DuplicateKey(df));
        }
        originalData := originalData[df := columnData.value];
        j := j + 1;
      }
      i := i + 1;
    }
    return Ok(originalData);
  }

  /** Every entry is filed under a field of the schema, and the column stored
      there carries that same field. */
  ghost predicate Consistent(m: ColumnMap, schema: seq<DataField>)
  {
    forall k :: k in m ==> k in schema && m[k].field == k
  }

  lemma {:induction false} AddFieldsKeeps(m: ColumnMap, schema: seq<DataField>, g: RowGroup, j: nat)
    requires j <= |schema| && Consistent(m, schema)
    requires AddFields(m, schema, g, j).Ok?
    ensures var m' := AddFields(m, schema, g, j).value;
      && Consistent(m', schema)
      && (forall k :: k in m ==> k in m' && m'[k] == m[k])
      && (forall j' :: j <= j' < |schema| ==> schema[j'] in m')
      && (j < |schema| ==> |g.chunks| >= |schema|)
      && (forall j' :: j <= j' < |schema| && j' < |g.chunks| ==>
            m'[schema[j']] == DataColumn(schema[j'], g.chunks[j']))
    decreases |schema| - j
  {
    if j < |schema| {
      var column := ReadColumn(g, j, schema[j]).value;
      var m1 := m[schema[j] := column];
      assert AddFields(m, schema, g, j) == AddFields(m1, schema, g, j + 1);
      AddFieldsKeeps(m1, schema, g, j + 1);
    }
  }

  lemma {:induction false} AddGroupsKeeps(m: ColumnMap, file: ParquetFile, i: nat)
    requires i <= |file.rowGroups| && Consistent(m, file.schema)
    requires AddGroups(m, file, i).Ok?
    ensures var m' := AddGroups(m, file, i).value;
      && Consistent(m', file.schema)
      && (forall k :: k in m ==> k in m')
      && (i < |file.rowGroups| ==> forall j :: 0 <= j < |file.schema| ==> file.schema[j] in m')
      && (i == |file.rowGroups| ==> m' == m)
    decreases |file.rowGroups| - i
  {
    if i < |file.rowGroups| {
      AddFieldsKeeps(m, file.schema, file.rowGroups[i], 0);
      AddGroupsKeeps(AddFields(m, file.schema, file.rowGroups[i], 0).value, file, i + 1);
    }
  }

  /** A successful collection files every column under the field it was read
      for, and only under fields of the schema; it holds every data field as
      soon as the file has a row group, and nothing when it has none. */
  lemma CollectedColumnsMatchFields(file: ParquetFile)
    requires Collected(file).Ok?
    ensures var m := Collected(file).value;
      && (forall k :: k in m ==> k in file.schema && m[k].field == k)
      && (|file.rowGroups| > 0 ==> forall j :: 0 <= j < |file.schema| ==> file.schema[j] in m)
      && (|file.rowGroups| == 0 ==> m == map[])
  {
    AddGroupsKeeps(map[], file, 0);
  }

  lemma {:induction false} AddFieldsFresh(m: ColumnMap, schema: seq<DataField>, g: RowGroup, j: nat)
    requires j <= |schema| && |g.chunks| >= |schema|
    requires forall a, b :: j <= a < b < |schema| ==> schema[a] != schema[b]
    requires forall j' :: j <= j' < |schema| ==> schema[j'] !in m
    ensures AddFields(m, schema, g, j).Ok?
    ensures var m' := AddFields(m, schema, g, j).value;
      && (forall k :: k in m ==> k in m' && m'[k] == m[k])
      && (forall k :: k in m' ==> k in m || k in schema[j..])
      && (forall j' :: j <= j' < |schema| ==> schema[j'] in m' && m'[schema[j']] == DataColumn(schema[j'], g.chunks[j']))
    decreases |schema| - j
  {
    if j < |schema| {
      var m1 := m[schema[j] := DataColumn(schema[j], g.chunks[j])];
      AddFieldsFresh(m1, schema, g, j + 1);
      assert schema[j..] == [schema[j]] + schema[j + 1..];
    }
  }

  /** A well-formed file with a single row group collects without error: each
      data field maps to exactly the column stored for it, and nothing else is
      in the dictionary. */
  lemma CollectedSingleRowGroup(file: ParquetFile)
    requires WellFormed(file) && |file.rowGroups| == 1
    ensures Collected(file).Ok?
    ensures var m := Collected(file).value;
      && (forall k :: k in m <==> k in file.schema)
      && (forall j :: 0 <= j < |file.schema| ==>
            m[file.schema[j]] == DataColumn(file.schema[j], file.rowGroups[0].chunks[j]))
  {
    AddFieldsFresh(map[], file.schema, file.rowGroups[0], 0);
    var m1 := AddFields(map[], file.schema, file.rowGroups[0], 0).value;
    assert AddGroups(m1, file, 1) == Ok(m1);
    assert Collected(file) == Ok(m1);
    assert file.schema[0..] == file.schema;
  }

  /** A well-formed file with two or more row groups (and at least one data
      field) never collects: the first field of the second row group is added
      again and the dictionary rejects it. */
  lemma CollectedRejectsSecondRowGroup(file: ParquetFile)
    requires WellFormed(file) && |file.rowGroups| >= 2 && |file.schema| >= 1
    ensures Collected(file) == Err(DuplicateKey(file.schema[0]))
  {
    AddFieldsFresh(map[], file.schema, file.rowGroups[0], 0);
    var m1 := AddFields(map[], file.schema, file.rowGroups[0], 0).value;
    assert file.schema[0] in m1;
    assert AddFields(m1, file.schema, file.rowGroups[1], 0) == Err(DuplicateKey(file.schema[0]));
    assert Collected(file) == AddGroups(m1, file, 1);
  }

  /** Whatever the file, a collection that succeeds had at most one row group
      to read, unless the schema has no data field at all. */
  lemma CollectedAtMostOneRowGroup(file: ParquetFile)
    ensures Collected(file).Ok? && |file.schema| > 0 ==> |file.rowGroups| <= 1
  {
    if |file.rowGroups| > 1 && |file.schema| > 0 && AddFields(map[], file.schema, file.rowGroups[0], 0).Ok? {
      AddFieldsKeeps(map[], file.schema, file.rowGroups[0], 0);
      var m1 := AddFields(map[], file.schema, file.rowGroups[0], 0).value;
      assert file.schema[0] in m1;
      assert AddFields(m1, file.schema, file.rowGroups[1], 0).Err?;
      assert Collected(file) == AddGroups(m1, file, 1);
    }
  }

  // ---------------------------------------------------------------------------
  // Choosing and writing the conditioned columns
  // ---------------------------------------------------------------------------

  /** The fixed replacement data written for the `body` field: the 64-bit integers 1, 2, 3, 4. */
  const Replacement: seq<Value> := [Int64(1), Int64(2), Int64(3), Int64(4)]

  /** Upper-casing as an ordinal case-insensitive comparison does it, for ASCII letters. */
  function ToUpper(c: char): char
  {
    if 'a' <= c <= 'z' then (c as int - 32) as char else c
  }

  /** Ordinal, case-insensitive string equality. */
  predicate EqualsIgnoreCase(a: string, b: string)
  {
    |a| == |b| && forall i :: 0 <= i < |a| ==> ToUpper(a[i]) == ToUpper(b[i])
  }

  /** The transform rule's selector: the field is named "body", in any letter
      case. The names it accepts are exactly the sixteen letter-case spellings. */
  predicate IsBody(name: string)
    ensures IsBody(name) <==>
      && |name| == 4
      && (name[0] == 'b' || name[0] == 'B')
      && (name[1] == 'o' || name[1] == 'O')
      && (name[2] == 'd' || name[2] == 'D')
      && (name[3] == 'y' || name[3] == 'Y')
  {
    EqualsIgnoreCase(name, "body")
  }

  /** The column written for one data field: the replacement for `body`,
      otherwise the dictionary's entry, or null when it has none. */
  function ConditionedColumn(field: DataField, originalData: ColumnMap): (c: Option<DataColumn>)
    ensures c.None? <==> !IsBody(field.name) && field !in originalData
    ensures IsBody(field.name) ==> c.value.field == field && c.value.values == Replacement
    ensures !IsBody(field.name) && field in originalData ==> c.value == originalData[field]
  {
    if IsBody(field.name) then Some(DataColumn(field, Replacement))
    else if field in originalData then Some(originalData[field])
    else None
  }

  /** The columns of the new row group: one per data field, in schema order. */
  function ConditionedRowGroup(schema: seq<DataField>, originalData: ColumnMap): (columns: seq<Option<DataColumn>>)
    ensures |columns| == |schema|
    ensures forall j :: 0 <= j < |schema| ==> columns[j] == ConditionedColumn(schema[j], originalData)
  {
    if schema == [] then []
    else [ConditionedColumn(schema[0], originalData)] + ConditionedRowGroup(schema[1..], originalData)
  }

  /** The write loop: walk the schema's data fields, pick each field's column,
      write it to the one new row group and count it. */
  method WriteRowGroup(schema: seq<DataField>, originalData: ColumnMap)
    returns (written: seq<Option<DataColumn>>, count: int)
    ensures written == ConditionedRowGroup(schema, originalData)
    ensures count == |schema|
  {
    written := [];
    count := 0;
    var fields := schema;
    for k := 0 to |fields|
      invariant count == k == |written|
      invariant forall j :: 0 <= j < k ==> written[j] == ConditionedColumn(fields[j], originalData)
    {
      var column := ConditionedColumn(fields[k], originalData);
      written := written + [column];
      count := count + 1;
    }
  }

  /** A `body` field is given the four values 1, 2, 3, 4 under its own field,
      whatever was collected for it, or for anything else. */
  lemma BodyGetsReplacement(field: DataField, originalData: ColumnMap, other: ColumnMap)
    requires IsBody(field.name)
    ensures ConditionedColumn(field, originalData) == ConditionedColumn(field, other)
    ensures var c := ConditionedColumn(field, originalData);
      && c.Some? && c.value.field == field && |c.value.values| == 4
      && forall k :: 0 <= k < 4 ==> c.value.values[k] == Int64(k + 1)
  {
  }

  /** Every other field is written with the column collected from the file
      unchanged: the stored chunk when the file has its one row group, and
      null (the dictionary's default) when it has none. */
  lemma OtherFieldsPassThrough(file: ParquetFile, j: nat)
    requires Collected(file).Ok? && j < |file.schema| && !IsBody(file.schema[j].name)
    ensures var written := ConditionedRowGroup(file.schema, Collected(file).value)[j];
      && (|file.rowGroups| == 0 ==> written == None)
      && (|file.rowGroups| == 1 ==>
            j < |file.rowGroups[0].chunks| &&
            written == Some(DataColumn(file.schema[j], file.rowGroups[0].chunks[j])))
  {
    CollectedColumnsMatchFields(file);
    if |file.rowGroups| == 1 {
      AddFieldsKeeps(map[], file.schema, file.rowGroups[0], 0);
      var m1 := AddFields(map[], file.schema, file.rowGroups[0], 0).value;
      assert AddGroups(m1, file, 1) == Ok(m1);
      assert Collected(file) == Ok(m1);
    }
  }

  /** After a successful collection, every written column carries the schema
      field at its own position, and a null column is written exactly for a
      non-body field of a file without row groups. */
  lemma WrittenColumnsFollowSchema(file: ParquetFile)
    requires Collected(file).Ok?
    ensures var written := ConditionedRowGroup(file.schema, Collected(file).value);
      forall j :: 0 <= j < |file.schema| ==>
        && (written[j].Some? ==> written[j].value.field == file.schema[j])
        && (written[j].None? <==> !IsBody(file.schema[j].name) && |file.rowGroups| == 0)
  {
    CollectedColumnsMatchFields(file);
  }

  /** For a well-formed single-row-group file, the new row group holds the
      replacement for every `body` field and the stored column for every other. */
  lemma ConditionedSingleRowGroup(file: ParquetFile)
    requires WellFormed(file) && |file.rowGroups| == 1
    ensures Collected(file).Ok?
    ensures var written := ConditionedRowGroup(file.schema, Collected(file).value);
      forall j :: 0 <= j < |file.schema| ==>
        written[j] == Some(DataColumn(file.schema[j],
                                      if IsBody(file.schema[j].name) then Replacement
                                      else file.rowGroups[0].chunks[j]))
  {
    CollectedSingleRowGroup(file);
  }

  /** Nothing matches the replacement's length to the row count: when the
      single row group has other than four rows, the `body` column written
      disagrees in length with every other column written. */
  lemma ReplacementIgnoresRowCount(file: ParquetFile, b: nat, k: nat)
    requires WellFormed(file) && |file.rowGroups| == 1
    requires b < |file.schema| && k < |file.schema|
    requires IsBody(file.schema[b].name) && !IsBody(file.schema[k].name)
    requires |file.rowGroups[0].chunks[k]| != 4
    ensures Collected(file).Ok?
    ensures var written := ConditionedRowGroup(file.schema, Collected(file).value);
      && written[b].Some? && written[k].Some?
      && |written[b].value.values| == 4
      && |written[k].value.values| != |written[b].value.values|
  {
    ConditionedSingleRowGroup(file);
  }
}
