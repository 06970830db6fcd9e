/** The decoded shape of a Parquet file, as the conditioning function sees it
    through the Parquet library: a schema of data fields and an ordered sequence
    of row groups, each holding one column chunk per data field. The byte
    format itself is not modelled. */
module Parquet {

  /** A value held in a column. Parquet's other physical and logical types are
      not told apart here; only the 64-bit integers the conditioning writes are. */
  datatype Value = Null | Int64(n: int) | Text(s: string)

  /** The CLR element type a data field declares. */
  datatype ClrType = Int64Type | StringType | OtherType(name: string)

  /** A leaf field of the schema. Used as a dictionary key, two fields are the
      same key exactly when they are equal values. */
  datatype DataField = DataField(name: string, clrType: ClrType)

  /** A column as read from, or handed to, the library: a field and its values. */
  datatype DataColumn = DataColumn(field: DataField, values: seq<Value>)

  /** One stored row group: chunks[j] holds the values of the schema's j-th data field. */
  datatype RowGroup = RowGroup(chunks: seq<seq<Value>>)

  datatype ParquetFile = ParquetFile(schema: seq<DataField>, rowGroups: seq<RowGroup>)

  /** The schema's data fields are pairwise distinct and every row group holds
      a chunk for each of them. */
  ghost predicate WellFormed(file: ParquetFile)
  {
    && (forall a, b :: 0 <= a < b < |file.schema| ==> file.schema[a] != file.schema[b])
    && (forall i :: 0 <= i < |file.rowGroups| ==> |file.rowGroups[i].chunks| >= |file.schema|)
  }
}
