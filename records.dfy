/**
  The two record shapes of the record file (the classes CsvDataModelField and
  CsvDataModelValue) and the choice between them made from a file's header row.
*/
module Records {

  /** One row of the record file, in one of the two shapes. */
  datatype Record =
    | FieldRecord(field: string, section: string, notes: string, pdfPage: string, dataType: string)
    | ValueRecord(field: string, value: string)

  /** A record read as the plain key/value shape, as the form fill reads the record file. */
  type ValueRow = r: Record | r.ValueRecord? witness ValueRecord("", "")

  /** Which of the two record classes a file's rows are decoded into. */
  datatype Shape = FieldShape | ValueShape

  /** The header row written for a shape: its class's properties in declaration order. */
  function Columns(shape: Shape): seq<string>
  {
    match shape
    case FieldShape => ["Field", "Section", "Notes", "PdfPage", "DataType"]
    case ValueShape => ["Field", "Value"]
  }

  /** True when a record is of the class a shape names. */
  predicate HasShape(r: Record, shape: Shape)
  {
    match shape
    case FieldShape => r.FieldRecord?
    case ValueShape => r.ValueRecord?
  }

  /**
    getDataModelType: the plain shape exactly when some header column is named
    "Value"; every other header, the empty one included, gets the rich shape.
  */
  function ShapeOf(header: seq<string>): (shape: Shape)
    ensures shape == ValueShape <==> exists i :: 0 <= i < |header| && header[i] == "Value"
    ensures shape == FieldShape <==> forall i :: 0 <= i < |header| ==> header[i] != "Value"
  {
    if "Value" in header then ValueShape else FieldShape
  }

  /** The header a shape writes selects that same shape again when the file is next read. */
  lemma ShapeOfColumns(shape: Shape)
    ensures ShapeOf(Columns(shape)) == shape
  {
  }
}
