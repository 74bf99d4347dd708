/** The record shapes shared by the stores and the permission services
    (internal/models/document.go). */
module Models {
  import opened Wrappers

  /** A 128-bit UUID, viewed as its numeric value; `Nil` is the all-zero UUID. */
  newtype Uuid = x: int | 0 <= x < 0x1_0000_0000_0000_0000_0000_0000_0000_0000

  const Nil: Uuid := 0

  /** The dynamic type of a JSON-decoded metadata value, as far as the
      permission code inspects it: a string, a Go `int`, a `float64` (kept as
      its IEEE bits), or anything else. */
  datatype MetaValue = MString(s: string) | MInt(i: int) | MFloat(bits: bv64) | MOther

  /** A document; the embedding is a sequence of IEEE-754 single-precision bit
      patterns. */
  datatype Document = Document(
    id: Uuid,
    title: string,
    content: string,
    metadata: map<string, MetaValue>,
    embedding: seq<bv32>)

  /** `doc.Metadata["taxpayer"].(string)`: the taxpayer when it is present and
      a string. */
  function Taxpayer(doc: Document): (r: Option<string>)
    ensures r.Some? <==> "taxpayer" in doc.metadata && doc.metadata["taxpayer"].MString?
    ensures r.Some? ==> r.value == doc.metadata["taxpayer"].s
  {
    if "taxpayer" in doc.metadata && doc.metadata["taxpayer"].MString?
    then Some(doc.metadata["taxpayer"].s)
    else None
  }
}
