/** JSON-like values (no dates, timestamps or NaN) for document bodies and
    envelope data, and the two ways records are combined: object
    spread with a prepended `id` and the store's partial (top-level) merge. */
module Values {

  /** A schemaless value. Numbers are modelled as mathematical integers. */
  datatype Value =
    | Null
    | Bool(b: bool)
    | Num(n: int)
    | Str(s: string)
    | Arr(elems: seq<Value>)
    | Obj(fields: map<string, Value>)

  /** A document body or a plain object: field name to value. */
  type Record = map<string, Value>

  /** The object literal `{}`. */
  const EmptyObject: Value := Obj(map[])

  /** The field name the service treats as a record's identifier. */
  const IdField: string := "id"

  /** `{ id: id, ...body }`. Spread copies every field of `body` after `id`
      has been written, so a body that has its own `id` field overrides the
      prepended one. */
  function WithId(id: Value, body: Record): (r: Record)
    ensures r.Keys == body.Keys + {IdField}
    ensures forall k :: k in body ==> r[k] == body[k]
    ensures IdField !in body ==> r[IdField] == id
  {
    map[IdField := id] + body
  }

  /** A partial update of a stored body: every field of `partial` is written,
      every other field of `body` is kept as it was. */
  function PartialMerge(body: Record, partial: Record): (r: Record)
    ensures r.Keys == body.Keys + partial.Keys
    ensures forall k :: k in partial ==> r[k] == partial[k]
    ensures forall k :: k in body && k !in partial ==> r[k] == body[k]
  {
    body + partial
  }
}
