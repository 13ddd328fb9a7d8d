/** The generic CRUD service every entity service inherits. One service is
    bound to one named collection; the collection itself is modelled as the
    sequence of documents a query over it returns, each a store-assigned id
    and a body. Reads return a value or the failure the store raised;
    mutating operations return the next collection and an envelope and never
    let a failure escape. */
module FirestoreService {
  import opened Wrappers
  import opened Values
  import opened ResponseHandler

  /** One stored document: the id the store assigned and the fields it holds. */
  datatype Doc = Doc(storeId: string, body: Record)

  /** The documents of one collection, in query order. */
  type Collection = seq<Doc>

  /** A concrete entity service: the generic service plus a collection name. */
  datatype Service = Service(collectionName: string)

  const UsersService: Service := Service("users")
  const EventsService: Service := Service("events")
  const ScalesService: Service := Service("scales")
  const MinisterysService: Service := Service("ministerys")

  /** A value thrown by a store call: an `Error` object, or anything else. */
  datatype Thrown = Raised(error: Failure) | RaisedNonError(value: Value)

  /** What an awaited call produced: a value, or a thrown failure. */
  datatype Outcome<T> = Returned(value: T) | Threw(thrown: Thrown)

  /** The result of a mutating operation: the collection afterwards and the
      envelope handed back to the caller. */
  datatype Step = Step(coll: Collection, envelope: Envelope)

  /** The operation tags `handleCrudOperation` accepts. */
  type CrudOp = op: Op | op != GET witness POST

  const NotFoundMessage: string := "Documento não encontrado"
  const UnknownErrorMessage: string := "Erro desconhecido"

  /** The envelope status of every successful mutating operation. */
  const SuccessStatus: int := 200

  function StoreIds(c: Collection): set<string> {
    set i | 0 <= i < |c| :: c[i].storeId
  }

  /** The store never hands out one id twice. */
  predicate UniqueStoreIds(c: Collection) {
    forall i, j :: 0 <= i < j < |c| ==> c[i].storeId != c[j].storeId
  }

  /** The equality filter `where(field, '==', value)`: the body holds `field`
      and its value equals `value`. */
  predicate Matches(d: Doc, field: string, value: Value) {
    field in d.body && d.body[field] == value
  }

  predicate AnyMatch(c: Collection, field: string, value: Value) {
    exists i :: 0 <= i < |c| && Matches(c[i], field, value)
  }

  /** Document `i` is the first one in query order that passes the filter. */
  predicate IsFirstMatch(c: Collection, field: string, value: Value, i: int) {
    && 0 <= i < |c|
    && Matches(c[i], field, value)
    && forall j :: 0 <= j < i ==> !Matches(c[j], field, value)
  }

  /** `findByField`: the position of the first document whose `field` equals
      `value`, or None when the filtered query is empty. */
  function FindByField(c: Collection, field: string, value: Value): (r: Option<nat>)
    ensures r.None? <==> !AnyMatch(c, field, value)
    ensures r.Some? ==> IsFirstMatch(c, field, value, r.value)
  {
    if |c| == 0 then None
    else if Matches(c[0], field, value) then Some(0)
    else
      match FindByField(c[1..], field, value)
      case None =>
        assert forall i :: 0 < i < |c| ==> c[i] == c[1..][i - 1];
        None
      case Some(k) =>
        assert forall j :: 0 < j < k + 1 ==> c[j] == c[1..][j - 1];
        Some(k + 1)
  }

  /** The record a read hands back for a document: `{ id: doc.id, ...doc.data() }`. */
  function Merged(d: Doc): Record {
    WithId(Str(d.storeId), d.body)
  }

  /** `findAll`: one record per document, in the same order; each record holds
      every body field unchanged, plus `id`, which is the store id unless the
      body has an `id` field of its own. A failing `get` propagates. */
  function FindAll(c: Collection, getFault: Option<Thrown>): (r: Outcome<seq<Record>>)
    ensures getFault.Some? ==> r == Threw(getFault.value)
    ensures getFault.None? ==> r.Returned? && |r.value| == |c|
    ensures r.Returned? ==> forall i :: 0 <= i < |c| ==>
      && r.value[i].Keys == c[i].body.Keys + {IdField}
      && (forall k :: k in c[i].body ==> r.value[i][k] == c[i].body[k])
      && (IdField !in c[i].body ==> r.value[i][IdField] == Str(c[i].storeId))
  {
    if getFault.Some? then Threw(getFault.value)
    else Returned(seq(|c|, i requires 0 <= i < |c| => Merged(c[i])))
  }

  /** The shared shape of `findByID` and `findByPID`: the merged first match
      of a filtered query, or None. A failing query propagates. */
  function FindOne(c: Collection, field: string, value: Value, queryFault: Option<Thrown>): (r: Outcome<Option<Record>>)
    ensures queryFault.Some? ==> r == Threw(queryFault.value)
    ensures queryFault.None? ==> r.Returned?
    ensures r.Returned? ==> (r.value.None? <==> !AnyMatch(c, field, value))
    ensures r.Returned? && r.value.Some? ==>
      exists i :: IsFirstMatch(c, field, value, i) && r.value.value == Merged(c[i])
  {
    if queryFault.Some? then Threw(queryFault.value)
    else
      match FindByField(c, field, value)
      case None => Returned(None)
      case Some(i) => Returned(Some(Merged(c[i])))
  }

  /** `findByID`: looks the id up in the body field named `id` (not the store
      id). The record returned is the first match, and its `id` is the id
      asked for, because the matching body field overrides the store id. */
  function FindByID(c: Collection, id: Value, queryFault: Option<Thrown>): (r: Outcome<Option<Record>>)
    ensures queryFault.Some? ==> r == Threw(queryFault.value)
    ensures queryFault.None? ==> r.Returned?
    ensures r.Returned? ==> (r.value.None? <==> !AnyMatch(c, IdField, id))
    ensures r.Returned? && r.value.Some? ==>
      exists i :: IsFirstMatch(c, IdField, id, i) && r.value.value == Merged(c[i])
    ensures r.Returned? && r.value.Some? ==> IdField in r.value.value && r.value.value[IdField] == id
  {
    FindOne(c, IdField, id, queryFault)
  }

  /** `findByPID`: the first document whose `pid` field is `pid`, even when
      several documents share it. */
  function FindByPID(c: Collection, pid: string, queryFault: Option<Thrown>): (r: Outcome<Option<Record>>)
    ensures queryFault.Some? ==> r == Threw(queryFault.value)
    ensures queryFault.None? ==> r.Returned?
    ensures r.Returned? ==> (r.value.None? <==> !AnyMatch(c, "pid", Str(pid)))
    ensures r.Returned? && r.value.Some? ==>
      exists i :: IsFirstMatch(c, "pid", Str(pid), i) && r.value.value == Merged(c[i])
    ensures r.Returned? && r.value.Some? ==> "pid" in r.value.value && r.value.value["pid"] == Str(pid)
  {
    FindOne(c, "pid", Str(pid), queryFault)
  }

  /** The failure `handleCrudOperation` reports for a thrown value: an `Error`
      keeps its message, anything else becomes "Erro desconhecido". */
  function AsFailure(t: Thrown): (f: Failure)
    ensures t.Raised? ==> f == t.error
    ensures t.RaisedNonError? ==> f.message == UnknownErrorMessage
  {
    match t
    case Raised(e) => e
    case RaisedNonError(_) => Failure(UnknownErrorMessage)
  }

  /** `handleCrudOperation`: a returned value becomes a 200 success envelope
      for this service's collection; every thrown value becomes an error
      envelope. The status alone tells the two apart. */
  function HandleCrudOperation(svc: Service, op: CrudOp, outcome: Outcome<Value>): (e: Envelope)
    ensures outcome.Returned? ==> e == Success(op, svc.collectionName, SuccessStatus, Some(outcome.value))
    ensures outcome.Threw? ==> e == Error(op, AsFailure(outcome.thrown))
    ensures e.status == SuccessStatus <==> outcome.Returned?
    ensures e.status == ErrorStatus <==> outcome.Threw?
  {
    match outcome
    case Returned(v) => Success(op, svc.collectionName, SuccessStatus, Some(v))
    case Threw(t) => Error(op, AsFailure(t))
  }

  /** The error envelope of an update or delete whose target is missing. */
  function NotFoundEnvelope(op: CrudOp): (e: Envelope)
    ensures e.message == ErrorPrefix + op.Name()
    ensures e.status == ErrorStatus
    ensures e.data == Obj(map["error" := Str(NotFoundMessage)])
  {
    Error(op, Failure(NotFoundMessage))
  }

  /** `c` with `d` placed at position `pos`. */
  function Insert(c: Collection, pos: nat, d: Doc): (r: Collection)
    requires pos <= |c|
    ensures |r| == |c| + 1 && r[pos] == d
    ensures r[..pos] == c[..pos] && r[pos + 1..] == c[pos..]
    ensures forall k :: 0 <= k < pos ==> r[k] == c[k]
    ensures forall k :: pos < k < |r| ==> r[k] == c[k - 1]
  {
    var r := c[..pos] + [d] + c[pos..];
    assert r[..pos] == c[..pos];
    assert r[pos + 1..] == c[pos..];
    r
  }

  /** Inserting a document whose store id is not yet taken keeps store ids
      unique. */
  lemma {:induction false} InsertKeepsStoreIdsUnique(c: Collection, pos: nat, d: Doc)
    requires pos <= |c| && d.storeId !in StoreIds(c)
    ensures UniqueStoreIds(c) ==> UniqueStoreIds(Insert(c, pos, d))
  {
    var r := Insert(c, pos, d);
    forall i, j | UniqueStoreIds(c) && 0 <= i < j < |r|
      ensures r[i].storeId != r[j].storeId
    {
      var i0 := if i < pos then i else i - 1;
      var j0 := if j < pos then j else j - 1;
      if i == pos {
        assert r[j] == c[j0] && c[j0].storeId in StoreIds(c);
      } else if j == pos {
        assert r[i] == c[i0] && c[i0].storeId in StoreIds(c);
      } else {
        assert r[i] == c[i0] && r[j] == c[j0] && i0 < j0;
      }
    }
  }

  /** `create(data)`: `add` inserts one document with a fresh store id and
      exactly `data` as body. The store places it in query order by its id;
      that place is the parameter `pos`. The envelope's data is
      `{ id: newId, ...data }`. A failing `add` leaves the collection as it was. */
  function Create(svc: Service, c: Collection, data: Record, newId: string, pos: nat,
                  addFault: Option<Thrown>): (s: Step)
    requires newId !in StoreIds(c)
    requires pos <= |c|
    ensures addFault.Some? ==> s.coll == c && s.envelope == Error(POST, AsFailure(addFault.value))
    ensures addFault.None? ==> |s.coll| == |c| + 1
    ensures addFault.None? ==> s.coll[pos] == Doc(newId, data)
    ensures addFault.None? ==> forall k :: 0 <= k < pos ==> s.coll[k] == c[k]
    ensures addFault.None? ==> forall k :: pos < k < |s.coll| ==> s.coll[k] == c[k - 1]
    ensures addFault.None? ==> s.coll == Insert(c, pos, Doc(newId, data))
    ensures addFault.None? ==>
      s.envelope == Success(POST, svc.collectionName, SuccessStatus, Some(Obj(WithId(Str(newId), data))))
    ensures s.envelope.status == SuccessStatus <==> addFault.None?
    ensures UniqueStoreIds(c) ==> UniqueStoreIds(s.coll)
  {
    if addFault.Some? then
      Step(c, HandleCrudOperation(svc, POST, Threw(addFault.value)))
    else
      var c' := Insert(c, pos, Doc(newId, data));
      InsertKeepsStoreIdsUnique(c, pos, Doc(newId, data));
      Step(c', HandleCrudOperation(svc, POST, Returned(Obj(WithId(Str(newId), data)))))
  }

  /** Document `i` of `c'` is document `i` of `c` with `partial` merged into
      its body, and every other document is untouched. */
  predicate UpdatedAt(c: Collection, c': Collection, i: nat, partial: Record)
    requires i < |c|
  {
    && |c'| == |c|
    && c'[i].storeId == c[i].storeId
    && c'[i].body == PartialMerge(c[i].body, partial)
    && forall j :: 0 <= j < |c| && j != i ==> c'[j] == c[j]
  }

  /** `update(id, partialData)`: finds the first document whose body `id` is
      `id`. If there is none the collection is unchanged and the envelope is
      the "Documento não encontrado" error. Otherwise only that document's
      body is merged with `partialData`, and the envelope's data is
      `{ id, ...partialData }` built from the argument, not the store id. */
  function Update(svc: Service, c: Collection, id: Value, partial: Record,
                  queryFault: Option<Thrown>, writeFault: Option<Thrown>): (s: Step)
    ensures queryFault.Some? ==> s.coll == c && s.envelope == Error(PATCH, AsFailure(queryFault.value))
    ensures queryFault.None? && !AnyMatch(c, IdField, id) ==>
      s.coll == c && s.envelope == NotFoundEnvelope(PATCH)
    ensures queryFault.None? && AnyMatch(c, IdField, id) && writeFault.Some? ==>
      s.coll == c && s.envelope == Error(PATCH, AsFailure(writeFault.value))
    ensures s.envelope.status == SuccessStatus <==>
      queryFault.None? && writeFault.None? && AnyMatch(c, IdField, id)
    ensures s.envelope.status != SuccessStatus ==> s.coll == c
    ensures s.envelope.status == SuccessStatus ==>
      && FindByField(c, IdField, id).Some?
      && UpdatedAt(c, s.coll, FindByField(c, IdField, id).value, partial)
      && s.envelope == Success(PATCH, svc.collectionName, SuccessStatus, Some(Obj(WithId(id, partial))))
    ensures UniqueStoreIds(c) ==> UniqueStoreIds(s.coll)
  {
    if queryFault.Some? then
      Step(c, HandleCrudOperation(svc, PATCH, Threw(queryFault.value)))
    else
      match FindByField(c, IdField, id)
      case None =>
        Step(c, HandleCrudOperation(svc, PATCH, Threw(Raised(Failure(NotFoundMessage)))))
      case Some(i) =>
        if writeFault.Some? then
          Step(c, HandleCrudOperation(svc, PATCH, Threw(writeFault.value)))
        else
          var c' := c[i := Doc(c[i].storeId, PartialMerge(c[i].body, partial))];
          Step(c', HandleCrudOperation(svc, PATCH, Returned(Obj(WithId(id, partial)))))
  }

  /** `delete(id)`: removes the first document whose body `id` is `id` and
      nothing else, answering `{ id }`; with no such document it changes
      nothing and answers the "Documento não encontrado" error. */
  function Delete(svc: Service, c: Collection, id: Value,
                  queryFault: Option<Thrown>, writeFault: Option<Thrown>): (s: Step)
    ensures queryFault.Some? ==> s.coll == c && s.envelope == Error(DELETE, AsFailure(queryFault.value))
    ensures queryFault.None? && !AnyMatch(c, IdField, id) ==>
      s.coll == c && s.envelope == NotFoundEnvelope(DELETE)
    ensures queryFault.None? && AnyMatch(c, IdField, id) && writeFault.Some? ==>
      s.coll == c && s.envelope == Error(DELETE, AsFailure(writeFault.value))
    ensures s.envelope.status == SuccessStatus <==>
      queryFault.None? && writeFault.None? && AnyMatch(c, IdField, id)
    ensures s.envelope.status != SuccessStatus ==> s.coll == c
    ensures s.envelope.status == SuccessStatus ==>
      && FindByField(c, IdField, id).Some?
      && var i := FindByField(c, IdField, id).value;
      && s.coll == c[..i] + c[i + 1..]
      && s.envelope == Success(DELETE, svc.collectionName, SuccessStatus, Some(Obj(map[IdField := id])))
    ensures UniqueStoreIds(c) ==> UniqueStoreIds(s.coll)
  {
    if queryFault.Some? then
      Step(c, HandleCrudOperation(svc, DELETE, Threw(queryFault.value)))
    else
      match FindByField(c, IdField, id)
      case None =>
        Step(c, HandleCrudOperation(svc, DELETE, Threw(Raised(Failure(NotFoundMessage)))))
      case Some(i) =>
        if writeFault.Some? then
          Step(c, HandleCrudOperation(svc, DELETE, Threw(writeFault.value)))
        else
          var c' := c[..i] + c[i + 1..];
          assert forall j :: 0 <= j < |c'| ==> c'[j] == (if j < i then c[j] else c[j + 1]);
          Step(c', HandleCrudOperation(svc, DELETE, Returned(Obj(map[IdField := id]))))
  }
}
