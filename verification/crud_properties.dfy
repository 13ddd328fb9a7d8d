/** Properties that relate several CRUD operations to each other: what a read
    observes after a write, and what a second write observes after a first. */
module CrudProperties {
  import opened Wrappers
  import opened Values
  import opened ResponseHandler
  import opened FirestoreService

  /** At most one document has `value` in its `field`. */
  predicate UniqueMatch(c: Collection, field: string, value: Value) {
    forall i, j :: 0 <= i < |c| && 0 <= j < |c| && Matches(c[i], field, value) && Matches(c[j], field, value) ==> i == j
  }

  /** `findByID` returns exactly the record `findAll` lists at the position of
      the first document carrying that id. */
  lemma FindByIDAgreesWithFindAll(c: Collection, id: Value)
    requires AnyMatch(c, IdField, id)
    ensures FindByField(c, IdField, id).Some?
    ensures FindByID(c, id, None).Returned? && FindByID(c, id, None).value.Some?
    ensures FindByID(c, id, None).value.value == FindAll(c, None).value[FindByField(c, IdField, id).value]
  {
  }

  /** `findAll` lists each document as its merged record, in place. */
  lemma FindAllLists(c: Collection)
    ensures FindAll(c, None).Returned? && |FindAll(c, None).value| == |c|
    ensures forall k :: 0 <= k < |c| ==> FindAll(c, None).value[k] == Merged(c[k])
  {
  }

  /** The record a successful `create` reports is the one `findAll` lists for
      the new document at its place; the old records are listed unchanged
      around it. */
  lemma CreateThenFindAll(svc: Service, c: Collection, data: Record, newId: string, pos: nat)
    requires newId !in StoreIds(c) && pos <= |c|
    ensures var s := Create(svc, c, data, newId, pos, None);
      var before := FindAll(c, None).value;
      && s.envelope.data.Obj?
      && FindAll(s.coll, None).value == before[..pos] + [s.envelope.data.fields] + before[pos..]
  {
    var s := Create(svc, c, data, newId, pos, None);
    FindAllLists(c);
    FindAllLists(s.coll);
    var before := FindAll(c, None).value;
    var after := FindAll(s.coll, None).value;
    var expected := before[..pos] + [s.envelope.data.fields] + before[pos..];
    assert |expected| == |after|;
    forall k | 0 <= k < |after|
      ensures after[k] == expected[k]
    {
      if k < pos {
        assert expected[k] == before[k];
        assert s.coll[k] == c[k];
      } else if k == pos {
        assert expected[k] == s.envelope.data.fields;
      } else {
        assert expected[k] == before[k - 1];
        assert s.coll[k] == c[k - 1];
      }
    }
  }

  /** `findByID`, `update` and `delete` read the body field `id`, not the
      store id: a document created without an `id` field of its own is not
      found, updated or deleted by the store id `create` reported for it. */
  lemma CreatedDocumentNotFoundByStoreId(svc: Service, c: Collection, data: Record, newId: string, pos: nat,
                                         partial: Record, writeFault: Option<Thrown>)
    requires newId !in StoreIds(c) && pos <= |c|
    requires IdField !in data
    requires !AnyMatch(c, IdField, Str(newId))
    ensures var s := Create(svc, c, data, newId, pos, None);
      && s.envelope.data == Obj(WithId(Str(newId), data))
      && FindByID(s.coll, Str(newId), None) == Returned(None)
      && Update(svc, s.coll, Str(newId), partial, None, writeFault) == Step(s.coll, NotFoundEnvelope(PATCH))
      && Delete(svc, s.coll, Str(newId), None, writeFault) == Step(s.coll, NotFoundEnvelope(DELETE))
  {
    var c' := Create(svc, c, data, newId, pos, None).coll;
    forall k | 0 <= k < |c'|
      ensures !Matches(c'[k], IdField, Str(newId))
    {
      if k < pos {
        assert c'[k] == c[k];
      } else if k > pos {
        assert c'[k] == c[k - 1];
      }
    }
  }

  /** A document created with a `pid` nobody else has is what `findByPID`
      finds next, wherever the store places it. */
  lemma CreateThenFindByPID(svc: Service, c: Collection, data: Record, newId: string, pos: nat, pid: string)
    requires newId !in StoreIds(c) && pos <= |c|
    requires "pid" in data && data["pid"] == Str(pid)
    requires !AnyMatch(c, "pid", Str(pid))
    ensures var s := Create(svc, c, data, newId, pos, None);
      && s.envelope.data.Obj?
      && FindByPID(s.coll, pid, None) == Returned(Some(s.envelope.data.fields))
  {
    var c' := Create(svc, c, data, newId, pos, None).coll;
    assert forall k :: 0 <= k < pos ==> c'[k] == c[k];
    assert IsFirstMatch(c', "pid", Str(pid), pos);
  }

  /** The first match is unique, so it is what `findByField` returns. */
  lemma FirstMatchIsFound(c: Collection, field: string, value: Value, i: nat)
    requires IsFirstMatch(c, field, value, i)
    ensures FindByField(c, field, value) == Some(i)
  {
  }

  /** Inserting a matching document at or before the first match makes it
      the first match. */
  lemma InsertMatchFirst(c: Collection, pos: nat, d: Doc, field: string, value: Value)
    requires pos <= |c| && Matches(d, field, value)
    requires AnyMatch(c, field, value) ==> pos <= FindByField(c, field, value).value
    ensures FindByField(Insert(c, pos, d), field, value) == Some(pos)
  {
    var c' := Insert(c, pos, d);
    forall k | 0 <= k < pos
      ensures !Matches(c'[k], field, value)
    {
      assert c'[k] == c[k];
    }
    FirstMatchIsFound(c', field, value, pos);
  }

  /** Inserting a document after the first match `i`, or one that does not
      match, leaves the first match where it was (shifted by one when the
      insertion lies in front of it). */
  lemma InsertKeepsFirstMatch(c: Collection, pos: nat, d: Doc, field: string, value: Value, i: nat)
    requires pos <= |c| && FindByField(c, field, value) == Some(i)
    requires i < pos || !Matches(d, field, value)
    ensures FindByField(Insert(c, pos, d), field, value) == Some(if i < pos then i else i + 1)
  {
    var c' := Insert(c, pos, d);
    var j := if i < pos then i else i + 1;
    assert c'[j] == c[i];
    forall k | 0 <= k < j
      ensures !Matches(c'[k], field, value)
    {
      if k < pos {
        assert c'[k] == c[k];
      } else if k > pos {
        assert c'[k] == c[k - 1];
      }
    }
    FirstMatchIsFound(c', field, value, j);
  }

  /** `findByPID` answers the merged document `findByField` located. */
  lemma FindByPIDFound(c: Collection, pid: string, i: nat)
    requires FindByField(c, "pid", Str(pid)) == Some(i)
    ensures i < |c| && FindByPID(c, pid, None) == Returned(Some(Merged(c[i])))
  {
  }

  /** A new document whose `pid` is already taken is what `findByPID` finds
      when the store places it at or before the earlier first match. */
  lemma CreateDuplicatePIDPlacedFirst(svc: Service, c: Collection, data: Record, newId: string, pos: nat, pid: string)
    requires newId !in StoreIds(c) && pos <= |c|
    requires "pid" in data && data["pid"] == Str(pid)
    requires AnyMatch(c, "pid", Str(pid))
    requires pos <= FindByField(c, "pid", Str(pid)).value
    ensures var s := Create(svc, c, data, newId, pos, None);
      && s.envelope.data.Obj?
      && FindByField(s.coll, "pid", Str(pid)) == Some(pos)
      && FindByPID(s.coll, pid, None) == Returned(Some(s.envelope.data.fields))
  {
    var s := Create(svc, c, data, newId, pos, None);
    InsertMatchFirst(c, pos, Doc(newId, data), "pid", Str(pid));
  }

  /** Otherwise (the new document is placed after the earlier first match
      `i`, or carries another `pid`) `findByPID` still finds the earlier
      document, at its possibly shifted place. */
  lemma CreateDuplicatePIDShadowed(svc: Service, c: Collection, data: Record, newId: string, pos: nat, pid: string, i: nat)
    requires newId !in StoreIds(c) && pos <= |c|
    requires FindByField(c, "pid", Str(pid)) == Some(i)
    requires i < pos || !("pid" in data && data["pid"] == Str(pid))
    ensures FindByField(Create(svc, c, data, newId, pos, None).coll, "pid", Str(pid)) == Some(if i < pos then i else i + 1)
    ensures FindByPID(Create(svc, c, data, newId, pos, None).coll, pid, None) == FindByPID(c, pid, None)
  {
    var c' := Create(svc, c, data, newId, pos, None).coll;
    InsertKeepsFirstMatch(c, pos, Doc(newId, data), "pid", Str(pid), i);
    var j := if i < pos then i else i + 1;
    assert c'[j] == c[i];
    FindByPIDFound(c, pid, i);
    FindByPIDFound(c', pid, j);
  }

  /** After a successful `update` that keeps the document's `id`, `findByID`
      sees the merged body: fields in the update have their new values and
      all other fields keep their old ones. */
  lemma UpdateThenFindByID(svc: Service, c: Collection, id: Value, partial: Record)
    requires AnyMatch(c, IdField, id)
    requires IdField in partial ==> partial[IdField] == id
    ensures var i := FindByField(c, IdField, id).value;
      var r := FindByID(Update(svc, c, id, partial, None, None).coll, id, None);
      && r.Returned? && r.value.Some?
      && r.value.value == WithId(Str(c[i].storeId), PartialMerge(c[i].body, partial))
      && (forall k :: k in partial ==> r.value.value[k] == partial[k])
      && (forall k :: k in c[i].body && k !in partial ==> r.value.value[k] == c[i].body[k])
  {
  }

  /** An `update` that rewrites the `id` field of the only document carrying
      `id` makes that id unreachable afterwards. */
  lemma UpdateOfIdFieldHidesDocument(svc: Service, c: Collection, id: Value, partial: Record)
    requires AnyMatch(c, IdField, id) && UniqueMatch(c, IdField, id)
    requires IdField in partial && partial[IdField] != id
    ensures FindByID(Update(svc, c, id, partial, None, None).coll, id, None) == Returned(None)
  {
  }

  /** After deleting the only document carrying `id`, `findByID` finds nothing. */
  lemma DeleteThenFindByID(svc: Service, c: Collection, id: Value)
    requires AnyMatch(c, IdField, id) && UniqueMatch(c, IdField, id)
    ensures FindByID(Delete(svc, c, id, None, None).coll, id, None) == Returned(None)
  {
  }

  /** Deleting twice is not silently accepted: the second `delete` of a
      unique id answers the not-found error and changes nothing. */
  lemma DeleteTwice(svc: Service, c: Collection, id: Value, writeFault: Option<Thrown>)
    requires AnyMatch(c, IdField, id) && UniqueMatch(c, IdField, id)
    ensures var c' := Delete(svc, c, id, None, None).coll;
      Delete(svc, c', id, None, writeFault) == Step(c', NotFoundEnvelope(DELETE))
  {
  }

  /** `delete` removes only the first document carrying `id`: when another one
      follows it, that one is what the id finds afterwards. */
  lemma DeleteRemovesOnlyFirstMatch(svc: Service, c: Collection, id: Value, i: nat, j: nat)
    requires IsFirstMatch(c, IdField, id, i)
    requires i < j < |c| && Matches(c[j], IdField, id)
    requires forall k :: i < k < j ==> !Matches(c[k], IdField, id)
    ensures FindByField(Delete(svc, c, id, None, None).coll, IdField, id) == Some(j - 1)
    ensures FindByID(Delete(svc, c, id, None, None).coll, id, None) == Returned(Some(Merged(c[j])))
  {
    FirstMatchIsFound(c, IdField, id, i);
    var c' := Delete(svc, c, id, None, None).coll;
    assert c' == c[..i] + c[i + 1..];
    forall k | 0 <= k < j - 1
      ensures !Matches(c'[k], IdField, id)
    {
      if k < i {
        assert c'[k] == c[k];
      } else {
        assert c'[k] == c[k + 1];
      }
    }
    assert c'[j - 1] == c[j];
    FirstMatchIsFound(c', IdField, id, j - 1);
  }

  /** Creating `{ name: "João" }` in the users collection answers
      `{ message: "Sucesso na operação: POST de users", status: 200,
         data: { id: <new id>, name: "João" } }`. */
  lemma CreateUserScenario(c: Collection, newId: string, pos: nat)
    requires newId !in StoreIds(c) && pos <= |c|
    ensures Create(UsersService, c, map["name" := Str("João")], newId, pos, None).envelope
         == Envelope("Sucesso na operação: POST de users", 200,
                     Obj(map["id" := Str(newId), "name" := Str("João")]))
  {
  }

  /** Updating an id nobody has answers
      `{ message: "Erro na operação: PATCH", status: 500,
         data: { error: "Documento não encontrado" } }` and changes nothing. */
  lemma UpdateMissingScenario(c: Collection, id: Value, partial: Record)
    requires !AnyMatch(c, IdField, id)
    ensures Update(UsersService, c, id, partial, None, None)
         == Step(c, Envelope("Erro na operação: PATCH", 500,
                             Obj(map["error" := Str("Documento não encontrado")])))
  {
  }
}
