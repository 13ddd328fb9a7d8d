/** The response formatter: the one place that turns the outcome of an
    operation into the `{ message, status, data }` envelope. Both builders are
    pure functions of their arguments; no state is kept between calls. */
module ResponseHandler {
  import opened Wrappers
  import opened Values

  /** The operation kinds the formatter accepts. */
  datatype Op = GET | POST | PATCH | DELETE {
    /** The tag as it appears inside a message. */
    function Name(): string {
      match this
      case GET => "GET"
      case POST => "POST"
      case PATCH => "PATCH"
      case DELETE => "DELETE"
    }
  }

  /** An `Error` object; only its message is ever read. */
  datatype Failure = Failure(message: string)

  /** The response envelope returned to callers of a mutating operation. */
  datatype Envelope = Envelope(message: string, status: int, data: Value)

  const SuccessPrefix: string := "Sucesso na operação: "
  const EntitySeparator: string := " de "
  const ErrorPrefix: string := "Erro na operação: "

  /** The status every error envelope carries. */
  const ErrorStatus: int := 500

  /** `success(operation, entityName, status, data = {})`. An omitted (or
      undefined) `data` is `None` and becomes the empty object. */
  function Success(op: Op, entityName: string, status: int, data: Option<Value>): (e: Envelope)
    ensures e.message == SuccessPrefix + op.Name() + EntitySeparator + entityName
    ensures e.status == status
    ensures data.Some? ==> e.data == data.value
    ensures data.None? ==> e.data == EmptyObject
  {
    Envelope(SuccessPrefix + op.Name() + EntitySeparator + entityName, status, data.GetOr(EmptyObject))
  }

  /** `error(operation, error)`: the message names only the operation, the
      status is always 500 and the data is `{ error: error.message }`. */
  function Error(op: Op, error: Failure): (e: Envelope)
    ensures e.message == ErrorPrefix + op.Name()
    ensures e.status == ErrorStatus
    ensures e.data.Obj? && e.data.fields.Keys == {"error"} && e.data.fields["error"] == Str(error.message)
  {
    Envelope(ErrorPrefix + op.Name(), ErrorStatus, Obj(map["error" := Str(error.message)]))
  }

  /** Strips `op.Name() + " de "` from the front of `rest`, if it is there. */
  function StripOp(op: Op, rest: string): Option<string> {
    var head := op.Name() + EntitySeparator;
    if |head| <= |rest| && rest[..|head|] == head then Some(rest[|head|..]) else None
  }

  /** Reads the operation and entity name back out of a success message. */
  function ParseSuccessMessage(msg: string): Option<(Op, string)> {
    if |SuccessPrefix| <= |msg| && msg[..|SuccessPrefix|] == SuccessPrefix then
      var rest := msg[|SuccessPrefix|..];
      if StripOp(GET, rest).Some? then Some((GET, StripOp(GET, rest).value))
      else if StripOp(POST, rest).Some? then Some((POST, StripOp(POST, rest).value))
      else if StripOp(PATCH, rest).Some? then Some((PATCH, StripOp(PATCH, rest).value))
      else if StripOp(DELETE, rest).Some? then Some((DELETE, StripOp(DELETE, rest).value))
      else None
    else None
  }

  /** Reads the operation back out of an error message. */
  function ParseErrorMessage(msg: string): Option<Op> {
    if |ErrorPrefix| <= |msg| && msg[..|ErrorPrefix|] == ErrorPrefix then
      var rest := msg[|ErrorPrefix|..];
      if rest == GET.Name() then Some(GET)
      else if rest == POST.Name() then Some(POST)
      else if rest == PATCH.Name() then Some(PATCH)
      else if rest == DELETE.Name() then Some(DELETE)
      else None
    else None
  }

  /** No operation tag is a prefix-with-separator of a different one's. */
  lemma StripOtherOpFails(op: Op, other: Op, entityName: string)
    requires op != other
    ensures StripOp(other, op.Name() + EntitySeparator + entityName) == None
  {
    var rest := op.Name() + EntitySeparator + entityName;
    var head := other.Name() + EntitySeparator;
    if |head| <= |rest| {
      // The tags differ in their first character, or (POST, PATCH) in their second.
      var k := if op.Name()[0] != other.Name()[0] then 0 else 1;
      assert rest[k] == op.Name()[k] && head[k] == other.Name()[k];
      assert rest[..|head|][k] != head[k];
    }
  }

  /** A success message determines the operation and entity it was built from. */
  lemma {:induction false} SuccessMessageRoundTrip(op: Op, entityName: string, status: int, data: Option<Value>)
    ensures ParseSuccessMessage(Success(op, entityName, status, data).message) == Some((op, entityName))
  {
    var msg := Success(op, entityName, status, data).message;
    var rest := op.Name() + EntitySeparator + entityName;
    assert msg == SuccessPrefix + rest;
    assert msg[..|SuccessPrefix|] == SuccessPrefix;
    assert msg[|SuccessPrefix|..] == rest;
    var head := op.Name() + EntitySeparator;
    assert rest[..|head|] == head;
    assert rest[|head|..] == entityName;
    forall other: Op | other != op
      ensures StripOp(other, rest) == None
    {
      StripOtherOpFails(op, other, entityName);
    }
  }

  /** An error message determines the operation it was built from. */
  lemma ErrorMessageRoundTrip(op: Op, error: Failure)
    ensures ParseErrorMessage(Error(op, error).message) == Some(op)
  {
  }

  /** Two success envelopes carry the same message only when they report the
      same operation on the same entity. */
  lemma SuccessMessageInjective(op1: Op, entity1: string, status1: int, data1: Option<Value>,
                                op2: Op, entity2: string, status2: int, data2: Option<Value>)
    requires Success(op1, entity1, status1, data1).message == Success(op2, entity2, status2, data2).message
    ensures op1 == op2 && entity1 == entity2
  {
    SuccessMessageRoundTrip(op1, entity1, status1, data1);
    SuccessMessageRoundTrip(op2, entity2, status2, data2);
  }

  /** A success message is never mistaken for an error message, whatever the
      status the caller passed. */
  lemma SuccessAndErrorMessagesDiffer(op1: Op, entityName: string, status: int, data: Option<Value>,
                                      op2: Op, error: Failure)
    ensures Success(op1, entityName, status, data).message != Error(op2, error).message
  {
  }

  /** The error envelope depends on the operation and the failure's message
      only: its status never varies and its message never names the failure. */
  lemma ErrorIgnoresFailureInMessage(op: Op, e1: Failure, e2: Failure, other: Op)
    ensures Error(op, e1).message == Error(op, e2).message
    ensures Error(op, e1).status == Error(other, e2).status == 500
    ensures e1.message == e2.message ==> Error(op, e1) == Error(op, e2)
  {
  }
}
