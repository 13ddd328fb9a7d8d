# Generic Firestore CRUD service: a Dafny model

This project models the core of the conexao_jovem_api backend. That core is the
generic CRUD service `FirestoreServiceCRUD`, which every entity service (users,
events, scales, ministerys) inherits, together with the `ResponseHandler` that
builds the `{ message, status, data }` envelope.

The collection is modelled as the sequence of its documents in query order.
Each document is a store-assigned id plus a body (`map<string, Value>`).
- The reads `FindAll`, `FindByID` and `FindByPID` return a value or the failure the store raised.
- The writes `Create`, `Update` and `Delete` return the next collection and an envelope. They never let a failure escape.
- Each store call that can fail takes an optional thrown value as a parameter. That value is either an `Error` object or any other thrown value.
- The id the store assigns on `add` is a parameter. It is required to differ from every existing store id.
- The place the new document takes in query order is also a parameter of `Create`, because the store orders query results by document id.

The model keeps three details exactly as the code has them:
- `findByID`, `update` and `delete` filter on the body field named `id`, not on the store id.
- Merged records are built in object-spread order, so body fields override the prepended `id`.
- Only the first document that passes a filter is used.

Modules:
- `Wrappers`: `Option`.
- `Values`: JSON-like values, `WithId` (`{ id, ...body }`) and `PartialMerge` (the store's top-level update merge).
- `ResponseHandler`: operation tags, the envelope, `Success` and `Error`, and parsers that read a message back.
- `FirestoreService`: the documents and the collection, the five operations, `findByField` and `handleCrudOperation`.
- `CrudProperties`: lemmas relating operations to each other.

Two consequences of the code are worth stating:
- `findByID`, `update` and `delete` filter on the body field `id`, not on the store id (src/@types/models/firestore.service.ts:70, 122, 144). So a document created without its own `id` field cannot be found, updated or deleted by the store id `create` reported for it (`CrudProperties.CreatedDocumentNotFoundByStoreId`).
- Success messages have the form `Sucesso na operação: POST de users`. Error messages have the form `Erro na operação: PATCH`.

## Model

| member | source | states |
|---|---|---|
| Values.WithId | src/@types/models/firestore.service.ts:54-56 | `{ id, ...body }` has exactly the body's keys plus `id`; every body field keeps its value; `id` is the prepended value only when the body has no `id` |
| Values.PartialMerge | src/@types/models/firestore.service.ts:128 | a partial update writes every field it names and keeps every other field of the stored body; the keys are the union |
| FirestoreService.FindByField | src/@types/models/firestore.service.ts:176-185 | returns none exactly when no document's body has `field == value`; otherwise the position of the first such document in query order |
| FirestoreService.FindAll | src/@types/models/firestore.service.ts:52-58 | a failing get propagates; otherwise one record per document, same length and order, each with every body field plus `id`, which is the store id unless the body has its own |
| FirestoreService.FindByID | src/@types/models/firestore.service.ts:69-75 | a failing query propagates; null exactly when no body has `id == id`; otherwise the merged first match, whose `id` equals the id asked for |
| FirestoreService.FindByPID | src/@types/models/firestore.service.ts:86-92 | a failing query propagates; null exactly when no body has `pid == pid`; otherwise the merged first match, even when several share the pid |
| FirestoreService.AsFailure | src/@types/models/firestore.service.ts:213-221 | a thrown `Error` keeps its message; any other thrown value becomes "Erro desconhecido" |
| FirestoreService.HandleCrudOperation | src/@types/models/firestore.service.ts:201-222 | a returned value gives a 200 success envelope for the service's collection; any thrown value gives the error envelope; status is 200 iff the action returned and 500 iff it threw |
| FirestoreService.NotFoundEnvelope | src/@types/models/firestore.service.ts:124-126 | a missing target yields status 500, message "Erro na operação: " plus the tag, and data `{ error: "Documento não encontrado" }` |
| FirestoreService.Create | src/@types/models/firestore.service.ts:103-107 | on success inserts exactly one document with the new store id and body `data` at its place in query order, keeps the old documents in order around it, answers 200 with `{ id: newId, ...data }`; a failing add changes nothing and answers the error; store ids stay unique |
| FirestoreService.Update | src/@types/models/firestore.service.ts:120-131 | no match or any failure leaves the collection unchanged with the matching error envelope; status 200 iff a match exists and no call fails; then only the first match's body is merged with the partial data, and the data is `{ id, ...partial }` from the argument id |
| FirestoreService.Delete | src/@types/models/firestore.service.ts:142-153 | no match or any failure leaves the collection unchanged with the matching error envelope; status 200 iff a match exists and no call fails; then exactly the first match is removed, order kept, data `{ id }` |
| ResponseHandler.Success | src/utils/responseHandler.ts:55-66 | message "Sucesso na operação: OP de ENTITY"; status passed through verbatim; data passed through, and `{}` when omitted |
| ResponseHandler.Error | src/utils/responseHandler.ts:78-87 | message "Erro na operação: OP" with no entity; status 500; data exactly `{ error: e.message }` |
| ResponseHandler.SuccessMessageRoundTrip | src/utils/responseHandler.ts:61-62 | the operation and the entity name can be read back from every success message |
| ResponseHandler.ErrorMessageRoundTrip | src/utils/responseHandler.ts:82-83 | the operation can be read back from every error message |
| ResponseHandler.SuccessMessageInjective | src/utils/responseHandler.ts:61-62 | two success messages are equal only for the same operation and entity |
| ResponseHandler.SuccessAndErrorMessagesDiffer | src/utils/responseHandler.ts:55-87 | no success message equals any error message |
| ResponseHandler.ErrorIgnoresFailureInMessage | src/utils/responseHandler.ts:82-86 | the error message does not depend on the failure; the status is 500 for every operation and failure |
| CrudProperties.FindByIDAgreesWithFindAll | src/@types/models/firestore.service.ts:52-75 | `findByID` returns the record `findAll` lists at the first document carrying that id |
| CrudProperties.CreateThenFindAll | src/@types/models/firestore.service.ts:103-107 | after create, the listing is the old listing with exactly the record the envelope reported inserted at the new document's place |
| CrudProperties.CreatedDocumentNotFoundByStoreId | src/@types/models/firestore.service.ts:69-75 | a document created without its own `id` field is not found, and `update` and `delete` answer the not-found error without mutating, when given the store id create reported |
| CrudProperties.CreateThenFindByPID | src/@types/models/firestore.service.ts:86-92 | a document created with an unused pid is what `findByPID` then returns, equal to the envelope's data |
| CrudProperties.CreateDuplicatePIDPlacedFirst | src/@types/models/firestore.service.ts:86-92 | a new document with an already used pid that lands at or before the earlier first match is what `findByPID` then returns |
| CrudProperties.CreateDuplicatePIDShadowed | src/@types/models/firestore.service.ts:86-92 | a new document that lands after the earlier first match, or has another pid, does not change what `findByPID` returns; the earlier match only shifts by one when the new document lands in front of it |
| CrudProperties.UpdateThenFindByID | src/@types/models/firestore.service.ts:120-131 | after an update that keeps the id, `findByID` returns the merged document: updated fields are new, all others are kept |
| CrudProperties.UpdateOfIdFieldHidesDocument | src/@types/models/firestore.service.ts:128-129 | an update that rewrites the `id` field of the only document with that id makes the id unreachable |
| CrudProperties.DeleteThenFindByID | src/@types/models/firestore.service.ts:142-153 | after deleting the only document with an id, `findByID` returns null |
| CrudProperties.DeleteTwice | src/@types/models/firestore.service.ts:142-153 | a second delete of a unique id answers the not-found error and changes nothing |
| CrudProperties.DeleteRemovesOnlyFirstMatch | src/@types/models/firestore.service.ts:144-150 | when two documents share an id, delete removes the first one, and the id then finds the second |
| CrudProperties.CreateUserScenario | src/@types/models/firestore.service.ts:103-107 | creating `{ name: "João" }` in users answers "Sucesso na operação: POST de users", 200, `{ id: newId, name: "João" }` |
| CrudProperties.UpdateMissingScenario | src/@types/models/firestore.service.ts:120-127 | updating a missing id answers "Erro na operação: PATCH", 500, `{ error: "Documento não encontrado" }`, and changes nothing |

## Left out

- The store client and async/await. The `get`, `where`, `add`, `update` and `delete` calls become pure steps over the document sequence. Failures of those calls are explicit parameters.
- Store ordering. A query's order is the sequence order. `Create` takes the new document's place in that order as a parameter, and the model does not derive it from the ordering of document ids.
- Store-id generation. The new id is a parameter of `FirestoreService.Create`, required not to equal any existing store id.
- The check-then-act race between the existence query and the mutation in `update` and `delete`. Each operation is one atomic step.
- Numbers. JavaScript numbers are doubles, and the store compares integers and doubles numerically. Here they are unbounded integers compared structurally.
- Dates, timestamps and NaN. `Value` has none of them. The store returns a written `Date` as a `Timestamp`, while the create envelope keeps the original `Date` (src/@types/models/firestore.service.ts:106). So the create-then-read lemmas (`CreateThenFindAll`, `CreateThenFindByPID`, `CreateDuplicatePIDPlacedFirst`) hold only for bodies built from the values modelled here, not for the event and scale date fields. An id of `+id` that is NaN (src/ministerys/ministerys.controller.ts:30) is not representable.
- Store update features: dotted field paths in `update`, sentinel values such as field deletion, and the client's own argument validation (for example an empty update). The client's rejections are covered by the write-failure parameter.
- The per-entity subclasses. They only fix the collection name and appear as the constants `UsersService`, `EventsService`, `ScalesService` and `MinisterysService`.
- NestJS controllers, modules and routing, Firebase initialisation and credentials, and the DTO validation decorators. These are external collaborators with no CRUD logic of their own.
- The `ICRUDService` interface. It is a type signature only, and its operation set is the one modelled here.
