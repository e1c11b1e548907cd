/**
 * The state controller: `get`, `create` and `remove` (its `list` is the
 * state service's `find`, `StateService.Find`). A reply carrying an error
 * is what the controller throws.
 */
module StateController {
  import opened Wrappers
  import opened Documents
  import opened Store
  import opened Hierarchy

  /** A validated `create` body: a non-empty name and the code (a Joi integer, kept as its text). */
  datatype StateInput = StateInput(name: string, code: string)

  predicate ValidStateInput(b: StateInput) {
    b.name != "" && b.code != ""
  }

  /** The document `create` stores: the body, an empty `districts` list, status "active". */
  function NewState(id: Id, b: StateInput): Doc {
    Doc(id, b.name, Active, StateBody(b.code, []))
  }

  /**
   * `get` as written: it validates through `validator.get`, which the
   * state validator does not define, so the call throws a `TypeError`
   * before any lookup, whatever the store holds.
   */
  function GetAsWritten(docs: seq<Doc>, id: Id): (r: Reply<Doc>)
    ensures r.Thrown? && r.cause == UndefinedValidator
  {
    Thrown(UndefinedValidator)
  }

  /**
   * `remove` as written: `validator.remove` is undefined as well, so the
   * call throws before `removeById` and the store keeps its documents.
   */
  function RemoveAsWritten(docs: seq<Doc>, id: Id): (r: Reply<()>)
    ensures r.Thrown? && r.cause == UndefinedValidator
  {
    Thrown(UndefinedValidator)
  }

  /**
   * For an active id the written `get` and `remove` differ from the
   * intended ones: `Get` finds the state and `Remove` would soft-delete it,
   * while the written versions throw and change nothing.
   */
  lemma AsWrittenMissesActive(docs: seq<Doc>, id: Id)
    requires ActiveIdExists(docs, id)
    ensures Get(docs, id).Ok? && GetAsWritten(docs, id) != Get(docs, id)
    ensures RemoveAsWritten(docs, id).Thrown? && SoftDelete(docs, id) != docs
  {
    var i :| 0 <= i < |docs| && docs[i].id == id && docs[i].status == Active;
    assert SoftDelete(docs, id)[i].status == Status.Deleted;
  }

  /** `get` as evidently intended: the active state with that id; an unknown or soft-deleted id is a 404. */
  function Get(docs: seq<Doc>, id: Id): (r: Reply<Doc>)
    ensures r.Ok? <==> ActiveIdExists(docs, id)
    ensures r.Ok? ==> r.data in docs && r.data.id == id && r.data.status == Active
    ensures !r.Ok? ==> r == Fail(ApiError(404, NotFound, [], None, None))
  {
    FindById(docs, id, None)
  }

  /**
   * `create`: only the name is checked against the active states (a 409,
   * nothing stored); the code is not checked. A fresh name stores exactly
   * one new state and answers 201.
   */
  method Create(states: Collection, body: StateInput) returns (r: Reply<Doc>)
    requires states.kind == StateKind && states.Valid()
    requires ValidStateInput(body)
    modifies states
    ensures states.Valid()
    ensures ActiveNameTaken(old(states.docs), body.name) ==>
      r.Fail? && r.error.status == 409 && r.error.data == [Detail("body,name", SameReferenceExists)] &&
      states.docs == old(states.docs) && states.nextId == old(states.nextId)
    ensures !ActiveNameTaken(old(states.docs), body.name) ==>
      var d := NewState(old(states.nextId), body);
      r == Ok(201, d, Created) && states.docs == old(states.docs) + [d]
    ensures forall ds :: StateListsBacked(old(states.docs), ds) && StateListsDistinct(old(states.docs)) ==>
      StateListsBacked(states.docs, ds) && StateListsDistinct(states.docs)
  {
    var dup := CheckDuplicate(states.docs, body.name, None, Some("body,name"), true);
    if dup.Conflict? {
      return Fail(dup.error);
    }
    r := states.Create(body.name, StateBody(body.code, []));
  }

  /** `remove` as evidently intended: a soft delete; an unknown or already-deleted id is a 404 and changes nothing. */
  method Remove(states: Collection, id: Id) returns (r: Reply<()>)
    requires states.kind == StateKind && states.Valid()
    modifies states
    ensures states.Valid()
    ensures ActiveIdExists(old(states.docs), id) ==>
      r == Ok(200, (), Message.Deleted) && states.docs == SoftDelete(old(states.docs), id)
    ensures !ActiveIdExists(old(states.docs), id) ==>
      r == Fail(NotFoundError(None)) && states.docs == old(states.docs)
  {
    r := states.RemoveById(id);
  }
}
