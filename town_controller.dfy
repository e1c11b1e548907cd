/**
 * The town controller: `get`, `create` and `remove` (its `list` is the
 * town service's `find`, `TownService.Find`). `create` checks for a
 * duplicate, looks the district up, stores the denormalized district
 * snapshot, and pushes a summary onto `district.towns` unless an entry
 * with that name is already there.
 */
module TownController {
  import opened Wrappers
  import opened Documents
  import opened Store
  import opened Hierarchy

  /** A validated `create` body: non-empty name, urban status and district name. */
  datatype TownInput = TownInput(name: string, urbanStatus: string, district: string)

  predicate ValidTownInput(b: TownInput) {
    b.name != "" && b.urbanStatus != "" && b.district != ""
  }

  /** The town `create` stores: `district` replaced by `{name, state}` of the district looked up. */
  function NewTown(id: Id, b: TownInput, dd: Doc): Doc
    requires dd.body.DistrictBody?
  {
    Doc(id, b.name, Active, TownBody(b.urbanStatus, DistrictSnapshot(dd.name, dd.body.state.name)))
  }

  /**
   * A validated body and a district that passes the district schema give
   * a town that passes every `required` check of the town schema, so its
   * save can fail only on the unique name index.
   */
  lemma NewTownValidates(id: Id, b: TownInput, dd: Doc)
    requires ValidTownInput(b) && dd.body.DistrictBody? && SchemaValid(DistrictKind, dd)
    ensures SchemaValid(TownKind, NewTown(id, b, dd))
    ensures NewTown(id, b, dd).status == Active
  {
  }

  /**
   * The guarded push onto `district.towns`: the summary is appended only
   * when no entry has its name yet, so a list with distinct names keeps
   * distinct names, and afterwards the name is listed.
   */
  function AppendTown(entries: seq<TownSummary>, s: TownSummary): (r: seq<TownSummary>)
    ensures r == entries <==> exists k :: 0 <= k < |entries| && entries[k].name == s.name
    ensures r != entries ==> r == entries + [s]
    ensures exists k :: 0 <= k < |r| && r[k].name == s.name
    ensures TownNamesDistinct(entries) ==> TownNamesDistinct(r)
  {
    if exists k :: 0 <= k < |entries| && entries[k].name == s.name then
      entries
    else
      assert (entries + [s])[|entries|].name == s.name;
      entries + [s]
  }

  /** The district document with `towns` replaced; nothing else changes. */
  function WithTowns(dd: Doc, towns: seq<TownSummary>): Doc
    requires dd.body.DistrictBody?
  {
    dd.(body := dd.body.(towns := towns))
  }

  /**
   * `get` as written: it validates through `validator.get`, which the
   * town validator does not define, so the call throws a `TypeError`
   * before any lookup, whatever the store holds.
   */
  function GetAsWritten(docs: seq<Doc>, id: Id): (r: Reply<Doc>)
    ensures r.Thrown? && r.cause == UndefinedValidator
  {
    Thrown(UndefinedValidator)
  }

  /**
   * `remove` as written: `validator.remove` is undefined as well, so the
   * call throws before `removeById` and the store keeps its documents.
   */
  function RemoveAsWritten(docs: seq<Doc>, id: Id): (r: Reply<()>)
    ensures r.Thrown? && r.cause == UndefinedValidator
  {
    Thrown(UndefinedValidator)
  }

  /**
   * For an active id the written `get` and `remove` differ from the
   * intended ones: `Get` finds the town and `Remove` would soft-delete it,
   * while the written versions throw and change nothing.
   */
  lemma AsWrittenMissesActive(docs: seq<Doc>, id: Id)
    requires ActiveIdExists(docs, id)
    ensures Get(docs, id).Ok? && GetAsWritten(docs, id) != Get(docs, id)
    ensures RemoveAsWritten(docs, id).Thrown? && SoftDelete(docs, id) != docs
  {
    var i :| 0 <= i < |docs| && docs[i].id == id && docs[i].status == Active;
    assert SoftDelete(docs, id)[i].status == Status.Deleted;
  }

  /** `get` as evidently intended: the active town with that id; an unknown or soft-deleted id is a 404. */
  function Get(docs: seq<Doc>, id: Id): (r: Reply<Doc>)
    ensures r.Ok? <==> ActiveIdExists(docs, id)
    ensures r.Ok? ==> r.data in docs && r.data.id == id && r.data.status == Active
    ensures !r.Ok? ==> r == Fail(ApiError(404, NotFound, [], None, None))
  {
    FindById(docs, id, None)
  }

  /**
   * `create`. A duplicate active name is a 409 and a missing active
   * district a 404 (the duplicate error first when both fail); then
   * nothing is stored and the district is unchanged. Otherwise the town is
   * saved with the district's snapshot (the store may still throw), and
   * the district's `towns` list, its only field that changes, gets the
   * guarded append. When the district no longer validates, its save
   * throws and the exception escapes `create`, though the town stays
   * stored. Town lists stay free of repeated names.
   */
  method Create(districts: Collection, towns: Collection, body: TownInput) returns (r: Reply<Doc>)
    requires districts.kind == DistrictKind && towns.kind == TownKind
    requires districts.Valid() && towns.Valid()
    requires ValidTownInput(body)
    modifies districts, towns
    ensures districts.Valid() && towns.Valid()
    ensures ActiveNameTaken(old(towns.docs), body.name) ==>
      r.Fail? && r.error.status == 409 && r.error.data == [Detail("body,name", SameReferenceExists)] &&
      districts.docs == old(districts.docs) && towns.docs == old(towns.docs)
    ensures !ActiveNameTaken(old(towns.docs), body.name) && !ActiveNameTaken(old(districts.docs), body.district) ==>
      r == Fail(NotFoundError(Some("body,district"))) &&
      districts.docs == old(districts.docs) && towns.docs == old(towns.docs)
    ensures !ActiveNameTaken(old(towns.docs), body.name) && ActiveNameTaken(old(districts.docs), body.district) ==>
      var found := FirstMatch(old(districts.docs), ActiveByName(body.district));
      found.Some? &&
      var j := found.value;
      var dd := old(districts.docs)[j];
      dd.body.DistrictBody? &&
      var t := NewTown(old(towns.nextId), body, dd);
      if !SchemaValid(TownKind, t) || Collides(TownKind, old(towns.docs), t) then
        r.Thrown? && districts.docs == old(districts.docs) && towns.docs == old(towns.docs)
      else
        var dd' := WithTowns(dd, AppendTown(dd.body.towns, TownSummary(body.name, body.urbanStatus)));
        towns.docs == old(towns.docs) + [t] &&
        if SchemaValid(DistrictKind, dd') then
          r == Ok(201, t, Created) && districts.docs == old(districts.docs)[j := dd']
        else
          r == Thrown(ValidationFailed) && districts.docs == old(districts.docs)
    ensures DistrictListsDistinct(old(districts.docs)) ==> DistrictListsDistinct(districts.docs)
  {
    var dup := CheckDuplicate(towns.docs, body.name, None, Some("body,name"), true);
    var found := FindByName(districts.docs, body.district, Some("body,district"));
    if dup.Conflict? {
      return Fail(dup.error);
    }
    if !found.Ok? {
      return found;
    }
    ghost var j := FirstMatch(districts.docs, ActiveByName(body.district)).value;
    var district := found.data;
    assert district == districts.docs[j] && district.body.DistrictBody?;
    r := towns.Create(body.name, TownBody(body.urbanStatus, DistrictSnapshot(district.name, district.body.state.name)));
    if !r.Ok? {
      return;
    }
    var entries := AppendTown(district.body.towns, TownSummary(r.data.name, r.data.body.urbanStatus));
    IdLocatesIndex(districts.docs, districts.nextId, j);
    SameKeysKeepIndex(DistrictKind, districts.docs, j, WithTowns(district, entries));
    var saved := districts.UpdateExisting(WithTowns(district, entries), None);
    if saved.Thrown? {
      // The exception of the district's save escapes `create`; the town stays stored.
      r := Thrown(saved.cause);
    }
    // An error reply from the district's save is only logged; the town's reply stands.
  }

  /**
   * `remove` as evidently intended: a soft delete of the town only. Its entry in the district's
   * `towns` list stays (the district collection is not touched).
   */
  method Remove(towns: Collection, id: Id) returns (r: Reply<()>)
    requires towns.kind == TownKind && towns.Valid()
    modifies towns
    ensures towns.Valid()
    ensures ActiveIdExists(old(towns.docs), id) ==>
      r == Ok(200, (), Message.Deleted) && towns.docs == SoftDelete(old(towns.docs), id)
    ensures !ActiveIdExists(old(towns.docs), id) ==>
      r == Fail(NotFoundError(None)) && towns.docs == old(towns.docs)
  {
    r := towns.RemoveById(id);
  }
}
