/**
 * The district controller's `create` (its `list` is the district
 * service's `find`, `DistrictService.Find`): duplicate check, state
 * lookup, the denormalized state snapshot, the append to
 * `state.districts` and the best-effort save of the state.
 */
module DistrictController {
  import opened Wrappers
  import opened Documents
  import opened Store
  import opened Hierarchy

  /** A validated `create` body: non-empty name, the code (a Joi integer, kept as its text), the state's name. */
  datatype DistrictInput = DistrictInput(name: string, code: string, state: string)

  predicate ValidDistrictInput(b: DistrictInput) {
    b.name != "" && b.code != "" && b.state != ""
  }

  /** The district `create` stores: `state` replaced by `{name, code}` of the state looked up. */
  function NewDistrict(id: Id, b: DistrictInput, st: Doc): Doc
    requires st.body.StateBody?
  {
    Doc(id, b.name, Active, DistrictBody(b.code, StateSnapshot(st.name, st.body.code), []))
  }

  /**
   * A validated body and a state with a name and a code give a district
   * that passes every `required` check of the district schema, so its save
   * can fail only on the unique indexes.
   */
  lemma NewDistrictValidates(id: Id, b: DistrictInput, st: Doc)
    requires ValidDistrictInput(b) && st.body.StateBody?
    requires st.name != "" && st.body.code != ""
    ensures SchemaValid(DistrictKind, NewDistrict(id, b, st))
    ensures NewDistrict(id, b, st).status == Active && NewDistrict(id, b, st).body.towns == []
  {
  }

  /**
   * The `state` property of an entry of `state.districts`. Entries pushed
   * by `create` carry only `name` and `code`, so the property is absent.
   */
  function EntryStateField(e: DistrictSummary): Option<string> {
    None
  }

  /**
   * The guarded push onto `state.districts`. The guard compares the new
   * district's name with each entry's `state` property, which entries do
   * not have, so the push always happens.
   */
  function AppendDistrict(entries: seq<DistrictSummary>, s: DistrictSummary): (r: seq<DistrictSummary>)
    ensures r == entries + [s]
  {
    if exists k :: 0 <= k < |entries| && EntryStateField(entries[k]) == Some(s.name) then entries
    else entries + [s]
  }

  /**
   * `create`. A duplicate active name is a 409 and a missing active state
   * a 404 (the duplicate error first when both fail); then nothing is
   * stored and the state is unchanged. Otherwise the district is saved
   * with the state's snapshot (the store may still throw: validation, or
   * a name or code held by any stored district, deleted ones included);
   * once saved, its `{name, code}` is appended at the end of the state's
   * `districts` list, the only change to the state, and the 201 reply
   * stands whatever the state's save answers. The state lists stay backed
   * by stored districts and free of repeated names.
   */
  method Create(states: Collection, districts: Collection, body: DistrictInput) returns (r: Reply<Doc>)
    requires states.kind == StateKind && districts.kind == DistrictKind
    requires states.Valid() && districts.Valid()
    requires ValidDistrictInput(body)
    modifies states, districts
    ensures states.Valid() && districts.Valid()
    ensures ActiveNameTaken(old(districts.docs), body.name) ==>
      r.Fail? && r.error.status == 409 && r.error.data == [Detail("body,name", SameReferenceExists)] &&
      states.docs == old(states.docs) && districts.docs == old(districts.docs)
    ensures !ActiveNameTaken(old(districts.docs), body.name) && !ActiveNameTaken(old(states.docs), body.state) ==>
      r == Fail(NotFoundError(Some("body,state"))) &&
      states.docs == old(states.docs) && districts.docs == old(districts.docs)
    ensures !ActiveNameTaken(old(districts.docs), body.name) && ActiveNameTaken(old(states.docs), body.state) ==>
      var found := FirstMatch(old(states.docs), ActiveByName(body.state));
      found.Some? &&
      var j := found.value;
      var st := old(states.docs)[j];
      st.body.StateBody? &&
      var d := NewDistrict(old(districts.nextId), body, st);
      if !SchemaValid(DistrictKind, d) || Collides(DistrictKind, old(districts.docs), d) then
        r.Thrown? && states.docs == old(states.docs) && districts.docs == old(districts.docs)
      else
        r == Ok(201, d, Created) && districts.docs == old(districts.docs) + [d] &&
        states.docs == old(states.docs)[j := WithDistrict(st, DistrictSummary(body.name, body.code))]
    ensures StateListsBacked(old(states.docs), old(districts.docs)) && StateListsDistinct(old(states.docs)) ==>
      StateListsBacked(states.docs, districts.docs) && StateListsDistinct(states.docs)
  {
    var dup := CheckDuplicate(districts.docs, body.name, None, Some("body,name"), true);
    var found := FindByName(states.docs, body.state, Some("body,state"));
    if dup.Conflict? {
      return Fail(dup.error);
    }
    if !found.Ok? {
      return found;
    }
    ghost var j := FirstMatch(states.docs, ActiveByName(body.state)).value;
    var state := found.data;
    assert state == states.docs[j] && state.body.StateBody?;
    ghost var statesBefore, districtsBefore := states.docs, districts.docs;
    r := districts.Create(body.name, DistrictBody(body.code, StateSnapshot(state.name, state.body.code), []));
    if !r.Ok? {
      return;
    }
    var entries := AppendDistrict(state.body.districts, DistrictSummary(r.data.name, r.data.body.code));
    IdLocatesIndex(states.docs, states.nextId, j);
    if StateListsBacked(statesBefore, districtsBefore) && StateListsDistinct(statesBefore) {
      DistrictCreateKeepsLists(statesBefore, districtsBefore, j, r.data);
    }
    var saved := states.UpdateExisting(state.(body := state.body.(districts := entries)), None);
    // A failed save of the state is only logged; the district's reply stands.
  }
}
