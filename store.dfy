/**
 * The generic document-store adapter shared by the three services.
 *
 * Read-only queries (find, findById, findByName, checkDuplicate) are
 * functions over a snapshot of a collection's documents; the writes
 * (create, updateExisting, update, removeById) are methods of the
 * `Collection` class, which holds the documents of one model.
 */
module Store {
  import opened Wrappers
  import opened Text
  import opened Documents

  /** The localized messages the adapter puts in its replies. */
  datatype Message =
    | Successful | NotFound | Created | Updated | Deleted | AlreadyExist
    | UnableToUpdate | SameReferenceExists

  /** One `{[errKey]: message}` entry of an error's `data` list. */
  datatype Detail = Detail(key: string, message: Message)

  /** The `error` object of a failed reply. */
  datatype ApiError = ApiError(
    status: int, message: Message, data: seq<Detail>,
    conflictKey: Option<Id>, conflictObj: Option<Doc>)

  /**
   * An exception raised instead of an answer: the store's duplicate-key and
   * validation errors, which escape the adapter, and the `TypeError` of a
   * call through an undefined validator.
   */
  datatype StoreError = DuplicateKey | ValidationFailed | UndefinedValidator

  /** The uniform reply: `{status, data, message}`, `{error}`, or an escaping exception. */
  datatype Reply<T> =
    | Ok(status: int, data: T, message: Message)
    | Fail(error: ApiError)
    | Thrown(cause: StoreError)

  /** `if (errKey)`: the key is present and, being a string, not the falsy "". */
  predicate KeyGiven(errKey: Option<string>) {
    errKey.Some? && errKey.value != ""
  }

  /** The 404 error; it carries `data: [{[errKey]: NOT_FOUND}]` only when an `errKey` is given. */
  function NotFoundError(errKey: Option<string>): ApiError {
    ApiError(404, NotFound, if KeyGiven(errKey) then [Detail(errKey.value, NotFound)] else [], None, None)
  }

  // ----- query filters -------------------------------------------------

  /** A query object over the keys the adapter and its callers use: `_id`, `_id: {$ne}`, `name`, `status`. */
  datatype Filter = Filter(id: Option<Id>, idNot: Option<Id>, name: Option<string>, status: Option<Status>)

  predicate Matches(d: Doc, f: Filter) {
    (f.id.None? || d.id == f.id.value) &&
    (f.idNot.None? || d.id != f.idNot.value) &&
    (f.name.None? || d.name == f.name.value) &&
    (f.status.None? || d.status == f.status.value)
  }

  /** `{_id: id, status: "active"}` */
  function ActiveById(id: Id): Filter { Filter(Some(id), None, None, Some(Active)) }

  /** `{name, status: "active"}` */
  function ActiveByName(name: string): Filter { Filter(None, None, Some(name), Some(Active)) }

  /** `{_id: id}`: the document a `save()` of a loaded document writes to. */
  function ById(id: Id): Filter { Filter(Some(id), None, None, None) }

  /**
   * The `$match` stage of the services' list queries: the document is
   * active and, when `q` is non-empty, its name contains `q` ignoring case.
   */
  predicate ListMatch(d: Doc, q: string) {
    d.status == Active && (q == "" || ContainsIgnoringCase(d.name, q))
  }

  ghost predicate ActiveIdExists(docs: seq<Doc>, id: Id) {
    exists i :: 0 <= i < |docs| && docs[i].id == id && docs[i].status == Active
  }

  ghost predicate ActiveNameTaken(docs: seq<Doc>, name: string) {
    exists i :: 0 <= i < |docs| && docs[i].name == name && docs[i].status == Active
  }

  /** `findOne`: the position of the first document (in store order) that matches. */
  function FirstMatch(docs: seq<Doc>, f: Filter): (r: Option<nat>)
    ensures r.Some? ==> r.value < |docs| && Matches(docs[r.value], f)
    ensures r.Some? ==> forall j :: 0 <= j < r.value ==> !Matches(docs[j], f)
    ensures r.None? ==> forall j :: 0 <= j < |docs| ==> !Matches(docs[j], f)
  {
    if docs == [] then None
    else if Matches(docs[0], f) then Some(0)
    else match FirstMatch(docs[1..], f)
      case None => None
      case Some(k) => Some(k + 1)
  }

  /** `Model.find(filter)` before sorting and paging: the matching documents, in store order. */
  function Select(docs: seq<Doc>, f: Filter): (r: seq<Doc>)
    ensures |r| == MatchCount(docs, f)
    ensures forall d :: d in r ==> d in docs && Matches(d, f)
    ensures forall i :: 0 <= i < |docs| && Matches(docs[i], f) ==> docs[i] in r
  {
    if docs == [] then []
    else (if Matches(docs[0], f) then [docs[0]] else []) + Select(docs[1..], f)
  }

  /** Counting the matches of a non-empty prefix: the first document, then the rest. */
  lemma MatchCountPrefixStep(docs: seq<Doc>, f: Filter, i: nat)
    requires 0 < i <= |docs|
    ensures MatchCount(docs[..i], f) == (if Matches(docs[0], f) then 1 else 0) + MatchCount(docs[1..][..i - 1], f)
  {
    assert docs[..i][1..] == docs[1..][..i - 1];
  }

  /** An entry of the second part of a concatenation, found past the first part. */
  lemma IndexPastPrefix<T>(s: seq<T>, head: seq<T>, tail: seq<T>, m: nat)
    requires s == head + tail && m < |tail|
    ensures |head| + m < |s| && s[|head| + m] == tail[m]
  {
  }

  /** An entry of the first part of a concatenation keeps its position. */
  lemma IndexInPrefix<T>(s: seq<T>, head: seq<T>, tail: seq<T>, m: nat)
    requires s == head + tail && m < |head|
    ensures m < |s| && s[m] == head[m]
  {
  }

  /** One step of `Select`: the first document if it matches, then the selection of the rest. */
  lemma SelectUnfold(docs: seq<Doc>, f: Filter)
    requires docs != []
    ensures Select(docs, f) == (if Matches(docs[0], f) then [docs[0]] else []) + Select(docs[1..], f)
  {
  }

  /** Past the first document, `Select` continues with the selection of the rest. */
  lemma SelectStep(docs: seq<Doc>, f: Filter, m: nat)
    requires docs != [] && m < |Select(docs[1..], f)|
    ensures var h := if Matches(docs[0], f) then 1 else 0;
      h + m < |Select(docs, f)| && Select(docs, f)[h + m] == Select(docs[1..], f)[m]
  {
    SelectUnfold(docs, f);
    var head := if Matches(docs[0], f) then [docs[0]] else [];
    IndexPastPrefix(Select(docs, f), head, Select(docs[1..], f), m);
  }

  /** A matching first document heads the selection, with no match before it. */
  lemma SelectHead(docs: seq<Doc>, f: Filter)
    requires docs != [] && Matches(docs[0], f)
    ensures MatchCount(docs[..0], f) == 0 < |Select(docs, f)|
    ensures Select(docs, f)[0] == docs[0]
  {
    assert docs[..0] == [];
    SelectUnfold(docs, f);
  }

  /**
   * Each matching document sits in `Select` at the position given by the
   * number of matches before it: the matches keep store order and none is
   * repeated.
   */
  lemma {:induction false} SelectInStoreOrder(docs: seq<Doc>, f: Filter, i: nat)
    requires i < |docs| && Matches(docs[i], f)
    ensures MatchCount(docs[..i], f) < |Select(docs, f)|
    ensures Select(docs, f)[MatchCount(docs[..i], f)] == docs[i]
  {
    if i == 0 {
      SelectHead(docs, f);
    } else {
      assert docs[1..][i - 1] == docs[i];
      SelectInStoreOrder(docs[1..], f, i - 1);
      SelectShift(docs, f, i);
    }
  }

  /** A position found in the selection of the rest moves past a matching first document. */
  lemma SelectShift(docs: seq<Doc>, f: Filter, i: nat)
    requires 0 < i < |docs|
    requires var m := MatchCount(docs[1..][..i - 1], f);
      m < |Select(docs[1..], f)| && Select(docs[1..], f)[m] == docs[i]
    ensures MatchCount(docs[..i], f) < |Select(docs, f)|
    ensures Select(docs, f)[MatchCount(docs[..i], f)] == docs[i]
  {
    MatchCountPrefixStep(docs, f, i);
    SelectStep(docs, f, MatchCount(docs[1..][..i - 1], f));
  }

  // ----- find ------------------------------------------------------------

  const DefaultLimit: int := 50

  /** `{status: "active", ...customFilters}`: a caller-supplied key wins over the status filter. */
  function MergeFilters(custom: Option<Filter>): (f: Filter)
    ensures custom.Some? && custom.value.status.Some? ==> f.status == custom.value.status
    ensures custom.None? || custom.value.status.None? ==> f.status == Some(Active)
    ensures custom.Some? ==> f.id == custom.value.id && f.idNot == custom.value.idNot && f.name == custom.value.name
    ensures custom.None? ==> f == Filter(None, None, None, Some(Active))
  {
    match custom
    case None => Filter(None, None, None, Some(Active))
    case Some(c) => c.(status := if c.status.Some? then c.status else Some(Active))
  }

  /** `.skip(+skip).limit(+limit)`: a limit of 0 means no limit, a negative one its magnitude. */
  function Page(s: seq<Doc>, skip: nat, limit: int): (r: seq<Doc>)
    ensures skip >= |s| ==> r == []
    ensures skip < |s| ==> |r| <= |s| - skip && r == s[skip..skip + |r|]
    ensures skip < |s| && limit == 0 ==> |r| == |s| - skip
    ensures skip < |s| && limit != 0 ==>
      |r| == (if |s| - skip < Abs(limit) then |s| - skip else Abs(limit))
    ensures Window(r, s, skip)
  {
    var rest := if skip < |s| then s[skip..] else [];
    if limit == 0 || |rest| <= Abs(limit) then rest else rest[..Abs(limit)]
  }

  /** `w` is a run of consecutive entries of `s` starting at `skip` (at the end when `skip` is past it). */
  predicate Window(w: seq<Doc>, s: seq<Doc>, skip: nat) {
    var k := if skip < |s| then skip else |s|;
    k + |w| <= |s| && w == s[k..k + |w|]
  }

  function Abs(n: int): nat { if n < 0 then -n else n }

  /**
   * `find`: the documents that match the merged filter, `skip` (default 0)
   * of them skipped and at most `limit` (default 50) kept. Sort order is
   * left abstract: the store order is kept.
   */
  function Find(docs: seq<Doc>, custom: Option<Filter>, skip: Option<nat>, limit: Option<int>)
    : (r: Reply<seq<Doc>>)
    ensures r.Ok? && r.status == 200 && r.message == Successful
    ensures forall d :: d in r.data ==> d in docs && Matches(d, MergeFilters(custom))
    ensures custom.None? || custom.value.status.None? ==>
      forall d :: d in r.data ==> d.status == Active
    ensures var n := |Select(docs, MergeFilters(custom))|;
      var lim := Abs(limit.GetOr(DefaultLimit));
      var avail := if skip.GetOr(0) < n then n - skip.GetOr(0) else 0;
      |r.data| == (if lim == 0 || avail < lim then avail else lim)
    ensures Window(r.data, Select(docs, MergeFilters(custom)), skip.GetOr(0))
  {
    var matched := Select(docs, MergeFilters(custom));
    Ok(200, Page(matched, skip.GetOr(0), limit.GetOr(DefaultLimit)), Successful)
  }

  // ----- findById / findByName ---------------------------------------------

  /** `findById`: the active document with that id, or a 404. */
  function FindById(docs: seq<Doc>, id: Id, errKey: Option<string>): (r: Reply<Doc>)
    ensures r.Ok? <==> ActiveIdExists(docs, id)
    ensures r.Ok? ==> r.status == 200 && r.message == Successful && r.data in docs
    ensures r.Ok? ==> r.data.id == id && r.data.status == Active
    ensures !r.Ok? ==> r == Fail(NotFoundError(errKey))
    ensures !r.Ok? ==> r.error.status == 404 && (r.error.data == [] <==> !KeyGiven(errKey))
  {
    match FirstMatch(docs, ActiveById(id))
    case Some(i) => Ok(200, docs[i], Successful)
    case None => Fail(NotFoundError(errKey))
  }

  /** `findByName`: the first active document with that name, or a 404. */
  function FindByName(docs: seq<Doc>, name: string, errKey: Option<string>): (r: Reply<Doc>)
    ensures r.Ok? <==> ActiveNameTaken(docs, name)
    ensures r.Ok? ==> r.status == 200 && r.message == Successful && r.data in docs
    ensures r.Ok? ==> r.data.name == name && r.data.status == Active
    ensures r.Ok? ==> r.data == docs[FirstMatch(docs, ActiveByName(name)).value]
    ensures !r.Ok? ==> r == Fail(NotFoundError(errKey))
    ensures !r.Ok? ==> r.error.status == 404 && (r.error.data == [] <==> !KeyGiven(errKey))
  {
    match FirstMatch(docs, ActiveByName(name))
    case Some(i) => Ok(200, docs[i], Successful)
    case None => Fail(NotFoundError(errKey))
  }

  // ----- checkDuplicate ---------------------------------------------------

  /** `true`, the formatted 409, or (with `autoFormat` false) the raw conflicting document. */
  datatype DuplicateCheck = NoDuplicate | Conflict(error: ApiError) | RawDuplicate(doc: Doc)

  /** `{name, status: "active", _id: {$ne: excludedId}}`, the last key only when `excludedId` is given. */
  function DuplicateFilter(name: string, excludedId: Option<Id>): Filter {
    Filter(None, excludedId, Some(name), Some(Active))
  }

  /**
   * `checkDuplicate`: whether an active document other than `excludedId`
   * already has that name; a conflict reports the first such document.
   */
  function CheckDuplicate(docs: seq<Doc>, name: string, excludedId: Option<Id>,
                          errKey: Option<string>, autoFormat: bool): (r: DuplicateCheck)
    ensures r.NoDuplicate? <==>
      forall i :: 0 <= i < |docs| && docs[i].name == name && docs[i].status == Active ==>
        excludedId.Some? && docs[i].id == excludedId.value
    ensures r.Conflict? ==> autoFormat && r.error.status == 409 && r.error.message == AlreadyExist
    ensures r.Conflict? ==>
      r.error.data == (if KeyGiven(errKey) then [Detail(errKey.value, SameReferenceExists)] else [])
    ensures r.Conflict? ==> r.error.conflictObj.Some? && r.error.conflictKey == Some(r.error.conflictObj.value.id)
    ensures r.Conflict? ==> var c := r.error.conflictObj.value;
      c in docs && c.name == name && c.status == Active && (excludedId.None? || c.id != excludedId.value)
    ensures r.RawDuplicate? ==> !autoFormat && r.doc in docs && r.doc.name == name && r.doc.status == Active
    ensures r.RawDuplicate? ==> excludedId.None? || r.doc.id != excludedId.value
    ensures var m := FirstMatch(docs, DuplicateFilter(name, excludedId));
      (r.Conflict? ==> m.Some? && r.error.conflictObj == Some(docs[m.value])) &&
      (r.RawDuplicate? ==> m.Some? && r.doc == docs[m.value])
  {
    match FirstMatch(docs, DuplicateFilter(name, excludedId))
    case None => NoDuplicate
    case Some(i) =>
      if autoFormat then
        var data := if KeyGiven(errKey) then [Detail(errKey.value, SameReferenceExists)] else [];
        Conflict(ApiError(409, AlreadyExist, data, Some(docs[i].id), Some(docs[i])))
      else RawDuplicate(docs[i])
  }

  // ----- updates ------------------------------------------------------------

  /** The `data` of an update: each present key overwrites that path. */
  datatype Patch = Patch(
    name: Option<string>, code: Option<string>, status: Option<Status>,
    urbanStatus: Option<string>, districts: Option<seq<DistrictSummary>>,
    towns: Option<seq<TownSummary>>)

  /** `{status: "deleted"}` */
  const DeletePatch := Patch(None, None, Some(Status.Deleted), None, None, None)

  /**
   * `doc.set(data)` / `$set: data` under a strict schema: present keys
   * overwrite, absent keys and keys outside the document's schema leave the
   * document as it was; the id and the document's shape never change.
   */
  function ApplyPatch(d: Doc, p: Patch): (r: Doc)
    ensures r.id == d.id
    ensures r.body.StateBody? == d.body.StateBody? && r.body.DistrictBody? == d.body.DistrictBody?
    ensures r.body.TownBody? == d.body.TownBody?
    ensures r.name == (if p.name.Some? then p.name.value else d.name)
    ensures r.status == (if p.status.Some? then p.status.value else d.status)
    ensures d.body.TownBody? || p.code.None? ==> CodeOf(r) == CodeOf(d)
    ensures !d.body.TownBody? && p.code.Some? ==> CodeOf(r) == p.code.value
    ensures r.body.StateBody? ==>
      r.body.districts == (if p.districts.Some? then p.districts.value else d.body.districts)
    ensures r.body.DistrictBody? ==>
      r.body.towns == (if p.towns.Some? then p.towns.value else d.body.towns)
    ensures r.body.TownBody? ==>
      r.body.urbanStatus == (if p.urbanStatus.Some? then p.urbanStatus.value else d.body.urbanStatus)
    ensures p.code.None? && p.districts.None? && p.towns.None? && p.urbanStatus.None? ==> r.body == d.body
    ensures r.body.DistrictBody? ==> r.body.state == d.body.state
    ensures r.body.TownBody? ==> r.body.district == d.body.district
  {
    var body := match d.body
      case StateBody(c, ds) => StateBody(p.code.GetOr(c), p.districts.GetOr(ds))
      case DistrictBody(c, s, ts) => DistrictBody(p.code.GetOr(c), s, p.towns.GetOr(ts))
      case TownBody(u, dn) => TownBody(p.urbanStatus.GetOr(u), dn);
    Doc(d.id, p.name.GetOr(d.name), p.status.GetOr(d.status), body)
  }

  /** Applying the same patch twice is the same as applying it once. */
  lemma PatchIdempotent(d: Doc, p: Patch)
    ensures ApplyPatch(ApplyPatch(d, p), p) == ApplyPatch(d, p)
  {
  }

  /** `updateMany(filter, {$set: data})`: every matching document patched, the rest as they were. */
  function UpdateAll(docs: seq<Doc>, f: Filter, p: Patch): (r: seq<Doc>)
    ensures |r| == |docs|
    ensures forall i :: 0 <= i < |docs| ==>
      r[i] == if Matches(docs[i], f) then ApplyPatch(docs[i], p) else docs[i]
  {
    if docs == [] then []
    else [if Matches(docs[0], f) then ApplyPatch(docs[0], p) else docs[0]] + UpdateAll(docs[1..], f, p)
  }

  /** The `n` of `updateMany`: how many documents the filter matched. */
  function MatchCount(docs: seq<Doc>, f: Filter): (n: nat)
    ensures n == 0 ==> forall i :: 0 <= i < |docs| ==> !Matches(docs[i], f)
    ensures n <= |docs|
  {
    if docs == [] then 0
    else
      var here := if Matches(docs[0], f) then 1 else 0;
      here + MatchCount(docs[1..], f)
  }

  /** The count is zero exactly when no document matches. */
  lemma {:induction false} MatchCountZero(docs: seq<Doc>, f: Filter)
    ensures MatchCount(docs, f) == 0 <==> forall i :: 0 <= i < |docs| ==> !Matches(docs[i], f)
  {
    if docs != [] && forall i :: 0 <= i < |docs| ==> !Matches(docs[i], f) {
      assert forall i :: 0 <= i < |docs| - 1 ==> docs[1..][i] == docs[i + 1];
      MatchCountZero(docs[1..], f);
    }
  }

  /**
   * The `nModified` of `updateMany`: how many matched documents it changed.
   * On a `stamped` schema (one with timestamps) it also sets `updatedAt` to
   * the current time, so every matched document changes.
   */
  function ModifiedCount(docs: seq<Doc>, f: Filter, p: Patch, stamped: bool): (n: nat)
    ensures n <= MatchCount(docs, f)
    ensures stamped ==> n == MatchCount(docs, f)
    ensures n == 0 <==>
      forall i :: 0 <= i < |docs| && Matches(docs[i], f) ==> !stamped && ApplyPatch(docs[i], p) == docs[i]
  {
    if docs == [] then 0
    else
      var here := if Matches(docs[0], f) && (stamped || ApplyPatch(docs[0], p) != docs[0]) then 1 else 0;
      here + ModifiedCount(docs[1..], f, p, stamped)
  }

  /**
   * `removeById`'s effect on the store: the document with that id is marked
   * "deleted" if it was active; nothing else changes and nothing is removed.
   */
  function SoftDelete(docs: seq<Doc>, id: Id): (r: seq<Doc>)
    ensures |r| == |docs|
    ensures forall i :: 0 <= i < |docs| ==>
      r[i] == if docs[i].id == id then docs[i].(status := Status.Deleted) else docs[i]
  {
    UpdateAll(docs, ActiveById(id), DeletePatch)
  }

  /**
   * After a soft delete none of the read queries sees the document any
   * more: findById fails, findByName and checkDuplicate find others only.
   */
  lemma RemovedIsInvisible(docs: seq<Doc>, id: Id, name: string, errKey: Option<string>)
    ensures !ActiveIdExists(SoftDelete(docs, id), id)
    ensures FindById(SoftDelete(docs, id), id, errKey) == Fail(NotFoundError(errKey))
    ensures var r := FindByName(SoftDelete(docs, id), name, errKey); r.Ok? ==> r.data.id != id
    ensures var c := CheckDuplicate(SoftDelete(docs, id), name, None, errKey, true);
      c.Conflict? ==> c.error.conflictKey != Some(id)
  {
    var after := SoftDelete(docs, id);
    assert !ActiveIdExists(after, id);
  }

  /** The delete patch changes every document the remove filter matches. */
  lemma {:induction false} DeleteModifiesEveryMatch(docs: seq<Doc>, id: Id, stamped: bool)
    ensures ModifiedCount(docs, ActiveById(id), DeletePatch, stamped) == MatchCount(docs, ActiveById(id))
  {
    if docs != [] {
      DeleteModifiesEveryMatch(docs[1..], id, stamped);
    }
  }

  /** A patch that leaves names and codes alone keeps the unique indexes. */
  lemma KeysUntouchedKeepsIndex(kind: Kind, docs: seq<Doc>, f: Filter, p: Patch)
    requires UniqueIndex(kind, docs)
    requires p.name.None? && p.code.None?
    ensures UniqueIndex(kind, UpdateAll(docs, f, p))
  {
    var r := UpdateAll(docs, f, p);
    forall i, j | 0 <= i < j < |r| ensures !Clash(kind, r[i], r[j]) {
      assert r[i].name == docs[i].name && CodeOf(r[i]) == CodeOf(docs[i]);
      assert r[j].name == docs[j].name && CodeOf(r[j]) == CodeOf(docs[j]);
    }
  }

  // ----- the store ----------------------------------------------------------

  /** Ids are strictly ascending in store order (so distinct) and below the next id. */
  ghost predicate IdsFresh(docs: seq<Doc>, nextId: Id) {
    (forall i :: 0 <= i < |docs| ==> docs[i].id < nextId) &&
    (forall i, j :: 0 <= i < j < |docs| ==> docs[i].id < docs[j].id)
  }

  /** `updateMany` keeps every id and every document's shape. */
  lemma UpdateAllKeepsIdsAndShape(kind: Kind, docs: seq<Doc>, nextId: Id, f: Filter, p: Patch)
    requires IdsFresh(docs, nextId)
    requires forall i :: 0 <= i < |docs| ==> Fits(kind, docs[i].body)
    ensures IdsFresh(UpdateAll(docs, f, p), nextId)
    ensures var r := UpdateAll(docs, f, p); forall i :: 0 <= i < |r| ==> Fits(kind, r[i].body)
  {
    var r := UpdateAll(docs, f, p);
    assert forall i :: 0 <= i < |r| ==> r[i].id == docs[i].id;
  }

  /** With distinct ids, the document with a given id is found at its own position. */
  lemma IdLocatesIndex(docs: seq<Doc>, nextId: Id, j: nat)
    requires IdsFresh(docs, nextId) && j < |docs|
    ensures FirstMatch(docs, ById(docs[j].id)) == Some(j)
  {
    var r := FirstMatch(docs, ById(docs[j].id));
    assert Matches(docs[j], ById(docs[j].id));
  }

  /** The documents of one model, as the store keeps them. */
  class Collection {
    const kind: Kind
    var docs: seq<Doc>
    var nextId: Id

    ghost predicate Valid()
      reads this
    {
      IdsFresh(docs, nextId) &&
      (forall i :: 0 <= i < |docs| ==> Fits(kind, docs[i].body)) &&
      UniqueIndex(kind, docs)
    }

    constructor (k: Kind)
      ensures Valid() && kind == k && docs == [] && nextId == 0
    {
      kind := k;
      docs := [];
      nextId := 0;
    }

    /**
     * `create`: `new Model(data).save()`. The new document gets a fresh id
     * and the default status "active"; validation and the unique indexes
     * can make the save throw, and then nothing is stored.
     */
    method Create(name: string, body: Body) returns (r: Reply<Doc>)
      requires Valid()
      modifies this
      ensures Valid()
      ensures var d := Doc(old(nextId), name, Active, body);
        if !SchemaValid(kind, d) then
          r == Thrown(ValidationFailed) && docs == old(docs) && nextId == old(nextId)
        else if Collides(kind, old(docs), d) then
          r == Thrown(DuplicateKey) && docs == old(docs) && nextId == old(nextId)
        else
          r == Ok(201, d, Created) && docs == old(docs) + [d] && nextId == old(nextId) + 1
    {
      var d := Doc(nextId, name, Active, body);
      if !SchemaValid(kind, d) {
        return Thrown(ValidationFailed);
      }
      if Collides(kind, docs, d) {
        return Thrown(DuplicateKey);
      }
      UniqueIndexAppend(kind, docs, d);
      docs := docs + [d];
      nextId := nextId + 1;
      r := Ok(201, d, Created);
    }

    /**
     * `updateExisting`: patch a loaded document with `data` (when given)
     * and save it over the stored document with the same id.
     */
    method UpdateExisting(existing: Doc, data: Option<Patch>) returns (r: Reply<Doc>)
      requires Valid()
      modifies this
      ensures Valid() && nextId == old(nextId)
      ensures var d := if data.Some? then ApplyPatch(existing, data.value) else existing;
        match FirstMatch(old(docs), ById(existing.id))
        case None => r == Fail(NotFoundError(None)) && docs == old(docs)
        case Some(i) =>
          if !SchemaValid(kind, d) then r == Thrown(ValidationFailed) && docs == old(docs)
          else if !UniqueIndex(kind, old(docs)[i := d]) then r == Thrown(DuplicateKey) && docs == old(docs)
          else r == Ok(200, d, Updated) && docs == old(docs)[i := d]
    {
      var d := if data.Some? then ApplyPatch(existing, data.value) else existing;
      var at := FirstMatch(docs, ById(existing.id));
      if at.None? {
        return Fail(NotFoundError(None));
      }
      var i := at.value;
      if !SchemaValid(kind, d) {
        return Thrown(ValidationFailed);
      }
      if !UniqueIndex(kind, docs[i := d]) {
        return Thrown(DuplicateKey);
      }
      assert d.id == docs[i].id;
      docs := docs[i := d];
      r := Ok(200, d, Updated);
    }

    /**
     * `update`: `updateMany(filter, {$set: data})`. 404 when nothing
     * matched, 200 when something changed, 422 when documents matched but
     * none changed, which the timestamps of the district and town schemas
     * rule out. A change that would break a unique index throws.
     */
    method Update(f: Filter, p: Patch) returns (r: Reply<()>)
      requires Valid()
      modifies this
      ensures Valid() && nextId == old(nextId)
      ensures MatchCount(old(docs), f) == 0 ==> r == Fail(NotFoundError(None)) && docs == old(docs)
      ensures MatchCount(old(docs), f) > 0 && !UniqueIndex(kind, UpdateAll(old(docs), f, p)) ==>
        r == Thrown(DuplicateKey) && docs == old(docs)
      ensures MatchCount(old(docs), f) > 0 && UniqueIndex(kind, UpdateAll(old(docs), f, p)) ==>
        docs == UpdateAll(old(docs), f, p) &&
        r == if ModifiedCount(old(docs), f, p, Timestamped(kind)) > 0 then Ok(200, (), Updated)
             else Fail(ApiError(422, UnableToUpdate, [], None, None))
      ensures Timestamped(kind) && MatchCount(old(docs), f) > 0 ==> !r.Fail?
    {
      var updated := UpdateAll(docs, f, p);
      UpdateAllKeepsIdsAndShape(kind, docs, nextId, f, p);
      if MatchCount(docs, f) == 0 {
        return Fail(NotFoundError(None));
      }
      if !UniqueIndex(kind, updated) {
        return Thrown(DuplicateKey);
      }
      var modified := ModifiedCount(docs, f, p, Timestamped(kind));
      docs := updated;
      if modified > 0 {
        r := Ok(200, (), Updated);
      } else {
        r := Fail(ApiError(422, UnableToUpdate, [], None, None));
      }
    }

    /**
     * `removeById`: soft delete through `update` with `{_id: id, status:
     * "active"}`. The 404 of `update` passes through for a missing or
     * already-deleted id; the 422 and the throw cannot happen.
     */
    method RemoveById(id: Id) returns (r: Reply<()>)
      requires Valid()
      modifies this
      ensures Valid() && nextId == old(nextId)
      ensures ActiveIdExists(old(docs), id) ==> r == Ok(200, (), Message.Deleted) && docs == SoftDelete(old(docs), id)
      ensures !ActiveIdExists(old(docs), id) ==> r == Fail(NotFoundError(None)) && docs == old(docs)
    {
      ghost var before := docs;
      KeysUntouchedKeepsIndex(kind, docs, ActiveById(id), DeletePatch);
      DeleteModifiesEveryMatch(docs, id, Timestamped(kind));
      assert MatchCount(docs, ActiveById(id)) > 0 <==> ActiveIdExists(docs, id) by {
        if ActiveIdExists(docs, id) {
          var i :| 0 <= i < |docs| && docs[i].id == id && docs[i].status == Active;
          assert Matches(docs[i], ActiveById(id));
        }
      }
      var u := Update(ActiveById(id), DeletePatch);
      if !u.Ok? {
        return u;
      }
      r := Ok(200, (), Message.Deleted);
    }
  }
}
