/**
 * The stored documents of the three collections (State, District, Town),
 * the schema validation a save performs and the unique indexes the
 * District and Town schemas declare.
 */
module Documents {

  /** A document id (a MongoDB ObjectId in the system). */
  type Id = nat

  /** The `status` enum; every schema defaults it to "active". */
  datatype Status = Active | Deleted

  /** The collection a document belongs to (the `Model` the adapter is given). */
  datatype Kind = StateKind | DistrictKind | TownKind

  /** An entry of `state.districts`. */
  datatype DistrictSummary = DistrictSummary(name: string, code: string)

  /** An entry of `district.towns` (the district schema's sub-schema `townSchema`). */
  datatype TownSummary = TownSummary(name: string, urbanStatus: string)

  /** The state snapshot embedded in a district (the district schema's `stateSchema`). */
  datatype StateSnapshot = StateSnapshot(name: string, code: string)

  /** The district snapshot embedded in a town (the town schema's `districtSchema`). */
  datatype DistrictSnapshot = DistrictSnapshot(name: string, state: string)

  /** The kind-specific fields of a document. */
  datatype Body =
    | StateBody(code: string, districts: seq<DistrictSummary>)
    | DistrictBody(code: string, state: StateSnapshot, towns: seq<TownSummary>)
    | TownBody(urbanStatus: string, district: DistrictSnapshot)

  datatype Doc = Doc(id: Id, name: string, status: Status, body: Body)

  /**
   * The district and town schemas declare `timestamps`, so every write
   * sets `updatedAt`. The state schema is not part of this model and is
   * taken as declaring none.
   */
  predicate Timestamped(kind: Kind) {
    kind != StateKind
  }

  /** The body has the shape of the collection's schema. */
  predicate Fits(kind: Kind, body: Body) {
    match kind
    case StateKind => body.StateBody?
    case DistrictKind => body.DistrictBody?
    case TownKind => body.TownBody?
  }

  /**
   * What mongoose's validation demands of a document before it is saved:
   * every `required: true` string is non-empty. The state schema is not
   * part of this model, so a state document only has to have the state shape.
   */
  predicate SchemaValid(kind: Kind, d: Doc) {
    Fits(kind, d.body) &&
    match d.body
    case StateBody(_, _) => true
    case DistrictBody(code, state, towns) =>
      d.name != "" && code != "" && state.name != "" && state.code != "" &&
      forall k :: 0 <= k < |towns| ==> towns[k].name != "" && towns[k].urbanStatus != ""
    case TownBody(urbanStatus, district) =>
      d.name != "" && urbanStatus != "" && district.name != "" && district.state != ""
  }

  /** The `code` key a unique index can look at ("" for a town, which has none). */
  function CodeOf(d: Doc): string {
    match d.body
    case StateBody(code, _) => code
    case DistrictBody(code, _, _) => code
    case TownBody(_, _) => ""
  }

  /** Two documents share a key that a unique index of the collection covers. */
  predicate Clash(kind: Kind, a: Doc, b: Doc) {
    match kind
    case StateKind => false
    case DistrictKind => a.name == b.name || CodeOf(a) == CodeOf(b)
    case TownKind => a.name == b.name
  }

  /** `d` would break a unique index of the collection if added beside `docs`. */
  predicate Collides(kind: Kind, docs: seq<Doc>, d: Doc) {
    exists i :: 0 <= i < |docs| && Clash(kind, docs[i], d)
  }

  /**
   * The unique indexes: district `name` and `code`, town `name`. The
   * indexes carry no status condition, so soft-deleted documents count.
   */
  predicate UniqueIndex(kind: Kind, docs: seq<Doc>) {
    forall i, j :: 0 <= i < j < |docs| ==> !Clash(kind, docs[i], docs[j])
  }

  /**
   * Adding one document keeps the unique indexes exactly when it collides
   * with no stored document, whatever that document's status.
   */
  lemma UniqueIndexAppend(kind: Kind, docs: seq<Doc>, d: Doc)
    requires UniqueIndex(kind, docs)
    ensures UniqueIndex(kind, docs + [d]) <==> !Collides(kind, docs, d)
  {
    var all := docs + [d];
    if Collides(kind, docs, d) {
      var i :| 0 <= i < |docs| && Clash(kind, docs[i], d);
      assert all[i] == docs[i] && all[|docs|] == d;
    } else {
      forall i, j | 0 <= i < j < |all|
        ensures !Clash(kind, all[i], all[j])
      {
        if j < |docs| {
          assert all[i] == docs[i] && all[j] == docs[j];
        } else {
          assert all[j] == d && all[i] == docs[i];
        }
      }
    }
  }

  /**
   * A stored document blocks a new one with the same name (in districts
   * and towns) or the same code (in districts), whatever its status.
   */
  lemma DeletedKeysBlock(kind: Kind, docs: seq<Doc>, i: nat, d: Doc)
    requires i < |docs| && kind != StateKind
    requires docs[i].name == d.name || (kind == DistrictKind && CodeOf(docs[i]) == CodeOf(d))
    ensures Collides(kind, docs, d) && !UniqueIndex(kind, docs + [d])
  {
    assert Clash(kind, docs[i], d);
    var all := docs + [d];
    assert all[i] == docs[i] && all[|docs|] == d;
  }

  /** Overwriting a document with one that keeps its name and code keeps the unique indexes. */
  lemma SameKeysKeepIndex(kind: Kind, docs: seq<Doc>, j: nat, d: Doc)
    requires UniqueIndex(kind, docs) && j < |docs|
    requires d.name == docs[j].name && CodeOf(d) == CodeOf(docs[j])
    ensures UniqueIndex(kind, docs[j := d])
  {
    var r := docs[j := d];
    forall a, b | 0 <= a < b < |r| ensures !Clash(kind, r[a], r[b]) {
      assert !Clash(kind, docs[a], docs[b]);
    }
  }
}
