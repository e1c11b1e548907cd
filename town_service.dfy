/**
 * The town service's list query: `$match` (active, name filter) and
 * `$project` to `{town, state, district}` without `_id`, one row per
 * town. Its other operations are the adapter's with the collection fixed
 * to the Town model (a `Store.Collection` of kind `TownKind`); the town
 * service has no `findByName`.
 */
module TownService {
  import opened Documents
  import opened Store

  datatype TownRow = TownRow(town: string, state: string, district: string)

  ghost predicate AllTowns(docs: seq<Doc>) {
    forall i :: 0 <= i < |docs| ==> docs[i].body.TownBody?
  }

  /** The projection of one town: its name and its district snapshot. */
  function Project(d: Doc): TownRow
    requires d.body.TownBody?
  {
    TownRow(d.name, d.body.district.state, d.body.district.name)
  }

  /**
   * The rows of the `find` aggregation over a snapshot of the Town
   * collection: one per matching town, as there is no unwind.
   */
  function Find(docs: seq<Doc>, q: string): (r: seq<TownRow>)
    requires AllTowns(docs)
    ensures |r| == MatchingTowns(docs, q)
  {
    if docs == [] then []
    else (if ListMatch(docs[0], q) then [Project(docs[0])] else []) + Find(docs[1..], q)
  }

  /** How many towns pass the `$match` stage. */
  function MatchingTowns(docs: seq<Doc>, q: string): nat {
    if docs == [] then 0
    else (if ListMatch(docs[0], q) then 1 else 0) + MatchingTowns(docs[1..], q)
  }

  /** One step of `Find`: the row of the first town if it matches, then the rows of the rest. */
  lemma FindUnfold(docs: seq<Doc>, q: string)
    requires AllTowns(docs) && docs != []
    ensures Find(docs, q) == (if ListMatch(docs[0], q) then [Project(docs[0])] else []) + Find(docs[1..], q)
  {
  }

  /** Counting the matches of a non-empty prefix: the first town, then the rest. */
  lemma MatchingTownsPrefixStep(docs: seq<Doc>, q: string, i: nat)
    requires 0 < i <= |docs|
    ensures MatchingTowns(docs[..i], q) ==
      (if ListMatch(docs[0], q) then 1 else 0) + MatchingTowns(docs[1..][..i - 1], q)
  {
    assert docs[..i][1..] == docs[1..][..i - 1];
  }

  /**
   * The row of a matching town sits at the position given by the number of
   * matching towns before it: the rows follow store order, one per town.
   */
  lemma {:induction false} FindInStoreOrder(docs: seq<Doc>, q: string, i: nat)
    requires AllTowns(docs)
    requires i < |docs| && ListMatch(docs[i], q)
    ensures MatchingTowns(docs[..i], q) < |Find(docs, q)|
    ensures Find(docs, q)[MatchingTowns(docs[..i], q)] == Project(docs[i])
  {
    if i == 0 {
      assert docs[..0] == [];
      FindUnfold(docs, q);
      IndexInPrefix(Find(docs, q), [Project(docs[0])], Find(docs[1..], q), 0);
    } else {
      assert docs[1..][i - 1] == docs[i];
      FindInStoreOrder(docs[1..], q, i - 1);
      FindShift(docs, q, i);
    }
  }

  /** A row found among the rows of the rest moves past the row of a matching first town. */
  lemma FindShift(docs: seq<Doc>, q: string, i: nat)
    requires AllTowns(docs) && 0 < i < |docs|
    requires var n := MatchingTowns(docs[1..][..i - 1], q);
      n < |Find(docs[1..], q)| && Find(docs[1..], q)[n] == Project(docs[i])
    ensures MatchingTowns(docs[..i], q) < |Find(docs, q)|
    ensures Find(docs, q)[MatchingTowns(docs[..i], q)] == Project(docs[i])
  {
    MatchingTownsPrefixStep(docs, q, i);
    FindUnfold(docs, q);
    var head := if ListMatch(docs[0], q) then [Project(docs[0])] else [];
    IndexPastPrefix(Find(docs, q), head, Find(docs[1..], q), MatchingTowns(docs[1..][..i - 1], q));
  }

  /**
   * Every row is the projection of an active town whose name passes the
   * `q` filter, and every such town has its row.
   */
  lemma {:induction false} FindExact(docs: seq<Doc>, q: string)
    requires AllTowns(docs)
    ensures forall row :: row in Find(docs, q) ==>
      exists i :: 0 <= i < |docs| && ListMatch(docs[i], q) && row == Project(docs[i])
    ensures forall i :: 0 <= i < |docs| && ListMatch(docs[i], q) ==> Project(docs[i]) in Find(docs, q)
  {
    if docs != [] {
      FindExact(docs[1..], q);
      forall row | row in Find(docs, q)
        ensures exists i :: 0 <= i < |docs| && ListMatch(docs[i], q) && row == Project(docs[i])
      {
        if row !in Find(docs[1..], q) {
          assert ListMatch(docs[0], q) && row == Project(docs[0]);
        } else {
          var i :| 0 <= i < |docs[1..]| && ListMatch(docs[1..][i], q) && row == Project(docs[1..][i]);
          assert docs[1..][i] == docs[i + 1];
        }
      }
      forall i | 0 <= i < |docs| && ListMatch(docs[i], q) ensures Project(docs[i]) in Find(docs, q) {
        if i > 0 {
          assert docs[1..][i - 1] == docs[i];
        }
      }
    }
  }
}
