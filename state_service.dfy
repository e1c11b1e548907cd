/**
 * The state service's list query: `$match` (active, name filter),
 * `$unwind` of `districts` keeping states with an empty list, and
 * `$project` to `{state, district_code, district}` without `_id`.
 * Its other operations are the adapter's with the collection fixed to
 * the State model (a `Store.Collection` of kind `StateKind`).
 */
module StateService {
  import opened Wrappers
  import opened Documents
  import opened Store

  /** One projected row; the district fields are absent for a state without districts. */
  datatype StateRow = StateRow(state: string, districtCode: Option<string>, district: Option<string>)

  ghost predicate AllStates(docs: seq<Doc>) {
    forall i :: 0 <= i < |docs| ==> docs[i].body.StateBody?
  }

  /** `$unwind` with `preserveNullAndEmptyArrays` followed by the projection, for one state. */
  function Unwound(d: Doc): (r: seq<StateRow>)
    requires d.body.StateBody?
    ensures |r| == RowsPerState(d)
  {
    var ds := d.body.districts;
    if ds == [] then [StateRow(d.name, None, None)]
    else seq(|ds|, k requires 0 <= k < |ds| => StateRow(d.name, Some(ds[k].code), Some(ds[k].name)))
  }

  /**
   * `row` is a row that state `d` can yield: `state` is its name, and the
   * district fields are one entry of its `districts` list, or both absent
   * when that list is empty.
   */
  ghost predicate RowOf(d: Doc, row: StateRow)
    requires d.body.StateBody?
  {
    row.state == d.name &&
    (row.district.Some? ==>
       row.districtCode.Some? && DistrictSummary(row.district.value, row.districtCode.value) in d.body.districts) &&
    (row.district.None? ==> row.districtCode.None? && d.body.districts == [])
  }

  /**
   * The rows of the `find` aggregation over a snapshot of the State
   * collection: as many as the matching states' max(1, number of districts) add up to.
   */
  function Find(docs: seq<Doc>, q: string): (r: seq<StateRow>)
    requires AllStates(docs)
    ensures |r| == ExpectedRows(docs, q)
  {
    if docs == [] then []
    else (if ListMatch(docs[0], q) then Unwound(docs[0]) else []) + Find(docs[1..], q)
  }

  /** max(1, number of districts): the rows one matching state yields. */
  function RowsPerState(d: Doc): nat
    requires d.body.StateBody?
  {
    if d.body.districts == [] then 1 else |d.body.districts|
  }

  /** The number of rows: the sum over matching states of max(1, number of districts). */
  function ExpectedRows(docs: seq<Doc>, q: string): nat
    requires AllStates(docs)
  {
    if docs == [] then 0
    else (if ListMatch(docs[0], q) then RowsPerState(docs[0]) else 0) + ExpectedRows(docs[1..], q)
  }

  /** One step of `Find`: the rows of the first state if it matches, then the rows of the rest. */
  lemma FindUnfold(docs: seq<Doc>, q: string)
    requires AllStates(docs) && docs != []
    ensures Find(docs, q) == (if ListMatch(docs[0], q) then Unwound(docs[0]) else []) + Find(docs[1..], q)
  {
  }

  /** Counting the rows of a non-empty prefix: the first state, then the rest. */
  lemma ExpectedRowsPrefixStep(docs: seq<Doc>, q: string, i: nat)
    requires AllStates(docs) && 0 < i <= |docs|
    ensures ExpectedRows(docs[..i], q) ==
      (if ListMatch(docs[0], q) then RowsPerState(docs[0]) else 0) + ExpectedRows(docs[1..][..i - 1], q)
  {
    assert docs[..i][1..] == docs[1..][..i - 1];
  }

  /** The tail and the prefixes the positional proof counts over hold states too. */
  lemma AllStatesSlices(docs: seq<Doc>, i: nat)
    requires AllStates(docs) && 0 < i <= |docs|
    ensures AllStates(docs[1..]) && AllStates(docs[..i]) && AllStates(docs[1..][..i - 1])
  {
  }

  /** The rows of a matching first entry come first, in list order. */
  lemma FindHead(docs: seq<Doc>, q: string, k: nat)
    requires AllStates(docs) && docs != [] && ListMatch(docs[0], q) && k < RowsPerState(docs[0])
    ensures ExpectedRows(docs[..0], q) == 0
    ensures k < |Find(docs, q)| && Find(docs, q)[k] == Unwound(docs[0])[k]
  {
    assert docs[..0] == [];
    FindUnfold(docs, q);
    IndexInPrefix(Find(docs, q), Unwound(docs[0]), Find(docs[1..], q), k);
  }

  /** Past the rows of the first entry, `Find` continues with the rows of the rest. */
  lemma FindStep(docs: seq<Doc>, q: string, m: nat)
    requires AllStates(docs) && docs != [] && m < |Find(docs[1..], q)|
    ensures var h := if ListMatch(docs[0], q) then RowsPerState(docs[0]) else 0;
      h + m < |Find(docs, q)| && Find(docs, q)[h + m] == Find(docs[1..], q)[m]
  {
    FindUnfold(docs, q);
    var head := if ListMatch(docs[0], q) then Unwound(docs[0]) else [];
    IndexPastPrefix(Find(docs, q), head, Find(docs[1..], q), m);
  }

  /**
   * The `k`-th row of a matching state sits after the rows of every state
   * before it: `$unwind` yields one row per `districts` entry, in list
   * order, and the states in store order.
   */
  lemma {:induction false} FindInStoreOrder(docs: seq<Doc>, q: string, i: nat, k: nat)
    requires AllStates(docs)
    requires i < |docs| && ListMatch(docs[i], q) && k < RowsPerState(docs[i])
    ensures ExpectedRows(docs[..i], q) + k < |Find(docs, q)|
    ensures Find(docs, q)[ExpectedRows(docs[..i], q) + k] == Unwound(docs[i])[k]
  {
    if i == 0 {
      FindHead(docs, q, k);
    } else {
      AllStatesSlices(docs, i);
      assert docs[1..][i - 1] == docs[i];
      FindInStoreOrder(docs[1..], q, i - 1, k);
      FindShift(docs, q, i, k);
    }
  }

  /** A row found among the rows of the rest moves past the rows of the first state. */
  lemma FindShift(docs: seq<Doc>, q: string, i: nat, k: nat)
    requires AllStates(docs) && 0 < i < |docs| && k < RowsPerState(docs[i])
    requires var n := ExpectedRows(docs[1..][..i - 1], q);
      n + k < |Find(docs[1..], q)| && Find(docs[1..], q)[n + k] == Unwound(docs[i])[k]
    ensures ExpectedRows(docs[..i], q) + k < |Find(docs, q)|
    ensures Find(docs, q)[ExpectedRows(docs[..i], q) + k] == Unwound(docs[i])[k]
  {
    ExpectedRowsPrefixStep(docs, q, i);
    FindStep(docs, q, ExpectedRows(docs[1..][..i - 1], q) + k);
  }

  /** Every row comes from an active state whose name passes the `q` filter. */
  lemma {:induction false} FindSound(docs: seq<Doc>, q: string, row: StateRow)
    requires AllStates(docs)
    requires row in Find(docs, q)
    ensures exists i :: 0 <= i < |docs| && ListMatch(docs[i], q) && RowOf(docs[i], row)
  {
    var head := if ListMatch(docs[0], q) then Unwound(docs[0]) else [];
    if row in head {
      var ds := docs[0].body.districts;
      if ds != [] {
        var k :| 0 <= k < |ds| && row == StateRow(docs[0].name, Some(ds[k].code), Some(ds[k].name));
        assert DistrictSummary(row.district.value, row.districtCode.value) == ds[k];
      }
      assert ListMatch(docs[0], q) && RowOf(docs[0], row);
    } else {
      assert row in Find(docs[1..], q);
      FindSound(docs[1..], q, row);
      var i :| 0 <= i < |docs[1..]| && ListMatch(docs[1..][i], q) && RowOf(docs[1..][i], row);
      assert docs[1..][i] == docs[i + 1];
    }
  }

  /**
   * Every matching state contributes one row per `districts` entry, or the
   * single row without district fields when its list is empty.
   */
  lemma {:induction false} FindComplete(docs: seq<Doc>, q: string, i: nat)
    requires AllStates(docs)
    requires i < |docs| && ListMatch(docs[i], q)
    ensures forall e :: e in docs[i].body.districts ==>
      StateRow(docs[i].name, Some(e.code), Some(e.name)) in Find(docs, q)
    ensures docs[i].body.districts == [] ==> StateRow(docs[i].name, None, None) in Find(docs, q)
  {
    if i == 0 {
      var ds := docs[0].body.districts;
      forall e | e in ds ensures StateRow(docs[0].name, Some(e.code), Some(e.name)) in Find(docs, q) {
        var k :| 0 <= k < |ds| && ds[k] == e;
        assert Unwound(docs[0])[k] == StateRow(docs[0].name, Some(e.code), Some(e.name));
      }
    } else {
      FindComplete(docs[1..], q, i - 1);
      assert docs[1..][i - 1] == docs[i];
    }
  }
}
