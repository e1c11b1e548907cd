/**
 * The district service's list query: `$match` (active, name filter),
 * `$unwind` of `towns` keeping districts without towns, and `$project` to
 * `{town, Urban_status, State, State_code, District, District_code}`
 * without `_id`. Its other operations are the adapter's with the
 * collection fixed to the District model (a `Store.Collection` of kind
 * `DistrictKind`).
 */
module DistrictService {
  import opened Wrappers
  import opened Documents
  import opened Store

  /** One projected row; the town fields are absent for a district without towns. */
  datatype DistrictRow = DistrictRow(
    town: Option<string>, urbanStatus: Option<string>,
    state: string, stateCode: string, district: string, districtCode: string)

  ghost predicate AllDistricts(docs: seq<Doc>) {
    forall i :: 0 <= i < |docs| ==> docs[i].body.DistrictBody?
  }

  /** `$unwind` with `preserveNullAndEmptyArrays` followed by the projection, for one district. */
  function Unwound(d: Doc): (r: seq<DistrictRow>)
    requires d.body.DistrictBody?
    ensures |r| == RowsPerDistrict(d)
  {
    var ts := d.body.towns;
    var st := d.body.state;
    if ts == [] then
      [DistrictRow(None, None, st.name, st.code, d.name, d.body.code)]
    else
      seq(|ts|, k requires 0 <= k < |ts| =>
        DistrictRow(Some(ts[k].name), Some(ts[k].urbanStatus), st.name, st.code, d.name, d.body.code))
  }

  /**
   * `row` is a row that district `d` can yield: the state fields come from
   * its state snapshot, the district fields from the district itself, and
   * the town fields are one entry of its `towns` list, or both absent when
   * that list is empty.
   */
  ghost predicate RowOf(d: Doc, row: DistrictRow)
    requires d.body.DistrictBody?
  {
    row.state == d.body.state.name && row.stateCode == d.body.state.code &&
    row.district == d.name && row.districtCode == d.body.code &&
    (row.town.Some? ==>
       row.urbanStatus.Some? && TownSummary(row.town.value, row.urbanStatus.value) in d.body.towns) &&
    (row.town.None? ==> row.urbanStatus.None? && d.body.towns == [])
  }

  /**
   * The rows of the `find` aggregation over a snapshot of the District
   * collection: as many as the matching districts' max(1, number of towns) add up to.
   */
  function Find(docs: seq<Doc>, q: string): (r: seq<DistrictRow>)
    requires AllDistricts(docs)
    ensures |r| == ExpectedRows(docs, q)
  {
    if docs == [] then []
    else (if ListMatch(docs[0], q) then Unwound(docs[0]) else []) + Find(docs[1..], q)
  }

  /** max(1, number of towns): the rows one matching district yields. */
  function RowsPerDistrict(d: Doc): nat
    requires d.body.DistrictBody?
  {
    if d.body.towns == [] then 1 else |d.body.towns|
  }

  /** The sum over matching districts of max(1, number of towns). */
  function ExpectedRows(docs: seq<Doc>, q: string): nat
    requires AllDistricts(docs)
  {
    if docs == [] then 0
    else (if ListMatch(docs[0], q) then RowsPerDistrict(docs[0]) else 0) + ExpectedRows(docs[1..], q)
  }

  /** One step of `Find`: the rows of the first district if it matches, then the rows of the rest. */
  lemma FindUnfold(docs: seq<Doc>, q: string)
    requires AllDistricts(docs) && docs != []
    ensures Find(docs, q) == (if ListMatch(docs[0], q) then Unwound(docs[0]) else []) + Find(docs[1..], q)
  {
  }

  /** Counting the rows of a non-empty prefix: the first district, then the rest. */
  lemma ExpectedRowsPrefixStep(docs: seq<Doc>, q: string, i: nat)
    requires AllDistricts(docs) && 0 < i <= |docs|
    ensures ExpectedRows(docs[..i], q) ==
      (if ListMatch(docs[0], q) then RowsPerDistrict(docs[0]) else 0) + ExpectedRows(docs[1..][..i - 1], q)
  {
    assert docs[..i][1..] == docs[1..][..i - 1];
  }

  /** The tail and the prefixes the positional proof counts over hold districts too. */
  lemma AllDistrictsSlices(docs: seq<Doc>, i: nat)
    requires AllDistricts(docs) && 0 < i <= |docs|
    ensures AllDistricts(docs[1..]) && AllDistricts(docs[..i]) && AllDistricts(docs[1..][..i - 1])
  {
  }

  /** The rows of a matching first entry come first, in list order. */
  lemma FindHead(docs: seq<Doc>, q: string, k: nat)
    requires AllDistricts(docs) && docs != [] && ListMatch(docs[0], q) && k < RowsPerDistrict(docs[0])
    ensures ExpectedRows(docs[..0], q) == 0
    ensures k < |Find(docs, q)| && Find(docs, q)[k] == Unwound(docs[0])[k]
  {
    assert docs[..0] == [];
    FindUnfold(docs, q);
    IndexInPrefix(Find(docs, q), Unwound(docs[0]), Find(docs[1..], q), k);
  }

  /** Past the rows of the first entry, `Find` continues with the rows of the rest. */
  lemma FindStep(docs: seq<Doc>, q: string, m: nat)
    requires AllDistricts(docs) && docs != [] && m < |Find(docs[1..], q)|
    ensures var h := if ListMatch(docs[0], q) then RowsPerDistrict(docs[0]) else 0;
      h + m < |Find(docs, q)| && Find(docs, q)[h + m] == Find(docs[1..], q)[m]
  {
    FindUnfold(docs, q);
    var head := if ListMatch(docs[0], q) then Unwound(docs[0]) else [];
    IndexPastPrefix(Find(docs, q), head, Find(docs[1..], q), m);
  }

  /**
   * The `k`-th row of a matching district sits after the rows of every
   * district before it: `$unwind` yields one row per `towns` entry, in list
   * order, and the districts in store order.
   */
  lemma {:induction false} FindInStoreOrder(docs: seq<Doc>, q: string, i: nat, k: nat)
    requires AllDistricts(docs)
    requires i < |docs| && ListMatch(docs[i], q) && k < RowsPerDistrict(docs[i])
    ensures ExpectedRows(docs[..i], q) + k < |Find(docs, q)|
    ensures Find(docs, q)[ExpectedRows(docs[..i], q) + k] == Unwound(docs[i])[k]
  {
    if i == 0 {
      FindHead(docs, q, k);
    } else {
      AllDistrictsSlices(docs, i);
      assert docs[1..][i - 1] == docs[i];
      FindInStoreOrder(docs[1..], q, i - 1, k);
      FindShift(docs, q, i, k);
    }
  }

  /** A row found among the rows of the rest moves past the rows of the first district. */
  lemma FindShift(docs: seq<Doc>, q: string, i: nat, k: nat)
    requires AllDistricts(docs) && 0 < i < |docs| && k < RowsPerDistrict(docs[i])
    requires var n := ExpectedRows(docs[1..][..i - 1], q);
      n + k < |Find(docs[1..], q)| && Find(docs[1..], q)[n + k] == Unwound(docs[i])[k]
    ensures ExpectedRows(docs[..i], q) + k < |Find(docs, q)|
    ensures Find(docs, q)[ExpectedRows(docs[..i], q) + k] == Unwound(docs[i])[k]
  {
    ExpectedRowsPrefixStep(docs, q, i);
    FindStep(docs, q, ExpectedRows(docs[1..][..i - 1], q) + k);
  }

  /** Every row comes from an active district whose name passes the `q` filter. */
  lemma {:induction false} FindSound(docs: seq<Doc>, q: string, row: DistrictRow)
    requires AllDistricts(docs)
    requires row in Find(docs, q)
    ensures exists i :: 0 <= i < |docs| && ListMatch(docs[i], q) && RowOf(docs[i], row)
  {
    var head := if ListMatch(docs[0], q) then Unwound(docs[0]) else [];
    if row in head {
      var ts := docs[0].body.towns;
      if ts != [] {
        var k :| 0 <= k < |ts| && row == Unwound(docs[0])[k];
        assert TownSummary(row.town.value, row.urbanStatus.value) == ts[k];
      }
      assert ListMatch(docs[0], q) && RowOf(docs[0], row);
    } else {
      assert row in Find(docs[1..], q);
      FindSound(docs[1..], q, row);
      var i :| 0 <= i < |docs[1..]| && ListMatch(docs[1..][i], q) && RowOf(docs[1..][i], row);
      assert docs[1..][i] == docs[i + 1];
    }
  }

  /**
   * Every matching district contributes one row per `towns` entry, or the
   * single row without town fields when it has no towns.
   */
  lemma {:induction false} FindComplete(docs: seq<Doc>, q: string, i: nat)
    requires AllDistricts(docs)
    requires i < |docs| && ListMatch(docs[i], q)
    ensures var d := docs[i]; forall t :: t in d.body.towns ==>
      DistrictRow(Some(t.name), Some(t.urbanStatus), d.body.state.name, d.body.state.code, d.name, d.body.code)
        in Find(docs, q)
    ensures var d := docs[i]; d.body.towns == [] ==>
      DistrictRow(None, None, d.body.state.name, d.body.state.code, d.name, d.body.code) in Find(docs, q)
  {
    if i == 0 {
      var d := docs[0];
      var ts := d.body.towns;
      forall t | t in ts
        ensures DistrictRow(Some(t.name), Some(t.urbanStatus), d.body.state.name, d.body.state.code, d.name, d.body.code)
          in Find(docs, q)
      {
        var k :| 0 <= k < |ts| && ts[k] == t;
        assert Unwound(d)[k] ==
          DistrictRow(Some(t.name), Some(t.urbanStatus), d.body.state.name, d.body.state.code, d.name, d.body.code);
      }
    } else {
      FindComplete(docs[1..], q, i - 1);
      assert docs[1..][i - 1] == docs[i];
    }
  }
}
