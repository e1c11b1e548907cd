/**
 * The denormalized child lists: `state.districts` and `district.towns`.
 * A summary is appended to a parent's list when a child is created
 * through the controllers, and never taken out again.
 */
module Hierarchy {
  import opened Documents

  ghost predicate DistrictNamesDistinct(entries: seq<DistrictSummary>) {
    forall a, b :: 0 <= a < b < |entries| ==> entries[a].name != entries[b].name
  }

  ghost predicate TownNamesDistinct(entries: seq<TownSummary>) {
    forall a, b :: 0 <= a < b < |entries| ==> entries[a].name != entries[b].name
  }

  /** No state lists the same district name twice. */
  ghost predicate StateListsDistinct(states: seq<Doc>) {
    forall i :: 0 <= i < |states| && states[i].body.StateBody? ==> DistrictNamesDistinct(states[i].body.districts)
  }

  /** No district lists the same town name twice. */
  ghost predicate DistrictListsDistinct(districts: seq<Doc>) {
    forall i :: 0 <= i < |districts| && districts[i].body.DistrictBody? ==> TownNamesDistinct(districts[i].body.towns)
  }

  /** `name` is the name of some stored document (of any status). */
  ghost predicate Stored(docs: seq<Doc>, name: string) {
    exists j :: 0 <= j < |docs| && docs[j].name == name
  }

  /** Every entry of every state's `districts` list names a stored district (deleted ones included). */
  ghost predicate StateListsBacked(states: seq<Doc>, districts: seq<Doc>) {
    forall i, k :: 0 <= i < |states| && states[i].body.StateBody? && 0 <= k < |states[i].body.districts| ==>
      Stored(districts, states[i].body.districts[k].name)
  }

  /** The state document with `s` appended to its `districts` list; nothing else changes. */
  function WithDistrict(st: Doc, s: DistrictSummary): (r: Doc)
    requires st.body.StateBody?
  {
    st.(body := st.body.(districts := st.body.districts + [s]))
  }

  /**
   * Creating a district that the unique index admits, and appending its
   * summary to the list of state `j`, keeps every state's list backed by
   * stored districts and free of repeated names: the district name index
   * covers every stored district, and every listed name is one of them.
   */
  lemma DistrictCreateKeepsLists(states: seq<Doc>, districts: seq<Doc>, j: nat, d: Doc)
    requires StateListsBacked(states, districts) && StateListsDistinct(states)
    requires j < |states| && states[j].body.StateBody?
    requires d.body.DistrictBody? && !Collides(DistrictKind, districts, d)
    ensures var states' := states[j := WithDistrict(states[j], DistrictSummary(d.name, d.body.code))];
      StateListsBacked(states', districts + [d]) && StateListsDistinct(states')
  {
    var s := DistrictSummary(d.name, d.body.code);
    var states' := states[j := WithDistrict(states[j], s)];
    var districts' := districts + [d];
    forall i, k | 0 <= i < |states'| && states'[i].body.StateBody? && 0 <= k < |states'[i].body.districts|
      ensures Stored(districts', states'[i].body.districts[k].name)
    {
      if i == j && k == |states[j].body.districts| {
        assert districts'[|districts|].name == s.name;
      } else {
        assert states'[i].body.districts[k] == states[i].body.districts[k];
        var w :| 0 <= w < |districts| && districts[w].name == states[i].body.districts[k].name;
        assert districts'[w] == districts[w];
      }
    }
    var old_ := states[j].body.districts;
    forall k | 0 <= k < |old_| ensures old_[k].name != s.name {
      var w :| 0 <= w < |districts| && districts[w].name == old_[k].name;
      assert !Clash(DistrictKind, districts[w], d);
    }
    assert DistrictNamesDistinct(old_ + [s]);
  }
}
