// Ascending traversal of finite sets of ids and of maps keyed by them.
module Ids {
  import opened Model

  lemma {:induction false} HasMinimumBelow(s: set<nat>, x: nat)
    requires x in s
    ensures exists k :: k in s && forall y :: y in s ==> k <= y
    decreases x
  {
    if y :| y in s && y < x {
      HasMinimumBelow(s, y);
    }
  }

  function Minimum(s: set<nat>): (k: nat)
    requires s != {}
    ensures k in s && forall x :: x in s ==> k <= x
  {
    assert exists k :: k in s && forall x :: x in s ==> k <= x by {
      var x :| x in s;
      HasMinimumBelow(s, x);
    }
    var k :| k in s && forall x :: x in s ==> k <= x;
    k
  }

  // The keys in the order a BTreeMap yields them.
  function SortedIds(s: set<nat>): (r: seq<nat>)
    ensures |r| == |s|
    ensures forall x :: x in r <==> x in s
  {
    if s == {} then [] else
      var k := Minimum(s);
      [k] + SortedIds(s - {k})
  }

  lemma SortedIdsFirst(s: set<nat>)
    requires s != {}
    ensures SortedIds(s) == [Minimum(s)] + SortedIds(s - {Minimum(s)})
  {
  }

  lemma {:induction false} SortedIdsAscend(s: set<nat>, i: nat, j: nat)
    requires i < j < |s|
    ensures SortedIds(s)[i] < SortedIds(s)[j]
  {
    hide SortedIds;
    SortedIdsFirst(s);
    var rest := s - {Minimum(s)};
    if i == 0 {
      assert SortedIds(rest)[j - 1] in rest;
    } else {
      SortedIdsAscend(rest, i - 1, j - 1);
    }
  }

  // The catalog listing: every export once, ascending by id.
  function Listing(byId: Exports): (r: seq<Export>)
    ensures |r| == |byId|
  {
    var ids := SortedIds(byId.Keys);
    seq(|ids|, i requires 0 <= i < |ids| => assert ids[i] in ids; byId[ids[i]])
  }

  lemma ListingAt(byId: Exports, i: nat)
    requires i < |Listing(byId)|
    ensures SortedIds(byId.Keys)[i] in byId && Listing(byId)[i] == byId[SortedIds(byId.Keys)[i]]
  {
    assert SortedIds(byId.Keys)[i] in SortedIds(byId.Keys);
  }

  lemma ListingMembers(byId: Exports)
    ensures forall e :: e in Listing(byId) <==> exists u :: u in byId && byId[u] == e
  {
    hide Listing, SortedIds;
    var ids := SortedIds(byId.Keys);
    var r := Listing(byId);
    forall u | u in byId
      ensures byId[u] in r
    {
      assert u in ids;
      var i :| 0 <= i < |ids| && ids[i] == u;
      ListingAt(byId, i);
    }
    forall e | e in r
      ensures exists u :: u in byId && byId[u] == e
    {
      var i :| 0 <= i < |r| && r[i] == e;
      ListingAt(byId, i);
    }
  }

  lemma ListingDistinct(byId: Exports)
    requires forall u :: u in byId ==> byId[u].exportId == u
    ensures DistinctIds(Listing(byId))
    ensures forall i, j :: 0 <= i < j < |Listing(byId)| ==> Listing(byId)[i].exportId < Listing(byId)[j].exportId
  {
    hide Listing, SortedIds;
    var ids := SortedIds(byId.Keys);
    var r := Listing(byId);
    forall i, j | 0 <= i < j < |r|
      ensures r[i].exportId < r[j].exportId
    {
      ListingAt(byId, i);
      ListingAt(byId, j);
      SortedIdsAscend(byId.Keys, i, j);
    }
  }
}
