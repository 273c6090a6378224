/** The bucket array that all three tables keep: one list per bucket, sharing no memory. */
module Buckets {
  import opened Words
  import opened Assoc
  import opened Sums
  import opened BucketList
  import A = AtomicTable

  class BucketArray {
    const lists: seq<List>
    ghost var tab: seq<seq<KV>>         // what the buckets hold
    ghost var feet: seq<set<object>>    // the objects of each list
    ghost var repr: set<object>         // every object in use

    ghost predicate Valid()
      reads this, repr
      ensures Valid() ==> this in repr && |tab| == |lists|
    {
      && this in repr && |tab| == |feet| == |lists|
      && (forall i, j :: 0 <= i < j < |feet| ==> feet[i] !! feet[j])
      && (forall i :: 0 <= i < |lists| ==> ListOk(i))
    }

    ghost predicate ListOk(i: nat)
      requires i < |lists| == |feet| == |tab|
      reads this, repr
    {
      && feet[i] <= repr && this !in feet[i] && lists[i] in feet[i]
      && lists[i].repr == feet[i] && lists[i].Valid() && tab[i] == lists[i].items
    }

    constructor (n: nat)
      ensures Valid() && fresh(repr) && |lists| == n
      ensures forall b :: 0 <= b < n ==> tab[b] == []
    {
      var ls: seq<List> := [];
      ghost var fs: seq<set<object>> := [];
      ghost var objects: set<object> := {};
      for i := 0 to n
        invariant |ls| == |fs| == i && fresh(objects)
        invariant forall j :: 0 <= j < i ==> ls[j].Valid() && ls[j].items == [] && ls[j].repr == fs[j] <= objects
        invariant forall j, k :: 0 <= j < k < i ==> fs[j] !! fs[k]
      {
        var l := new List();
        ls, fs := ls + [l], fs + [l.repr];
        objects := objects + l.repr;
      }
      lists := ls;
      feet := fs;
      tab := seq(n, _ => []);
      repr := {this} + objects;
    }

    /** Brings the specification state up to date after a change confined to list b and its new nodes. */
    ghost method Update(b: nat)
      requires b < |lists| == |feet| == |tab| && this in repr && this !in lists[b].repr
      requires lists[b].Valid() && forall i :: 0 <= i < |lists| && i != b ==> ListOk(i) && feet[i] !! lists[b].repr
      requires forall i, j :: 0 <= i < j < |feet| ==> feet[i] !! feet[j]
      modifies this
      ensures Valid() && repr == old(repr) + lists[b].repr
      ensures tab == old(tab)[b := lists[b].items]
    {
      tab := tab[b := lists[b].items];
      feet := feet[b := lists[b].repr];
      repr := repr + lists[b].repr;
      forall i | 0 <= i < |lists| ensures ListOk(i) {
        assert i != b ==> old(ListOk(i));
      }
    }

    method Insert(b: nat, key: u64, val: u64) returns (ok: bool)
      requires Valid() && b < |lists|
      modifies repr
      ensures Valid() && ok && fresh(repr - old(repr))
      ensures tab == old(tab)[b := [KV(key, val)] + old(tab)[b]]
    {
      assert ListOk(b);
      ok := lists[b].Insert(key, val);
      forall i | 0 <= i < |lists| && i != b ensures ListOk(i) && feet[i] !! lists[b].repr {
        assert old(ListOk(i)) && feet[i] !! feet[b];
      }
      Update(b);
    }

    method LfInsert(b: nat, key: u64, val: u64) returns (ok: bool)
      requires Valid() && b < |lists|
      modifies repr
      ensures Valid() && ok && fresh(repr - old(repr))
      ensures tab == old(tab)[b := [KV(key, val)] + old(tab)[b]]
    {
      assert ListOk(b);
      ok := lists[b].LfInsert(key, val);
      forall i | 0 <= i < |lists| && i != b ensures ListOk(i) && feet[i] !! lists[b].repr {
        assert old(ListOk(i)) && feet[i] !! feet[b];
      }
      Update(b);
    }

    method Remove(b: nat, key: u64) returns (found: bool)
      requires Valid() && b < |lists|
      modifies repr
      ensures Valid() && repr == old(repr)
      ensures found <==> HasKey(old(tab)[b], key)
      ensures tab == old(tab)[b := RemoveFirst(old(tab)[b], key)]
    {
      assert ListOk(b);
      found := lists[b].Remove(key);
      forall i | 0 <= i < |lists| && i != b ensures ListOk(i) && feet[i] !! lists[b].repr {
        assert old(ListOk(i)) && feet[i] !! feet[b];
      }
      Update(b);
    }

    method Lookup(b: nat, key: u64) returns (val: u64)
      requires Valid() && b < |lists|
      ensures val == Assoc.Lookup(tab[b], key)
    {
      assert ListOk(b);
      val := lists[b].Lookup(key);
    }

    /** get_node_count: the total of the list sizes in a C int. */
    method NodeCount() returns (total: int32)
      requires Valid() && A.NodeCount(tab) <= INT_MAX
      ensures total as int == A.NodeCount(tab)
    {
      ghost var sizes := A.Sizes(tab);
      total := 0;
      assert sizes[0..] == sizes;
      for i := 0 to |lists|
        invariant total as int + Sum(sizes[i..]) == Sum(sizes)
        invariant 0 <= total as int
      {
        assert ListOk(i);
        assert sizes[i..][1..] == sizes[i + 1..] && sizes[i..][0] == |lists[i].items|;
        SumNonNegative(sizes[i + 1..]);
        var n := lists[i].GetListSize();
        total := total + n;
      }
      assert sizes[|lists|..] == [];
      assert A.NodeCount(tab) == Sum(sizes);
    }
  }

  lemma SumNonNegative(s: seq<int>)
    requires forall i :: 0 <= i < |s| ==> s[i] >= 0
    ensures Sum(s) >= 0
  {}
}
