/** One association list for the whole table: what any bucketed table must be indistinguishable from. */
module FlatTable {
  import opened Words
  import opened Assoc
  import opened Hash
  import A = AtomicTable

  predicate InRange(n: nat, op: A.Op) {
    0 < n < TWO64 && BucketOf(op.key, n) < n
  }

  /** One operation on a bucketed table and its answer; a remove of an absent key has none. */
  function Apply(tab: seq<seq<KV>>, op: A.Op): (seq<seq<KV>>, A.Res)
    requires InRange(|tab|, op)
  {
    var b := BucketOf(op.key, |tab|);
    match op
    case Ins(k, v) => (tab[b := [KV(k, v)] + tab[b]], A.Done)
    case Get(k) => (tab, A.Val(Lookup(tab[b], k)))
    case Del(k) => (tab[b := RemoveFirst(tab[b], k)], if HasKey(tab[b], k) then A.Done else A.None)
  }

  function ApplyFlat(flat: seq<KV>, op: A.Op): (seq<KV>, A.Res) {
    match op
    case Ins(k, v) => ([KV(k, v)] + flat, A.Done)
    case Get(k) => (flat, A.Val(Lookup(flat, k)))
    case Del(k) => (RemoveFirst(flat, k), if HasKey(flat, k) then A.Done else A.None)
  }

  function Answers(tab: seq<seq<KV>>, ops: seq<A.Op>): seq<A.Res>
    requires forall i :: 0 <= i < |ops| ==> InRange(|tab|, ops[i])
    decreases |ops|
  {
    if ops == [] then []
    else
      assert InRange(|tab|, ops[0]);
      var (tab', r) := Apply(tab, ops[0]);
      [r] + Answers(tab', ops[1..])
  }

  function FlatAnswers(flat: seq<KV>, ops: seq<A.Op>): seq<A.Res>
    decreases |ops|
  {
    if ops == [] then []
    else
      var (flat', r) := ApplyFlat(flat, ops[0]);
      [r] + FlatAnswers(flat', ops[1..])
  }

  /** The pairs of the flat list that hash to bucket b, in order. */
  function Filter(flat: seq<KV>, n: u64, b: nat): seq<KV>
    requires n > 0
  {
    if flat == [] then []
    else (if BucketOf(flat[0].key, n) == b then [flat[0]] else []) + Filter(flat[1..], n, b)
  }

  ghost predicate Agree(tab: seq<seq<KV>>, flat: seq<KV>) {
    0 < |tab| < TWO64 && forall b :: 0 <= b < |tab| ==> tab[b] == Filter(flat, |tab|, b)
  }

  lemma {:induction false} FilterLookup(flat: seq<KV>, n: u64, k: u64)
    requires n > 0
    ensures Lookup(Filter(flat, n, BucketOf(k, n)), k) == Lookup(flat, k)
    ensures HasKey(Filter(flat, n, BucketOf(k, n)), k) <==> HasKey(flat, k)
  {
    hide BucketOf;
    if flat != [] {
      var f, g := Filter(flat, n, BucketOf(k, n)), Filter(flat[1..], n, BucketOf(k, n));
      FilterLookup(flat[1..], n, k);
      if flat[0].key == k {
        assert f[0] == flat[0];
      } else {
        HasKeyTail(flat, k);
        if f != g {
          assert f == [flat[0]] + g && f[1..] == g;
          HasKeyTail(f, k);
        }
      }
    }
  }

  lemma HasKeyTail(s: seq<KV>, k: u64)
    requires s != [] && s[0].key != k
    ensures HasKey(s, k) <==> HasKey(s[1..], k)
  {
    if HasKey(s, k) {
      var i :| 0 <= i < |s| && s[i].key == k;
      assert s[1..][i - 1].key == k;
    }
    if HasKey(s[1..], k) {
      var i :| 0 <= i < |s[1..]| && s[1..][i].key == k;
      assert s[i + 1].key == k;
    }
  }

  lemma {:induction false} FilterRemove(flat: seq<KV>, n: u64, k: u64, b: nat)
    requires n > 0
    ensures Filter(RemoveFirst(flat, k), n, b)
         == if b == BucketOf(k, n) then RemoveFirst(Filter(flat, n, b), k) else Filter(flat, n, b)
  {
    hide BucketOf;
    if flat != [] {
      var f, g := Filter(flat, n, b), Filter(flat[1..], n, b);
      if flat[0].key == k {
        if b == BucketOf(k, n) { assert f[0] == flat[0] && f[1..] == g; }
      } else {
        FilterRemove(flat[1..], n, k, b);
        var r := RemoveFirst(flat, k);
        assert r[0] == flat[0] && r[1..] == RemoveFirst(flat[1..], k);
        if f != g {
          assert f == [flat[0]] + g && f[1..] == g;
        }
      }
    }
  }

  lemma ApplyAgrees(tab: seq<seq<KV>>, flat: seq<KV>, op: A.Op)
    requires Agree(tab, flat) && InRange(|tab|, op)
    ensures Agree(Apply(tab, op).0, ApplyFlat(flat, op).0)
    ensures Apply(tab, op).1 == ApplyFlat(flat, op).1
  {
    hide BucketOf;
    var n := |tab|;
    var tab', flat' := Apply(tab, op).0, ApplyFlat(flat, op).0;
    FilterLookup(flat, n, op.key);
    forall b | 0 <= b < n ensures tab'[b] == Filter(flat', n, b) {
      match op
      case Ins(k, v) => assert flat'[1..] == flat;
      case Get(k) =>
      case Del(k) => FilterRemove(flat, n, k, b);
    }
  }

  /** For every sequence of operations the bucketed table answers exactly as one flat list does. */
  lemma {:induction false} BucketsAreInvisible(tab: seq<seq<KV>>, flat: seq<KV>, ops: seq<A.Op>)
    requires Agree(tab, flat) && forall i :: 0 <= i < |ops| ==> InRange(|tab|, ops[i])
    ensures Answers(tab, ops) == FlatAnswers(flat, ops)
    decreases |ops|
  {
    if ops != [] {
      assert InRange(|tab|, ops[0]);
      ApplyAgrees(tab, flat, ops[0]);
      BucketsAreInvisible(Apply(tab, ops[0]).0, ApplyFlat(flat, ops[0]).0, ops[1..]);
    }
  }

  lemma EmptyAgrees(tab: seq<seq<KV>>)
    requires 0 < |tab| < TWO64 && forall b :: 0 <= b < |tab| ==> tab[b] == []
    ensures Agree(tab, [])
  {}
}
