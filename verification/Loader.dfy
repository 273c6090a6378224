/** The load phase of ycsb.cpp: how positions are divided among threads, and what the table holds afterwards. */
module Loader {
  import opened Words
  import opened Assoc
  import opened Sums
  import opened Hash
  import opened Buckets
  import opened FlatTable
  import opened Tables
  import A = AtomicTable
  import VlMachine
  import VlTheorems
  import LfMachine
  import LfTheorems

  /** start_key and end_key of thread t out of T, over load positions. */
  function StartKey(load: nat, T: nat, t: nat): nat
    requires T > 0
  {
    load / T * t
  }

  function EndKey(load: nat, T: nat, t: nat): nat
    requires T > 0
  {
    StartKey(load, T, t) + load / T
  }

  lemma Mono(q: nat, a: int, b: int)
    requires a <= b
    ensures q * a <= q * b
  {}

  /** Block t of size q holds exactly the positions whose quotient is t. */
  lemma BlockOf(q: nat, t: nat, p: nat)
    requires q > 0
    ensures q * t <= p < q * t + q <==> t == p / q
  {
    var d := p / q;
    DivBounds(q, p);
    if t < d {
      Mono(q, t + 1, d);
      assert q * (t + 1) == q * t + q;
    } else if d < t {
      Mono(q, d + 1, t);
      assert q * (d + 1) == q * d + q;
    }
  }

  lemma DivBounds(q: nat, p: nat)
    requires q > 0
    ensures q * (p / q) <= p < q * (p / q) + q
  {}

  lemma BelowBlocks(q: nat, T: nat, p: nat)
    requires q > 0
    ensures p < q * T <==> p / q < T
  {
    var d := p / q;
    DivBounds(q, p);
    if d < T {
      Mono(q, d + 1, T);
      assert q * (d + 1) == q * d + q;
    } else {
      Mono(q, T, d);
    }
  }

  /**
   The ranges are disjoint and cover exactly the first T * floor(load / T) positions: position p is in
   range t precisely when it is below that bound and t is its block number.
   */
  lemma RangesPartition(load: nat, T: nat, t: nat, p: nat)
    requires T > 0
    ensures t < T && StartKey(load, T, t) <= p < EndKey(load, T, t)
       <==> load / T > 0 && p < load / T * T && t == p / (load / T)
  {
    var q := load / T;
    if q > 0 {
      BlockOf(q, t, p);
      BelowBlocks(q, T, p);
    }
  }

  /** Every range lies within the loaded positions. */
  lemma RangeFits(load: nat, T: nat, t: nat)
    requires t < T
    ensures EndKey(load, T, t) <= load / T * T <= load
  {
    Mono(load / T, t + 1, T);
    assert load / T * (t + 1) == load / T * t + load / T;
    DivBounds(T, load);
  }

  /** The calls one worker makes: each key of its range inserted as its own value. */
  function Program(keys: seq<u64>, T: nat, t: nat): (ops: seq<A.Op>)
    requires 0 < T && t < T
    ensures |ops| == |keys| / T
  {
    RangeFits(|keys|, T, t);
    seq(|keys| / T, j requires 0 <= j < |keys| / T =>
      A.Ins(keys[StartKey(|keys|, T, t) + j], keys[StartKey(|keys|, T, t) + j]))
  }

  // ----- one worker at a time -----

  /** The table after inserting keys[start..i] as their own values. */
  function Inserted(tab: seq<seq<KV>>, keys: seq<u64>, start: nat, i: nat): (r: seq<seq<KV>>)
    requires start <= i <= |keys| && 0 < |tab| < TWO64
    requires forall p :: start <= p < i ==> BucketOf(keys[p], |tab|) < |tab|
    ensures |r| == |tab|
    decreases i
  {
    if i == start then tab
    else
      var before := Inserted(tab, keys, start, i - 1);
      var b := BucketOf(keys[i - 1], |tab|);
      before[b := [KV(keys[i - 1], keys[i - 1])] + before[b]]
  }

  lemma InsertedNext(tab: seq<seq<KV>>, keys: seq<u64>, start: nat, i: nat)
    requires start <= i < |keys| && 0 < |tab| < TWO64
    requires forall p :: start <= p <= i ==> BucketOf(keys[p], |tab|) < |tab|
    ensures InRange(|tab|, A.Ins(keys[i], keys[i]))
    ensures Inserted(tab, keys, start, i + 1) == Apply(Inserted(tab, keys, start, i), A.Ins(keys[i], keys[i])).0
  {
    hide BucketOf;
  }

  /**
   What a worker's inserts leave: every key it inserted looks up to itself, no other key's answer has changed,
   and the table has grown by their number.
   */
  lemma {:induction false} InsertedLooksUp(tab: seq<seq<KV>>, keys: seq<u64>, start: nat, i: nat, k: u64)
    requires start <= i <= |keys| && 0 < |tab| < TWO64 && BucketOf(k, |tab|) < |tab|
    requires forall p :: start <= p < i ==> BucketOf(keys[p], |tab|) < |tab|
    ensures var r := Inserted(tab, keys, start, i);
            && Lookup(r[BucketOf(k, |tab|)], k)
            == (if k in keys[start..i] then k else Lookup(tab[BucketOf(k, |tab|)], k))
            && A.NodeCount(r) == A.NodeCount(tab) + (i - start)
    decreases i
  {
    hide BucketOf;
    if start < i {
      var before := Inserted(tab, keys, start, i - 1);
      var b := BucketOf(keys[i - 1], |tab|);
      InsertedLooksUp(tab, keys, start, i - 1, k);
      A.NodeCountUpdate(before, b, [KV(keys[i - 1], keys[i - 1])] + before[b]);
      InsertThenRemoveRestores(before[b], keys[i - 1], keys[i - 1], k);
      assert keys[start..i] == keys[start..i - 1] + [keys[i - 1]];
    }
  }

  /** The worker lambda on a version-locked table nobody else is using. */
  method VlWorker(table: VlHashTable, keys: seq<u64>, T: nat, t: nat)
    requires t < T && table.Valid() && table.Ready(|keys| / T) && |table.ht.tab| == table.n
    requires forall p :: 0 <= p < |keys| ==> BucketOf(keys[p], table.n) < table.n
    modifies table.ht.repr, table.locks
    ensures table.Valid() && fresh(table.ht.repr - old(table.ht.repr))
    ensures EndKey(|keys|, T, t) <= |keys| && |old(table.ht.tab)| == table.n
    ensures table.ht.tab == Inserted(old(table.ht.tab), keys, StartKey(|keys|, T, t), EndKey(|keys|, T, t))
  {
    hide BucketOf, BucketArray.Valid, Apply;
    RangeFits(|keys|, T, t);
    var startKey := StartKey(|keys|, T, t);
    var endKey := EndKey(|keys|, T, t);
    assert endKey - startKey == |keys| / T;
    assert table.ht.tab == Inserted(table.ht.tab, keys, startKey, startKey);
    hide Inserted, StartKey, EndKey;
    for i := startKey to endKey
      invariant table.Valid() && table.Ready(endKey - i) && fresh(table.ht.repr - old(table.ht.repr))
      invariant table.ht.tab == Inserted(old(table.ht.tab), keys, startKey, i)
    {
      var insResult := table.Insert(keys[i], keys[i]);
      assert insResult;
      InsertedNext(old(table.ht.tab), keys, startKey, i);
    }
  }

  /** The same lambda on a table with reader-writer locks. */
  method RwWorker(table: RwHashTable, keys: seq<u64>, T: nat, t: nat)
    requires t < T && table.Valid() && |table.ht.tab| == table.n
    requires forall p :: 0 <= p < |keys| ==> BucketOf(keys[p], table.n) < table.n
    modifies table.ht.repr, table.locks
    ensures table.Valid() && fresh(table.ht.repr - old(table.ht.repr))
    ensures EndKey(|keys|, T, t) <= |keys| && |old(table.ht.tab)| == table.n
    ensures table.ht.tab == Inserted(old(table.ht.tab), keys, StartKey(|keys|, T, t), EndKey(|keys|, T, t))
  {
    hide BucketOf, BucketArray.Valid, Apply;
    RangeFits(|keys|, T, t);
    var startKey := StartKey(|keys|, T, t);
    var endKey := EndKey(|keys|, T, t);
    assert endKey - startKey == |keys| / T;
    assert table.ht.tab == Inserted(table.ht.tab, keys, startKey, startKey);
    hide Inserted, StartKey, EndKey;
    for i := startKey to endKey
      invariant table.Valid() && fresh(table.ht.repr - old(table.ht.repr))
      invariant table.ht.tab == Inserted(old(table.ht.tab), keys, startKey, i)
    {
      var insResult := table.Insert(keys[i], keys[i]);
      assert insResult;
      InsertedNext(old(table.ht.tab), keys, startKey, i);
    }
  }

  /** The same lambda on a lock-free table. */
  method LfWorker(table: LfHashTable, keys: seq<u64>, T: nat, t: nat)
    requires t < T && table.Valid() && |table.ht.tab| == table.n
    requires forall p :: 0 <= p < |keys| ==> BucketOf(keys[p], table.n) < table.n
    modifies table.ht.repr
    ensures table.Valid() && fresh(table.ht.repr - old(table.ht.repr))
    ensures EndKey(|keys|, T, t) <= |keys| && |old(table.ht.tab)| == table.n
    ensures table.ht.tab == Inserted(old(table.ht.tab), keys, StartKey(|keys|, T, t), EndKey(|keys|, T, t))
  {
    hide BucketOf, BucketArray.Valid, Apply;
    RangeFits(|keys|, T, t);
    var startKey := StartKey(|keys|, T, t);
    var endKey := EndKey(|keys|, T, t);
    assert endKey - startKey == |keys| / T;
    assert table.ht.tab == Inserted(table.ht.tab, keys, startKey, startKey);
    hide Inserted, StartKey, EndKey;
    for i := startKey to endKey
      invariant table.Valid() && fresh(table.ht.repr - old(table.ht.repr))
      invariant table.ht.tab == Inserted(old(table.ht.tab), keys, startKey, i)
    {
      var insResult := table.Insert(keys[i], keys[i]);
      assert insResult;
      InsertedNext(old(table.ht.tab), keys, startKey, i);
    }
  }

  // ----- all workers at once, in any interleaving -----

  lemma {:induction false} NetOfLoads(ops: seq<A.Op>)
    requires forall j :: 0 <= j < |ops| ==> A.IsLoad(ops[j])
    ensures A.Net(ops) == |ops|
  {
    if ops != [] { NetOfLoads(ops[..|ops| - 1]); }
  }

  /** Every thread has made exactly the calls of its worker, and all have returned. */
  ghost predicate AllLoaded(s: A.AS, keys: seq<u64>, T: nat) {
    |s.ths| == T > 0 && A.Quiescent(s) && forall t :: 0 <= t < T ==> s.ths[t].hist == Program(keys, T, t)
  }

  lemma OnlyLoads(s: A.AS, keys: seq<u64>, T: nat)
    requires AllLoaded(s, keys, T)
    ensures A.OnlyLoads(s) && forall t :: 0 <= t < T ==> A.Net(s.ths[t].hist) == |keys| / T
  {
    forall t | 0 <= t < T
      ensures A.Net(s.ths[t].hist) == |keys| / T
      ensures forall j :: 0 <= j < |s.ths[t].hist| ==> A.IsLoad(s.ths[t].hist[j])
    {
      assert s.ths[t].hist == Program(keys, T, t);
      NetOfLoads(s.ths[t].hist);
    }
  }

  lemma CoveredLooksUp(strict: bool, tr: seq<A.AS>, i: nat, keys: seq<u64>, T: nat, p: nat)
    requires A.Run(strict, tr) && i < |tr| && AllLoaded(tr[i], keys, T) && p < |keys| / T * T <= |keys|
    ensures LooksUpToItself(tr[i].tab, keys[p])
  {
    hide A.Run, BucketOf;
    OnlyLoads(tr[i], keys, T);
    var t := p / (|keys| / T);
    RangesPartition(|keys|, T, t, p);
    var j := p - StartKey(|keys|, T, t);
    assert tr[i].ths[t].hist == Program(keys, T, t);
    A.LoadedLooksUp(strict, tr, i, t, j);
  }

  /**
   After the workers of a load phase have finished, in any interleaving, every covered key looks up to
   itself and the table holds exactly T * floor(load / T) nodes.
   */
  lemma LoadComplete(strict: bool, tr: seq<A.AS>, i: nat, keys: seq<u64>, T: nat)
    requires A.Run(strict, tr) && i < |tr| && AllLoaded(tr[i], keys, T)
    ensures A.NodeCount(tr[i].tab) == |keys| / T * T <= |keys|
    ensures forall p :: 0 <= p < |keys| / T * T ==> LooksUpToItself(tr[i].tab, keys[p])
  {
    hide A.Run, BucketOf, LooksUpToItself;
    OnlyLoads(tr[i], keys, T);
    A.NodeCountConserved(strict, tr, i);
    SumConstant(A.HistNets(tr[i].ths), |keys| / T);
    RangeFits(|keys|, T, 0);
    forall p | 0 <= p < |keys| / T * T ensures LooksUpToItself(tr[i].tab, keys[p]) {
      CoveredLooksUp(strict, tr, i, keys, T, p);
    }
  }

  ghost predicate LooksUpToItself(tab: seq<seq<KV>>, k: u64) {
    0 < |tab| < TWO64 && BucketOf(k, |tab|) < |tab| && Lookup(tab[BucketOf(k, |tab|)], k) == k
  }

  /** The load phase over the version-locked table, at the level of its atomic accesses. */
  lemma VlLoadComplete(tr: seq<VlMachine.VS>, keys: seq<u64>, T: nat)
    requires VlMachine.Run(tr) && |keys| < TWO63 - 1
    requires AllLoaded(VlTheorems.Abs(tr[|tr| - 1]), keys, T)
    ensures A.NodeCount(VlTheorems.Abs(tr[|tr| - 1]).tab) == |keys| / T * T <= |keys|
    ensures forall p :: 0 <= p < |keys| / T * T ==> LooksUpToItself(VlTheorems.Abs(tr[|tr| - 1]).tab, keys[p])
  {
    hide VlMachine.StepBy;
    var last := tr[|tr| - 1];
    var calls := VlTheorems.Calls(last.ths);
    forall t | 0 <= t < |calls| ensures calls[t] == |keys| / T {
      assert VlTheorems.Abs(last).ths[t].hist == last.ths[t].hist == Program(keys, T, t);
    }
    SumConstant(calls, |keys| / T);
    RangeFits(|keys|, T, 0);
    VlTheorems.FewCallsStayBelow(tr);
    VlTheorems.WritersAreAtomic(tr);
    assert VlTheorems.AbsRun(tr)[|tr| - 1] == VlTheorems.Abs(last);
    LoadComplete(false, VlTheorems.AbsRun(tr), |tr| - 1, keys, T);
  }

  /** The load phase over the lock-free table, at the level of its atomic accesses. */
  lemma LfLoadComplete(tr: seq<LfMachine.LS>, keys: seq<u64>, T: nat)
    requires LfMachine.Run(tr)
    requires AllLoaded(LfTheorems.AbsLf(tr[|tr| - 1]), keys, T)
    ensures A.NodeCount(LfTheorems.AbsLf(tr[|tr| - 1]).tab) == |keys| / T * T <= |keys|
    ensures forall p :: 0 <= p < |keys| / T * T ==> LooksUpToItself(LfTheorems.AbsLf(tr[|tr| - 1]).tab, keys[p])
  {
    LfTheorems.RefinesAtomicTable(tr);
    assert LfTheorems.AbsRunLf(tr)[|tr| - 1] == LfTheorems.AbsLf(tr[|tr| - 1]);
    LoadComplete(true, LfTheorems.AbsRunLf(tr), |tr| - 1, keys, T);
  }
}
