/**
 The three hash tables as objects, each call running undisturbed: vlht.hpp with its version locks,
 rwht.hpp with an abstract reader-writer lock, lfht.hpp over the lock-free list.
 */
module Tables {
  import opened Words
  import opened Assoc
  import opened Hash
  import opened LockMachine
  import opened VersionLock
  import opened Buckets
  import opened FlatTable
  import A = AtomicTable

  // ----- vl_hash_table -----

  class VlHashTable {
    const n: u64
    const ht: BucketArray
    const locks: seq<VersionLock>

    /** The locks may be in any state. */
    ghost predicate Valid()
      reads ht, ht.repr
    {
      && n > 0 && |ht.lists| == n == |locks| && ht.Valid()
      && (forall i :: 0 <= i < n ==> locks[i] !in ht.repr)
      && (forall i, j :: 0 <= i < j < n ==> locks[i] != locks[j])
    }

    /** Every lock is free, and can take k writers before its counter reaches the reset value. */
    ghost predicate Ready(k: nat)
      reads locks
    {
      forall i :: 0 <= i < |locks| ==> locks[i].versionNumber % 2 == 0 && locks[i].versionNumber + 2 * k < TOP
    }

    constructor (n: u64)
      requires n > 0
      ensures Valid() && this.n == n && fresh(ht.repr) && fresh(locks) && Ready(TWO63 - 4)
      ensures forall b :: 0 <= b < n ==> ht.tab[b] == []
    {
      hide BucketArray.Valid;
      var h := new BucketArray(n);
      var ls: seq<VersionLock> := [];
      for i := 0 to n
        invariant |ls| == i && h.Valid() && fresh(h.repr) && |h.lists| == n
        invariant forall j :: 0 <= j < i ==> fresh(ls[j]) && ls[j].versionNumber == 0 && ls[j] !in h.repr
        invariant forall j, k :: 0 <= j < k < i ==> ls[j] != ls[k]
        invariant forall b :: 0 <= b < n ==> h.tab[b] == []
      {
        var l := new VersionLock();
        ls := ls + [l];
      }
      this.n, ht, locks := n, h, ls;
    }

    /** The bucket's lock is free afterwards unless this is the unlock that reaches the reset branch. */
    method Insert(key: u64, val: u64) returns (ok: bool)
      requires Valid() && BucketOf(key, n) < n && locks[BucketOf(key, n)].versionNumber % 2 == 0
      modifies ht.repr, locks[BucketOf(key, n)]
      ensures Valid() && ok && fresh(ht.repr - old(ht.repr))
      ensures ht.tab == Apply(old(ht.tab), A.Ins(key, val)).0
      ensures locks[BucketOf(key, n)].versionNumber == AfterWriter(old(locks[BucketOf(key, n)].versionNumber))
    {
      hide BucketOf, BucketArray.Valid;
      var b := BucketOf(key, n);
      var lock := locks[b];
      var _, _ := lock.WriteLock([lock.versionNumber, lock.versionNumber]);
      ok := ht.Insert(b, key, val);
      assert ok;
      lock.WriteUnlock();
    }

    /** The optimistic loop; undisturbed, its first validation succeeds. */
    method Lookup(key: u64) returns (val: u64)
      requires Valid() && BucketOf(key, n) < n
      ensures A.Val(val) == Apply(ht.tab, A.Get(key)).1
    {
      hide BucketOf, BucketArray.Valid;
      var b := BucketOf(key, n);
      var valid := false;
      val := 0;
      while !valid
        invariant valid ==> val == Assoc.Lookup(ht.tab[b], key)
        decreases !valid
      {
        var version := locks[b].ReadLockNoWait();
        val := ht.Lookup(b, key);
        valid := locks[b].ReadUnlock(version);
      }
    }

    method Remove(key: u64) returns (ok: bool)
      requires Valid() && BucketOf(key, n) < n && HasKey(ht.tab[BucketOf(key, n)], key)
      requires locks[BucketOf(key, n)].versionNumber % 2 == 0
      modifies ht.repr, locks[BucketOf(key, n)]
      ensures Valid() && ok && fresh(ht.repr - old(ht.repr))
      ensures (ht.tab, A.Done) == Apply(old(ht.tab), A.Del(key))
      ensures locks[BucketOf(key, n)].versionNumber == AfterWriter(old(locks[BucketOf(key, n)].versionNumber))
    {
      hide BucketOf, BucketArray.Valid;
      var b := BucketOf(key, n);
      var lock := locks[b];
      var _, _ := lock.WriteLock([lock.versionNumber, lock.versionNumber]);
      ok := ht.Remove(b, key);
      assert ok;
      lock.WriteUnlock();
    }

    method GetNodeCount() returns (total: int32)
      requires Valid() && A.NodeCount(ht.tab) <= INT_MAX
      ensures total as int == A.NodeCount(ht.tab)
    {
      total := ht.NodeCount();
    }
  }

  // ----- rw_hash_table -----

  /** std::shared_mutex, by its promise: one writer or any number of readers. */
  class SharedMutex {
    var writer: bool
    var readers: nat

    constructor ()
      ensures Free()
    {
      writer, readers := false, 0;
    }

    predicate Free()
      reads this
    {
      !writer && readers == 0
    }

    method Lock()
      requires Free()
      modifies this
      ensures writer && readers == 0
    {
      writer := true;
    }

    method Unlock()
      requires writer && readers == 0
      modifies this
      ensures Free()
    {
      writer := false;
    }

    method LockShared()
      requires !writer
      modifies this
      ensures !writer && readers == old(readers) + 1
    {
      readers := readers + 1;
    }

    method UnlockShared()
      requires !writer && readers > 0
      modifies this
      ensures !writer && readers == old(readers) - 1
    {
      readers := readers - 1;
    }
  }

  class RwHashTable {
    const n: u64
    const ht: BucketArray
    const locks: seq<SharedMutex>

    ghost predicate Valid()
      reads ht, ht.repr, locks
    {
      && n > 0 && |ht.lists| == n == |locks| && ht.Valid()
      && (forall i :: 0 <= i < n ==> locks[i].Free() && locks[i] !in ht.repr)
      && (forall i, j :: 0 <= i < j < n ==> locks[i] != locks[j])
    }

    constructor (n: u64)
      requires n > 0
      ensures Valid() && this.n == n && fresh(ht.repr) && fresh(locks)
      ensures forall b :: 0 <= b < n ==> ht.tab[b] == []
    {
      hide BucketArray.Valid;
      var h := new BucketArray(n);
      var ls: seq<SharedMutex> := [];
      for i := 0 to n
        invariant |ls| == i && h.Valid() && fresh(h.repr) && |h.lists| == n
        invariant forall j :: 0 <= j < i ==> fresh(ls[j]) && ls[j].Free() && ls[j] !in h.repr
        invariant forall j, k :: 0 <= j < k < i ==> ls[j] != ls[k]
        invariant forall b :: 0 <= b < n ==> h.tab[b] == []
      {
        var l := new SharedMutex();
        ls := ls + [l];
      }
      this.n, ht, locks := n, h, ls;
    }

    method Insert(key: u64, val: u64) returns (ok: bool)
      requires Valid() && BucketOf(key, n) < n
      modifies ht.repr, locks[BucketOf(key, n)]
      ensures Valid() && ok && fresh(ht.repr - old(ht.repr))
      ensures ht.tab == Apply(old(ht.tab), A.Ins(key, val)).0
    {
      hide BucketOf, BucketArray.Valid;
      var b := BucketOf(key, n);
      locks[b].Lock();
      ok := ht.Insert(b, key, val);
      assert ok;
      locks[b].Unlock();
    }

    method Lookup(key: u64) returns (val: u64)
      requires Valid() && BucketOf(key, n) < n
      modifies locks[BucketOf(key, n)]
      ensures Valid() && ht.tab == old(ht.tab) && ht.repr == old(ht.repr)
      ensures A.Val(val) == Apply(ht.tab, A.Get(key)).1
    {
      hide BucketOf, BucketArray.Valid;
      var b := BucketOf(key, n);
      locks[b].LockShared();
      val := ht.Lookup(b, key);
      locks[b].UnlockShared();
    }

    method Remove(key: u64) returns (ok: bool)
      requires Valid() && BucketOf(key, n) < n && HasKey(ht.tab[BucketOf(key, n)], key)
      modifies ht.repr, locks[BucketOf(key, n)]
      ensures Valid() && ok && fresh(ht.repr - old(ht.repr))
      ensures (ht.tab, A.Done) == Apply(old(ht.tab), A.Del(key))
    {
      hide BucketOf, BucketArray.Valid;
      var b := BucketOf(key, n);
      locks[b].Lock();
      ok := ht.Remove(b, key);
      assert ok;
      locks[b].Unlock();
    }

    method GetNodeCount() returns (total: int32)
      requires Valid() && A.NodeCount(ht.tab) <= INT_MAX
      ensures total as int == A.NodeCount(ht.tab)
    {
      total := ht.NodeCount();
    }
  }

  // ----- lf_hash_table -----

  class LfHashTable {
    const n: u64
    const ht: BucketArray

    ghost predicate Valid()
      reads ht, ht.repr
    {
      n > 0 && |ht.lists| == n && ht.Valid()
    }

    constructor (n: u64)
      requires n > 0
      ensures Valid() && this.n == n && fresh(ht.repr)
      ensures forall b :: 0 <= b < n ==> ht.tab[b] == []
    {
      hide BucketArray.Valid;
      var h := new BucketArray(n);
      this.n, ht := n, h;
    }

    method Insert(key: u64, val: u64) returns (ok: bool)
      requires Valid() && BucketOf(key, n) < n
      modifies ht.repr
      ensures Valid() && ok && fresh(ht.repr - old(ht.repr))
      ensures ht.tab == Apply(old(ht.tab), A.Ins(key, val)).0
    {
      hide BucketOf, BucketArray.Valid;
      ok := ht.LfInsert(BucketOf(key, n), key, val);
      assert ok;
    }

    method Lookup(key: u64) returns (val: u64)
      requires Valid() && BucketOf(key, n) < n
      ensures A.Val(val) == Apply(ht.tab, A.Get(key)).1
    {
      val := ht.Lookup(BucketOf(key, n), key);
    }

    method GetNodeCount() returns (total: int32)
      requires Valid() && A.NodeCount(ht.tab) <= INT_MAX
      ensures total as int == A.NodeCount(ht.tab)
    {
      total := ht.NodeCount();
    }
  }

  // ----- the tables agree -----

  lemma AnswersNext(tab: seq<seq<KV>>, ops: seq<A.Op>, i: nat)
    requires i < |ops| && forall j :: 0 <= j < |ops| ==> InRange(|tab|, ops[j])
    ensures InRange(|tab|, ops[i]) && |Apply(tab, ops[i]).0| == |tab|
    ensures Answers(tab, ops[i..]) == [Apply(tab, ops[i]).1] + Answers(Apply(tab, ops[i]).0, ops[i + 1..])
  {
    hide BucketOf;
    assert InRange(|tab|, ops[i]) && ops[i..][0] == ops[i] && ops[i..][1..] == ops[i + 1..];
  }

  /** One operation that does not fail its assertion. */
  method VlStep(table: VlHashTable, op: A.Op, ghost k: nat) returns (r: A.Res)
    requires table.Valid() && table.Ready(k + 1) && InRange(table.n, op) && |table.ht.tab| == table.n
    requires Apply(table.ht.tab, op).1 != A.None
    modifies table.ht.repr, table.locks
    ensures table.Valid() && table.Ready(k) && fresh(table.ht.repr - old(table.ht.repr))
    ensures (table.ht.tab, r) == Apply(old(table.ht.tab), op) && |table.ht.tab| == table.n
  {
    hide BucketOf, BucketArray.Valid;
    match op
    case Ins(key, val) =>
      var _ := table.Insert(key, val);
      r := A.Done;
    case Get(key) =>
      var v := table.Lookup(key);
      r := A.Val(v);
    case Del(key) =>
      var _ := table.Remove(key);
      r := A.Done;
  }

  /** A sequence of operations in which no remove fails its assertion, on a table nobody else uses. */
  method VlRun(table: VlHashTable, ops: seq<A.Op>) returns (answers: seq<A.Res>)
    requires table.Valid() && table.Ready(|ops|) && |table.ht.tab| == table.n
    requires forall i :: 0 <= i < |ops| ==> InRange(table.n, ops[i])
    requires A.None !in Answers(table.ht.tab, ops)
    modifies table.ht.repr, table.locks
    ensures table.Valid() && answers == Answers(old(table.ht.tab), ops)
  {
    hide BucketOf, Apply, Answers, BucketArray.Valid;
    answers := [];
    assert ops[0..] == ops;
    for i := 0 to |ops|
      invariant table.Valid() && table.Ready(|ops| - i) && |table.ht.tab| == table.n
      invariant fresh(table.ht.repr - old(table.ht.repr))
      invariant A.None !in Answers(table.ht.tab, ops[i..])
      invariant answers + Answers(table.ht.tab, ops[i..]) == Answers(old(table.ht.tab), ops)
    {
      AnswersNext(table.ht.tab, ops, i);
      var r := VlStep(table, ops[i], |ops| - i - 1);
      answers := answers + [r];
    }
    NoMoreAnswers(table.ht.tab, ops);
  }

  lemma NoMoreAnswers(tab: seq<seq<KV>>, ops: seq<A.Op>)
    ensures Answers(tab, ops[|ops|..]) == []
  {}

  method RwStep(table: RwHashTable, op: A.Op) returns (r: A.Res)
    requires table.Valid() && InRange(table.n, op) && |table.ht.tab| == table.n
    requires Apply(table.ht.tab, op).1 != A.None
    modifies table.ht.repr, table.locks
    ensures table.Valid() && fresh(table.ht.repr - old(table.ht.repr))
    ensures (table.ht.tab, r) == Apply(old(table.ht.tab), op) && |table.ht.tab| == table.n
  {
    hide BucketOf, BucketArray.Valid;
    match op
    case Ins(key, val) =>
      var _ := table.Insert(key, val);
      r := A.Done;
    case Get(key) =>
      var v := table.Lookup(key);
      r := A.Val(v);
    case Del(key) =>
      var _ := table.Remove(key);
      r := A.Done;
  }

  method RwRun(table: RwHashTable, ops: seq<A.Op>) returns (answers: seq<A.Res>)
    requires table.Valid() && |table.ht.tab| == table.n
    requires forall i :: 0 <= i < |ops| ==> InRange(table.n, ops[i])
    requires A.None !in Answers(table.ht.tab, ops)
    modifies table.ht.repr, table.locks
    ensures table.Valid() && answers == Answers(old(table.ht.tab), ops)
  {
    hide BucketOf, Apply, Answers, BucketArray.Valid;
    answers := [];
    assert ops[0..] == ops;
    for i := 0 to |ops|
      invariant table.Valid() && |table.ht.tab| == table.n && fresh(table.ht.repr - old(table.ht.repr))
      invariant A.None !in Answers(table.ht.tab, ops[i..])
      invariant answers + Answers(table.ht.tab, ops[i..]) == Answers(old(table.ht.tab), ops)
    {
      AnswersNext(table.ht.tab, ops, i);
      var r := RwStep(table, ops[i]);
      answers := answers + [r];
    }
    NoMoreAnswers(table.ht.tab, ops);
  }

  method LfStep(table: LfHashTable, op: A.Op) returns (r: A.Res)
    requires table.Valid() && InRange(table.n, op) && |table.ht.tab| == table.n && !op.Del?
    modifies table.ht.repr
    ensures table.Valid() && fresh(table.ht.repr - old(table.ht.repr))
    ensures (table.ht.tab, r) == Apply(old(table.ht.tab), op) && |table.ht.tab| == table.n
  {
    hide BucketOf, BucketArray.Valid;
    match op
    case Ins(key, val) =>
      var _ := table.Insert(key, val);
      r := A.Done;
    case Get(key) =>
      var v := table.Lookup(key);
      r := A.Val(v);
  }

  method LfRun(table: LfHashTable, ops: seq<A.Op>) returns (answers: seq<A.Res>)
    requires table.Valid() && |table.ht.tab| == table.n
    requires forall i :: 0 <= i < |ops| ==> InRange(table.n, ops[i]) && !ops[i].Del?
    modifies table.ht.repr
    ensures table.Valid() && answers == Answers(old(table.ht.tab), ops)
  {
    hide BucketOf, Apply, Answers, BucketArray.Valid;
    answers := [];
    assert ops[0..] == ops;
    for i := 0 to |ops|
      invariant table.Valid() && |table.ht.tab| == table.n && fresh(table.ht.repr - old(table.ht.repr))
      invariant answers + Answers(table.ht.tab, ops[i..]) == Answers(old(table.ht.tab), ops)
    {
      AnswersNext(table.ht.tab, ops, i);
      var r := LfStep(table, ops[i]);
      answers := answers + [r];
    }
    NoMoreAnswers(table.ht.tab, ops);
  }

  /**
   Inserts, lookups and removes of keys present at the time, on fresh tables of the two kinds that have
   a remove: every answer is the flat list's.
   */
  method RunBoth(n: u64, ops: seq<A.Op>) returns (vl: seq<A.Res>, rw: seq<A.Res>)
    requires n > 0 && |ops| <= TWO63 - 4
    requires forall i :: 0 <= i < |ops| ==> InRange(n, ops[i])
    requires A.None !in FlatAnswers([], ops)
    ensures vl == FlatAnswers([], ops)
    ensures rw == FlatAnswers([], ops)
  {
    hide BucketOf, BucketArray.Valid, Apply;
    var t1 := new VlHashTable(n);
    var t2 := new RwHashTable(n);
    EmptyAgrees(t1.ht.tab);
    EmptyAgrees(t2.ht.tab);
    BucketsAreInvisible(t1.ht.tab, [], ops);
    BucketsAreInvisible(t2.ht.tab, [], ops);
    vl := VlRun(t1, ops);
    rw := RwRun(t2, ops);
  }

  /** The same inserts and lookups on fresh tables of all three kinds: every answer is the flat list's. */
  method RunAllThree(n: u64, ops: seq<A.Op>) returns (vl: seq<A.Res>, rw: seq<A.Res>, lf: seq<A.Res>)
    requires n > 0 && |ops| <= TWO63 - 4
    requires forall i :: 0 <= i < |ops| ==> InRange(n, ops[i]) && !ops[i].Del?
    ensures vl == rw == lf == FlatAnswers([], ops)
  {
    hide BucketOf, BucketArray.Valid, Apply;
    NoneWithoutRemoves([], ops);
    vl, rw := RunBoth(n, ops);
    var t3 := new LfHashTable(n);
    EmptyAgrees(t3.ht.tab);
    BucketsAreInvisible(t3.ht.tab, [], ops);
    lf := LfRun(t3, ops);
  }

  /** Only a remove of an absent key has no answer. */
  lemma {:induction false} NoneWithoutRemoves(flat: seq<KV>, ops: seq<A.Op>)
    requires forall i :: 0 <= i < |ops| ==> !ops[i].Del?
    ensures A.None !in FlatAnswers(flat, ops)
    decreases |ops|
  {
    if ops != [] {
      NoneWithoutRemoves(ApplyFlat(flat, ops[0]).0, ops[1..]);
    }
  }
}
