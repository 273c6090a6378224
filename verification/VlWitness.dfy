/** A run from the empty table to the state VlRace warns of, and on to a lookup that returns any value. */
module VlWitness {
  import opened Words
  import opened Assoc
  import opened Hash
  import opened LockMachine
  import opened VlMachine
  import opened VlSafety
  import opened VlTheorems
  import opened VlRace
  import A = AtomicTable

  const EmptyBkt: Bkt := Bkt(Free, map[], 0, [], 0)

  const NewTh: VTh := VTh([], 0, Out, Idle(A.None), [], [], 0, false, 0, 0, 0, 0)

  /** Two threads on an empty table of n buckets. */
  function Empty(n: nat): VS { VS(seq(n, _ => EmptyBkt), [NewTh, NewTh]) }

  /** Thread t between two calls, or at the door of one. */
  function Caller(c: Setting, hist: seq<A.Op>, l: LPC, pc: PC, first: nat): VTh {
    VTh(hist, c.b, l, pc, [], [], 0, false, first, 0, 0, 0)
  }

  lemma WriterCalls(c: Setting, tr: seq<VS>, bk: Bkt, w: VTh, r: VTh, op: A.Op) returns (tr': seq<VS>)
    requires Race(c, tr, bk, w, r) && w.pc.Idle? && op.key == c.key && !op.Get?
    requires |c.s.bks| < TWO64 && c.b == BucketOf(c.key, |c.s.bks|)
    ensures Race(c, tr', bk, Caller(c, w.hist + [op], Out, WLock, bk.lk.version), r)
  {
    hide BucketOf, Cont;
    var w' := Caller(c, w.hist + [op], Out, WLock, bk.lk.version);
    var s, s' := At(c, bk, w, r), At(c, bk, w', r);
    assert Below(tr[|tr| - 1]) && NoAnswer(tr[|tr| - 1], c.b, c.key, c.v) && s.bks[c.b] == bk;
    hide Continues, NoAnswer;
    assert s'.ths == s.ths[c.t := w'];
    assert CallMove(s, w, w');
    VlRace.Extend(c, tr, bk, w, r, c.t, bk, w', r);
    tr' := tr + [s'];
  }

  /** write_lock on a free lock. */
  lemma WriterLocks(c: Setting, tr: seq<VS>, bk: Bkt, hist: seq<A.Op>, first: nat, r: VTh) returns (tr': seq<VS>)
    requires hist != [] && !A.Last(hist).Get? && Race(c, tr, bk, Caller(c, hist, Out, WLock, first), r)
    requires bk.lk.version % 2 == 0 && bk.lk.unlocks < TWO63 - 1 && Lookup(Cont(bk), c.key) != c.v
    ensures Race(c, tr', bk.(lk := bk.lk.(version := bk.lk.version + 1, acq := bk.lk.acq + 1)),
                 Caller(c, hist, Held, if A.Last(hist).Ins? then IAlloc else DHead, first), r)
  {
    hide Race;
    var w := Caller(c, hist, Out, WLock, first);
    var w1 := w.(l := Cas(bk.lk.version));
    tr' := WriterMoves(c, tr, bk, w, r, bk, w1);
    var bk2 := bk.(lk := bk.lk.(version := bk.lk.version + 1, acq := bk.lk.acq + 1));
    assert Cont(bk2) == Cont(bk);
    hide Cont;
    var pc' := if A.Last(hist).Ins? then IAlloc else DHead;
    assert LockingMove(bk, w1, bk2, w1.(l := Held, pc := pc'));
    tr' := WriterMoves(c, tr', bk, w1, r, bk2, w1.(l := Held, pc := pc'));
  }

  /** The bucket holding the one pair (key, val). */
  function One(lk: Lk, key: u64, val: u64): Bkt { Bkt(lk, map[1 := Cell(key, val, 0)], 1, [1], 0) }

  /** Thread t inserts (key, val) into the empty bucket, up to the publishing write. */
  lemma WriterPublishes(c: Setting, tr: seq<VS>, val: u64, r: VTh) returns (tr': seq<VS>)
    requires Race(c, tr, EmptyBkt, NewTh, r) && |c.s.bks| < TWO64 && c.b == BucketOf(c.key, |c.s.bks|)
    requires val != c.v && c.v != UINT64_MAX
    ensures Race(c, tr', One(Lk(1, 1, 0, 0, 0), c.key, val), Caller(c, [A.Ins(c.key, val)], Held, WUnlock, 0), r)
  {
    hide Race, BucketOf;
    var h := [A.Ins(c.key, val)];
    tr' := WriterCalls(c, tr, EmptyBkt, NewTh, r, A.Ins(c.key, val));
    assert NewTh.hist + [A.Ins(c.key, val)] == h;
    tr' := WriterLocks(c, tr', EmptyBkt, h, 0, r);
    var bk := EmptyBkt.(lk := Lk(1, 1, 0, 0, 0));
    var w := Caller(c, h, Held, IAlloc, 0);
    tr' := WriterMoves(c, tr', bk, w, r, bk, w.(pc := INext(1)));
    tr' := WriterMoves(c, tr', bk, w.(pc := INext(1)), r, bk, w.(pc := IPub(1, 0)));
    var bk' := One(Lk(1, 1, 0, 0, 0), c.key, val);
    assert [1] + bk.chain == bk'.chain && Cont(bk') == [KV(c.key, val)];
    tr' := WriterMoves(c, tr', bk, w.(pc := IPub(1, 0)), r, bk', w.(pc := WUnlock));
  }

  /** The insert unlocks and returns; then the same thread calls remove and locks again. */
  lemma WriterReturns(c: Setting, tr: seq<VS>, val: u64, r: VTh) returns (tr': seq<VS>)
    requires Race(c, tr, One(Lk(1, 1, 0, 0, 0), c.key, val), Caller(c, [A.Ins(c.key, val)], Held, WUnlock, 0), r)
    requires |c.s.bks| < TWO64 && c.b == BucketOf(c.key, |c.s.bks|) && val != c.v
    ensures Race(c, tr', One(Lk(3, 2, 1, 1, 0), c.key, val),
                 Caller(c, [A.Ins(c.key, val), A.Del(c.key)], Held, DHead, 2), r)
  {
    hide Race, BucketOf;
    var w := Caller(c, [A.Ins(c.key, val)], Held, WUnlock, 0);
    var bk0 := One(Lk(1, 1, 0, 0, 0), c.key, val);
    var bk1 := One(Lk(1, 1, 0, 1, 0), c.key, val);
    var bk2 := One(Lk(2, 1, 1, 1, 0), c.key, val);
    assert Cont(bk0) == Cont(bk1) == Cont(bk2) == [KV(c.key, val)];
    hide Cont;
    assert LockingMove(bk0, w, bk1, w.(l := Rel(1)));
    assert LockingMove(bk1, w.(l := Rel(1)), bk2, w.(pc := Idle(A.Done), l := Out));
    hide LookupMove, LockingMove, WriteMove;
    tr' := WriterMoves(c, tr, bk0, w, r, bk1, w.(l := Rel(1)));
    tr' := WriterMoves(c, tr', bk1, w.(l := Rel(1)), r, bk2, w.(pc := Idle(A.Done), l := Out));
    tr' := WriterCalls(c, tr', bk2, w.(pc := Idle(A.Done), l := Out), r, A.Del(c.key));
    assert [A.Ins(c.key, val)] + [A.Del(c.key)] == [A.Ins(c.key, val), A.Del(c.key)];
    tr' := WriterLocks(c, tr', bk2, [A.Ins(c.key, val), A.Del(c.key)], 2, r);
  }

  /** A run from the empty table to a remove at risk; its lists never answer v. */
  lemma ReachArmed(n: nat, key: u64, v: u64) returns (tr: seq<VS>)
    requires 0 < n < TWO64 && BucketOf(key, n) < n && v != UINT64_MAX
    ensures VlMachine.Run(tr) && VlTheorems.BelowReset(tr) && |tr[0].bks| == n && |tr[0].ths| == 2
    ensures forall j :: 0 <= j < |tr| ==> NoAnswer(tr[j], BucketOf(key, n), key, v)
    ensures var s := tr[|tr| - 1];
            && Armed(s, 0, BucketOf(key, n)) && |s.ths| == 2 && s.ths[1].pc.Idle?
            && s.ths[1].hist == [] && A.Last(s.ths[0].hist) == A.Del(key)
            && Lookup(RemoveFirst(Cont(s.bks[BucketOf(key, n)]), key), key) != v
  {
    hide BucketOf;
    var c := Setting(Empty(n), 0, 1, BucketOf(key, n), key, v);
    var val: u64 := if v == 5 then 6 else 5;
    Start(c);
    hide Race;
    tr := WriterPublishes(c, [c.s], val, NewTh);
    tr := WriterReturns(c, tr, val, NewTh);
    Arrived(c, tr, n, val);
  }

  lemma Arrived(c: Setting, tr: seq<VS>, n: nat, val: u64)
    requires n > 0 && c.s == Empty(n) && c.t == 0 && c.u == 1 && c.v != UINT64_MAX
    requires Race(c, tr, One(Lk(3, 2, 1, 1, 0), c.key, val),
                  Caller(c, [A.Ins(c.key, val), A.Del(c.key)], Held, DHead, 2), NewTh)
    ensures VlMachine.Run(tr) && VlTheorems.BelowReset(tr) && |tr[0].bks| == n && |tr[0].ths| == 2
    ensures forall j :: 0 <= j < |tr| ==> NoAnswer(tr[j], c.b, c.key, c.v)
    ensures var s := tr[|tr| - 1];
            && Armed(s, 0, c.b) && |s.ths| == 2 && s.ths[1].pc.Idle?
            && s.ths[1].hist == [] && A.Last(s.ths[0].hist) == A.Del(c.key)
            && Lookup(RemoveFirst(Cont(s.bks[c.b]), c.key), c.key) != c.v
  {
    var s := tr[|tr| - 1];
    assert VlMachine.Init(tr[0]);
    assert Cont(s.bks[c.b]) == [KV(c.key, val)];
    assert Cont(s.bks[c.b])[0].key == c.key;
  }

  lemma Join(tr: seq<VS>, rest: seq<VS>) returns (all: seq<VS>)
    requires VlMachine.Run(tr) && VlTheorems.BelowReset(tr) && Continues(tr[|tr| - 1], rest)
    ensures VlMachine.Run(all) && VlTheorems.BelowReset(all) && all == tr + rest[1..]
  {
    hide VlMachine.Next, VlMachine.Init, Below;
    all := tr + rest[1..];
    forall i | 0 <= i < |all| - 1 ensures VlMachine.Next(all[i], all[i + 1]) {
      if i + 1 < |tr| {
        assert VlMachine.Next(tr[i], tr[i + 1]);
      } else {
        assert VlMachine.Next(rest[i + 1 - |tr|], rest[i + 1 - |tr| + 1]);
      }
    }
  }

  /**
   For every table size, every key in range and every value v but UINT64_MAX, which the empty list
   answers: a run of two threads from the empty table in which a lookup of the key validates its
   snapshot and returns v, although at no instant of the run the key's list answers v.
   */
  lemma LookupCanReturnAnything(n: nat, key: u64, v: u64) returns (tr: seq<VS>, i: nat)
    requires 0 < n < TWO64 && BucketOf(key, n) < n && v != UINT64_MAX
    ensures VlMachine.Run(tr) && VlTheorems.BelowReset(tr) && ReturnsAt(tr, i, 1) && |tr[0].bks| == n
    ensures tr[i].ths[1].hist != [] && A.Last(tr[i].ths[1].hist) == A.Get(key)
    ensures tr[i + 1].ths[1].pc.res == A.Val(v)
    ensures forall j :: 0 <= j < |tr| ==> NoAnswer(tr[j], BucketOf(key, n), key, v)
  {
    hide BucketOf, VlMachine.Init, VlMachine.Next, Below;
    var first := ReachArmed(n, key, v);
    var b, s := BucketOf(key, n), first[|first| - 1];
    VlTheorems.RunInv(first, |first| - 1);
    assert NoAnswer(s, b, key, v);
    hide VlSafety.Inv, Armed;
    var rest, at := AnyAnswer(s, 0, b, 1, v);
    tr := Join(first, rest);
    i := |first| - 1 + at;
    hide VlMachine.Run, VlTheorems.BelowReset;
    assert tr[i] == rest[at] && tr[i + 1] == rest[at + 1];
    forall j | 0 <= j < |tr| ensures NoAnswer(tr[j], b, key, v) {
      assert j >= |first| ==> tr[j] == rest[j - |first| + 1];
    }
  }
}
