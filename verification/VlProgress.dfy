/**
 Progress of the version-locked table. A thread left alone finishes its call: within a number of steps fixed
 by the length of its list, in every run in which only it moves, and with the answer and the table of
 the sequential specification.
 */
module VlProgress {
  import opened Words
  import opened Assoc
  import opened Hash
  import opened LockMachine
  import opened VlMachine
  import opened VlSafety
  import opened VlTheorems
  import opened FlatTable
  import opened Sequential
  import A = AtomicTable

  // ----- steps left -----

  predicate Stopped(th: VTh) { th.pc.Idle? || th.pc.Failed? }

  /** A lookup's attempt not hit by an unlink; a writer at a free lock. */
  ghost predicate OnTrack(bk: Bkt, th: VTh) {
    && (Sampled(th.pc) ==> Uncut(bk, th))
    && (th.pc.WLock? ==> bk.lk.version % 2 == 0)
  }

  /** A further attempt, for a lookup whose snapshot is not the counter any more. */
  ghost function Again(bk: Bkt, th: VTh): nat {
    if Current(bk, th) then 0 else 2 * |bk.chain| + 3
  }

  /** Steps to the end of the call if nobody else moves. */
  ghost function Todo(bk: Bkt, th: VTh): nat {
    var n := |bk.chain|;
    match th.pc
    case GSnap => 2 * n + 3
    case GHead => 2 * n + 2 + Again(bk, th)
    case GKey(_) => 2 * |th.rest| + 1 + Again(bk, th)
    case GVal(_) => 2 + Again(bk, th)
    case GNext(_) => 2 * |th.rest| + Again(bk, th)
    case GCheck(_) => 1 + Again(bk, th)
    case WLock => if !th.l.Cas? then 2 * n + 7 else if th.l.ver == bk.lk.version then 2 * n + 6 else 2 * n + 8
    case IAlloc => 5
    case INext(_) => 4
    case IPub(_, _) => 3
    case DHead => 2 * n + 5
    case DKey(_, _) => if th.at <= n then 2 * (n - th.at) + 4 else 0
    case DNext(_) => if th.at <= n then 2 * (n - th.at) + 3 else 0
    case DLoad(_, _) => 5
    case DUnlink(_, _, _) => 4
    case DFree(_) => 3
    case WUnlock => if th.l.Rel? then 1 else 2
    case _ => 0
  }

  /** What the lock tells a thread below the reset point. */
  ghost predicate LockKnown(bk: Bkt, th: VTh) {
    !th.l.Faa? && (th.l.Rel? ==> th.l.ver == bk.lk.version < TOP && th.l.ver % 2 == 1)
  }

  lemma LookupTodo(bk: Bkt, th: VTh, th': VTh)
    requires Linked(bk) && ThOk(bk, th) && OnTrack(bk, th) && th.hist != [] && LookupMove(bk, th, bk, th')
    ensures Stopped(th') || (OnTrack(bk, th') && Todo(bk, th') < Todo(bk, th))
  {
    ContSize(bk);
    hide Cont, Linked, TailAt;
    if th.pc.GNext? { NextAddress(bk, th, th'); }
    if th.pc.GHead? { FirstAddress(bk); }
  }

  lemma ContSize(bk: Bkt)
    ensures |Cont(bk)| == |bk.chain|
  {}

  lemma FirstAddress(bk: Bkt)
    requires Linked(bk)
    ensures bk.head == 0 <==> bk.chain == []
  {
    if bk.chain != [] { assert LinkAt(bk, 0); }
  }

  lemma NextAddress(bk: Bkt, th: VTh, th': VTh)
    requires Linked(bk) && th.hist != [] && th.pc.GNext? && ReaderOk(bk, th) && LookupMove(bk, th, bk, th')
    ensures th'.pc.GKey? || th'.pc.GCheck?
    ensures th.rest != [] && |th'.rest| == |th.rest| - 1
    ensures th'.pc.GKey? ==> th'.rest != []
  {
    NextTail(bk, th, th');
  }

  lemma LockingTodo(bk: Bkt, th: VTh, bk': Bkt, th': VTh)
    requires Phase(th) && OnTrack(bk, th) && LockKnown(bk, th) && th.hist != [] && LockingMove(bk, th, bk', th')
    ensures Stopped(th') || (OnTrack(bk', th') && Todo(bk', th') < Todo(bk, th))
  {}

  lemma WriteTodo(bk: Bkt, th: VTh, bk': Bkt, th': VTh)
    requires Linked(bk) && th.hist != [] && WriterOk(bk, th) && WriteMove(bk, th, bk', th')
    ensures Stopped(th') || (OnTrack(bk', th') && Todo(bk', th') < Todo(bk, th))
  {
    if th.pc.DNext? {
      assert LinkAt(bk, th.at);
    }
  }

  lemma MoveTodo(bk: Bkt, th: VTh, bk': Bkt, th': VTh)
    requires Linked(bk) && ThOk(bk, th) && OnTrack(bk, th) && LockKnown(bk, th) && BucketMove(bk, th, bk', th')
    ensures Stopped(th') || (OnTrack(bk', th') && Todo(bk', th') < Todo(bk, th))
  {
    hide LookupMove, LockingMove, WriteMove, Linked, WriterOk, ReaderOk, Phase, OnTrack, Todo, Stopped, LockKnown;
    if LookupMove(bk, th, bk', th') {
      LookupSame(bk, th, bk', th');
      LookupTodo(bk, th, th');
    } else if LockingMove(bk, th, bk', th') {
      LockingTodo(bk, th, bk', th');
    } else {
      WriteTodo(bk, th, bk', th');
    }
  }

  lemma LookupSame(bk: Bkt, th: VTh, bk': Bkt, th': VTh)
    requires th.hist != [] && LookupMove(bk, th, bk', th')
    ensures bk' == bk
  {}

  // ----- a thread inside a call can always take a step -----

  lemma Bound(s: set<nat>) returns (m: nat)
    ensures forall x :: x in s ==> x <= m
  {
    if s == {} {
      m := 0;
    } else {
      var x :| x in s;
      var r := Bound(s - {x});
      m := if x > r then x else r;
      forall y | y in s ensures y <= m {
        assert y == x || y in s - {x};
      }
    }
  }

  lemma LookupCan(bk: Bkt, th: VTh) returns (th': VTh)
    requires Linked(bk) && ThOk(bk, th) && th.hist != [] && (th.pc.GSnap? || th.pc.GHead? || Sampled(th.pc))
    ensures LookupMove(bk, th, bk, th')
    ensures th.pc.GKey? && th.pc.curr !in bk.heap ==> th'.pc.GVal?
    ensures (th.pc.GNext? || th.pc.GVal?) && th.pc.curr !in bk.heap ==> th'.pc.GCheck?
  {
    var key := A.Last(th.hist).key;
    match th.pc
    case GSnap => th' := th.(l := Reading(bk.lk.version), pc := GHead, wild := false);
    case GHead =>
      th' := th.(pc := Visit(bk.head), view := Cont(bk), rest := Cont(bk), hops := 0, seen := bk.cuts);
    case GKey(curr) =>
      th' := th.(pc := if curr in bk.heap && bk.heap[curr].key != key then GNext(curr) else GVal(curr),
                 wild := th.wild || curr !in bk.heap);
    case GVal(curr) =>
      th' := th.(pc := GCheck(if curr in bk.heap then bk.heap[curr].val else 0), wild := th.wild || curr !in bk.heap);
    case GNext(curr) =>
      th' := th.(pc := if curr in bk.heap then Visit(bk.heap[curr].next) else GCheck(UINT64_MAX),
                 wild := th.wild || curr !in bk.heap, hops := th.hops + 1, rest := Tail(th.rest));
    case GCheck(val) =>
      th' := if th.l.snap == bk.lk.version then th.(l := Out, pc := Idle(A.Val(val)))
             else th.(l := Out, pc := GSnap, tries := th.tries + 1);
  }

  lemma LockingCan(bk: Bkt, th: VTh) returns (bk': Bkt, th': VTh)
    requires Phase(th) && LockKnown(bk, th) && th.hist != [] && (th.pc.WLock? || th.pc.WUnlock?)
    ensures LockingMove(bk, th, bk', th')
  {
    if th.pc.WLock? {
      if th.l.Cas? {
        var (k', l') := TryCas(bk.lk, th.l.ver);
        var body := if A.Last(th.hist).Ins? then IAlloc else DHead;
        bk', th' := bk.(lk := k'), th.(l := l', pc := if l'.Held? then body else WLock);
      } else {
        bk', th' := bk, th.(l := LoadForWrite(bk.lk));
      }
    } else if th.l.Held? {
      var (k', l') := LoadForRelease(bk.lk);
      bk', th' := bk.(lk := k'), th.(l := l');
    } else {
      var (k', l') := Release(AsWritten, bk.lk, th.l.ver);
      bk', th' := bk.(lk := k'), th.(l := l', pc := if l'.Out? then Idle(A.Done) else WUnlock);
    }
  }

  lemma WriteCan(bk: Bkt, th: VTh) returns (bk': Bkt, th': VTh)
    requires Linked(bk) && Phase(th) && th.hist != [] && WriterOk(bk, th) && !Stopped(th)
    requires !A.Last(th.hist).Get? && !th.pc.WLock? && !th.pc.WUnlock?
    ensures WriteMove(bk, th, bk', th')
  {
    var op := A.Last(th.hist);
    bk' := bk;
    match th.pc
    case IAlloc =>
      var m := Bound(bk.heap.Keys);
      th' := th.(pc := INext(m + 1));
    case INext(a) => th' := th.(pc := IPub(a, bk.head));
    case IPub(a, nx) =>
      bk' := bk.(heap := bk.heap[a := Cell(op.key, op.val, nx)], head := a, chain := [a] + bk.chain);
      th' := th.(pc := WUnlock);
    case DHead => th' := th.(at := 0, pc := if bk.head == 0 then Failed else DKey(0, bk.head));
    case DKey(prev, curr) =>
      assert LinkAt(bk, th.at);
      th' := th.(pc := if bk.heap[curr].key == op.key then DLoad(prev, curr) else DNext(curr));
    case DNext(curr) =>
      assert LinkAt(bk, th.at);
      var p := bk.heap[curr].next;
      th' := th.(at := th.at + 1, pc := if p == 0 then Failed else DKey(curr, p));
    case DLoad(prev, curr) =>
      assert LinkAt(bk, th.at);
      th' := th.(pc := DUnlink(prev, curr, bk.heap[curr].next));
    case DUnlink(prev, curr, nx) =>
      if th.at > 0 { assert LinkAt(bk, th.at - 1); }
      bk' := bk.(heap := if prev == 0 then bk.heap else bk.heap[prev := bk.heap[prev].(next := nx)],
                 head := if prev == 0 then nx else bk.head, chain := Without(bk.chain, th.at), cuts := bk.cuts + 1);
      th' := th.(pc := DFree(curr));
    case DFree(curr) => bk', th' := bk.(heap := bk.heap - {curr}), th.(pc := WUnlock);
  }

  lemma MoveCan(bk: Bkt, th: VTh) returns (bk': Bkt, th': VTh)
    requires Linked(bk) && ThOk(bk, th) && LockKnown(bk, th) && th.hist != [] && !Stopped(th)
    ensures BucketMove(bk, th, bk', th')
    ensures th.pc.GKey? && th.pc.curr !in bk.heap ==> th'.pc.GVal?
    ensures (th.pc.GNext? || th.pc.GVal?) && th.pc.curr !in bk.heap ==> th'.pc.GCheck?
  {
    hide LookupMove, LockingMove, WriteMove, Linked, LockKnown;
    if th.pc.GSnap? || th.pc.GHead? || Sampled(th.pc) {
      bk' := bk;
      th' := LookupCan(bk, th);
    } else if th.pc.WLock? || th.pc.WUnlock? {
      bk', th' := LockingCan(bk, th);
    } else {
      bk', th' := WriteCan(bk, th);
    }
  }

  // ----- one thread alone -----

  /** A run from s, below the reset point, in which only thread t moves. */
  ghost predicate Solo(s: VS, tr: seq<VS>, t: nat) {
    && |tr| > 0 && tr[0] == s
    && (forall i :: 0 <= i < |tr| - 1 ==> VlMachine.StepBy(tr[i], tr[i + 1], t))
    && (forall i :: 0 <= i < |tr| ==> Below(tr[i]))
  }

  /** Thread t is inside a call, and nothing keeps it from finishing. */
  ghost predicate Going(s: VS, t: nat) {
    && t < |s.ths| && s.ths[t].b < |s.bks| && s.ths[t].hist != [] && !Stopped(s.ths[t])
    && OnTrack(s.bks[s.ths[t].b], s.ths[t])
  }

  ghost function StepsLeft(s: VS, t: nat): nat
    requires t < |s.ths| && s.ths[t].b < |s.bks|
  {
    Todo(s.bks[s.ths[t].b], s.ths[t])
  }

  lemma Known(s: VS, t: nat)
    requires VlSafety.Inv(s) && t < |s.ths|
    ensures s.ths[t].b < |s.bks| && Linked(s.bks[s.ths[t].b]) && ThOk(s.bks[s.ths[t].b], s.ths[t])
    ensures LockKnown(s.bks[s.ths[t].b], s.ths[t])
  {
    assert Placed(s, s.ths[t]) && ThOk(s.bks[s.ths[t].b], s.ths[t]);
    ReleaseFacts(s, t);
    if s.ths[t].l.Rel? { LockFacts(s, t); }
  }

  /** A step inside a call is a step in the bucket. */
  lemma InsideBucket(s: VS, s': VS, t: nat)
    requires VlMachine.StepBy(s, s', t) && Going(s, t)
    ensures |s'.bks| == |s.bks| && s'.bks == s.bks[s.ths[t].b := s'.bks[s.ths[t].b]]
    ensures BucketMove(s.bks[s.ths[t].b], s.ths[t], s'.bks[s.ths[t].b], s'.ths[t])
    ensures s'.ths[t].b == s.ths[t].b && s'.ths[t].hist == s.ths[t].hist
  {
    SameCallOf(s, s', t);
    hide BucketMove;
  }

  lemma SameCallOf(s: VS, s': VS, t: nat)
    requires VlMachine.StepBy(s, s', t) && Going(s, t)
    ensures s'.ths[t].b == s.ths[t].b && s'.ths[t].hist == s.ths[t].hist
  {
    hide BucketMove;
    if s.ths[t].b < |s.bks| == |s'.bks| && BucketMove(s.bks[s.ths[t].b], s.ths[t], s'.bks[s.ths[t].b], s'.ths[t]) {
      SameCall(s.bks[s.ths[t].b], s.ths[t], s'.bks[s.ths[t].b], s'.ths[t]);
    }
  }

  /** Any step the thread takes alone brings it nearer to the end of its call. */
  lemma SoloStep(s: VS, s': VS, t: nat)
    requires VlSafety.Inv(s) && VlMachine.StepBy(s, s', t) && Below(s') && Going(s, t)
    ensures VlSafety.Inv(s') && t < |s'.ths| && s'.ths[t].hist == s.ths[t].hist && s'.ths[t].b == s.ths[t].b
    ensures Stopped(s'.ths[t]) || (Going(s', t) && StepsLeft(s', t) < StepsLeft(s, t))
  {
    hide BucketMove, ThOk, Linked, OnTrack, Todo, Stopped;
    Known(s, t);
    InsideBucket(s, s', t);
    MoveTodo(s.bks[s.ths[t].b], s.ths[t], s'.bks[s.ths[t].b], s'.ths[t]);
    VlSafety.StepInv(s, s', t);
  }

  /**
   In every run in which only thread t moves, from any state that satisfies the invariant in which t is
   inside a call and on track, the call is over after at most StepsLeft steps.
   */
  lemma {:induction false} AloneEnds(s: VS, tr: seq<VS>, t: nat, k: nat) returns (i: nat)
    requires Solo(s, tr, t) && k < |tr| && VlSafety.Inv(tr[k]) && Going(tr[k], t)
    requires k + StepsLeft(tr[k], t) < |tr|
    ensures k < i <= k + StepsLeft(tr[k], t) && VlSafety.Inv(tr[i])
    ensures t < |tr[i].ths| && Stopped(tr[i].ths[t]) && tr[i].ths[t].hist == tr[k].ths[t].hist
    ensures forall m :: k <= m < i ==> VlSafety.Inv(tr[m]) && Going(tr[m], t) && tr[m].ths[t].hist == tr[k].ths[t].hist
    decreases |tr| - k
  {
    hide VlMachine.StepBy, VlSafety.Inv, OnTrack, Todo, Stopped;
    SomeLeft(tr[k], t);
    assert VlMachine.StepBy(tr[k], tr[k + 1], t) && Below(tr[k + 1]);
    SoloStep(tr[k], tr[k + 1], t);
    if Stopped(tr[k + 1].ths[t]) {
      i := k + 1;
    } else {
      i := AloneEnds(s, tr, t, k + 1);
    }
  }

  lemma SomeLeft(s: VS, t: nat)
    requires VlSafety.Inv(s) && Going(s, t)
    ensures StepsLeft(s, t) > 0
  {
    Known(s, t);
    hide VlSafety.Inv;
    var bk, th := s.bks[s.ths[t].b], s.ths[t];
    if Sampled(th.pc) { assert ReaderOk(bk, th); }
  }

  // ----- such runs exist -----

  /** Unlocks this call has still to start. */
  function Due(th: VTh): nat {
    match th.pc
    case WLock | IAlloc | INext(_) | IPub(_, _) => 1
    case DHead | DKey(_, _) | DNext(_) | DLoad(_, _) | DUnlink(_, _, _) | DFree(_) => 1
    case WUnlock => if th.l.Held? then 1 else 0
    case _ => 0
  }

  lemma MoveDue(bk: Bkt, th: VTh, bk': Bkt, th': VTh)
    requires Phase(th) && BucketMove(bk, th, bk', th')
    ensures bk'.lk.unlocks + Due(th') <= bk.lk.unlocks + Due(th)
  {}

  /** The bucket's lock can take this call without reaching the reset point. */
  ghost predicate Room(s: VS, t: nat) {
    t < |s.ths| && s.ths[t].b < |s.bks| && s.bks[s.ths[t].b].lk.unlocks + Due(s.ths[t]) < TWO63 - 1
  }

  lemma StaysBelow(s: VS, s': VS, t: nat)
    requires VlSafety.Inv(s) && VlMachine.StepBy(s, s', t) && Going(s, t) && Room(s, t)
    ensures Below(s') && Room(s', t)
  {
    hide BucketMove, Linked, OnTrack, Stopped, Due;
    Known(s, t);
    InsideBucket(s, s', t);
    MoveDue(s.bks[s.ths[t].b], s.ths[t], s'.bks[s.ths[t].b], s'.ths[t]);
  }

  /** Inside a call there is always a next step, on track or not. */
  lemma AnyStep(s: VS, t: nat) returns (s': VS)
    requires VlSafety.Inv(s) && t < |s.ths| && s.ths[t].hist != [] && !Stopped(s.ths[t])
    ensures s.ths[t].b < |s.bks| && VlMachine.StepBy(s, s', t)
    ensures s.ths[t].pc.GKey? && s.ths[t].pc.curr !in s.bks[s.ths[t].b].heap ==> s'.ths[t].pc.GVal?
    ensures (s.ths[t].pc.GNext? || s.ths[t].pc.GVal?) && s.ths[t].pc.curr !in s.bks[s.ths[t].b].heap ==>
              s'.ths[t].pc.GCheck?
  {
    hide BucketMove, ThOk, Linked, Stopped, LockKnown;
    Known(s, t);
    var b := s.ths[t].b;
    var bk', th' := MoveCan(s.bks[b], s.ths[t]);
    s' := VS(s.bks[b := bk'], s.ths[t := th']);
    assert s'.bks == s.bks[b := s'.bks[b]] && s'.ths == s.ths[t := s'.ths[t]];
  }

  /** Left alone with room at its lock, a thread on track has a run that ends its call. */
  lemma {:induction false} AloneReturns(s: VS, t: nat) returns (tr: seq<VS>)
    requires VlSafety.Inv(s) && Going(s, t) && Room(s, t)
    ensures Solo(s, tr, t) && |tr| - 1 <= StepsLeft(s, t)
    ensures var last := tr[|tr| - 1];
            && VlSafety.Inv(last) && t < |last.ths| && Stopped(last.ths[t]) && last.ths[t].hist == s.ths[t].hist
    ensures forall m :: 0 <= m < |tr| - 1 ==>
              VlSafety.Inv(tr[m]) && Going(tr[m], t) && tr[m].ths[t].hist == s.ths[t].hist
    decreases StepsLeft(s, t)
  {
    hide VlMachine.StepBy, VlSafety.Inv, OnTrack, Todo, Stopped, Room;
    SomeLeft(s, t);
    var s' := AnyStep(s, t);
    StaysBelow(s, s', t);
    SoloStep(s, s', t);
    assert Below(s) by { BelowNow(s); }
    if Stopped(s'.ths[t]) {
      tr := [s, s'];
    } else {
      var rest := AloneReturns(s', t);
      tr := Prepend(s, s', rest, t);
      forall m | 0 <= m < |tr| - 1
        ensures VlSafety.Inv(tr[m]) && Going(tr[m], t) && tr[m].ths[t].hist == s.ths[t].hist
      {
        assert m > 0 ==> tr[m] == rest[m - 1];
      }
    }
  }

  lemma BelowNow(s: VS)
    requires VlSafety.Inv(s)
    ensures Below(s)
  {}

  lemma Prepend(s: VS, s': VS, rest: seq<VS>, t: nat) returns (tr: seq<VS>)
    requires VlMachine.StepBy(s, s', t) && Below(s) && Solo(s', rest, t)
    ensures Solo(s, tr, t) && tr == [s] + rest
  {
    hide VlMachine.StepBy, Below;
    tr := [s] + rest;
    forall i | 0 <= i < |tr| - 1 ensures VlMachine.StepBy(tr[i], tr[i + 1], t) {
      assert i > 0 ==> VlMachine.StepBy(rest[i - 1], rest[i - 1 + 1], t);
    }
  }

  // ----- what a call made alone does -----

  /** Thread t's call, which found the table tab0, has done what Apply says as far as it has got. */
  ghost predicate Does(s: VS, t: nat, tab0: seq<seq<KV>>) {
    && t < |s.ths| && s.ths[t].hist != [] && |tab0| == |s.bks|
    && InRange(|tab0|, A.Last(s.ths[t].hist)) && s.ths[t].b == BucketOf(A.Last(s.ths[t].hist).key, |tab0|)
    && Outcome(tab0, A.Last(s.ths[t].hist), Abs(s).tab, AbsPC(s.ths[t]))
  }

  lemma SoloDoes(s: VS, s': VS, t: nat, tab0: seq<seq<KV>>)
    requires VlSafety.Inv(s) && VlMachine.StepBy(s, s', t) && Going(s, t) && Does(s, t, tab0)
    ensures Does(s', t, tab0)
  {
    InsideBucket(s, s', t);
    StepAbs(true, s, s', t);
    hide BucketMove, VlSafety.Inv, VlMachine.StepBy, A.StepBy, A.Last, BucketOf, OnTrack, Cont, Outcome, AbsPC;
    assert |Abs(s).tab| == |s.bks| && |Abs(s').tab| == |s'.bks|;
    assert Abs(s).ths[t] == AbsTh(s.ths[t]) && Abs(s').ths[t] == AbsTh(s'.ths[t]);
    if Abs(s') != Abs(s) {
      GoingIsBusy(s, t);
      OutcomeStep(Abs(s), Abs(s'), t, tab0);
    }
  }

  lemma GoingIsBusy(s: VS, t: nat)
    requires Going(s, t)
    ensures !AbsPC(s.ths[t]).Idle?
  {}

  lemma {:induction false} DoesKept(s: VS, tr: seq<VS>, t: nat, k: nat, i: nat, tab0: seq<seq<KV>>)
    requires Solo(s, tr, t) && k <= i < |tr| && Does(tr[k], t, tab0)
    requires forall m :: k <= m < i ==> VlSafety.Inv(tr[m]) && Going(tr[m], t)
    ensures Does(tr[i], t, tab0)
    decreases i - k
  {
    hide VlMachine.StepBy, VlSafety.Inv, Does, Going;
    if k < i {
      assert VlMachine.StepBy(tr[k], tr[k + 1], t);
      SoloDoes(tr[k], tr[k + 1], t, tab0);
      DoesKept(s, tr, t, k + 1, i, tab0);
    }
  }

  /** The call has ended as the sequential specification has it, from the table tab0. */
  ghost predicate EndsAs(s: VS, t: nat, tab0: seq<seq<KV>>, op: A.Op)
    requires InRange(|tab0|, op)
  {
    && t < |s.ths| && s.ths[t].hist != [] && A.Last(s.ths[t].hist) == op
    && Abs(s).tab == Apply(tab0, op).0
    && s.ths[t].pc == if Apply(tab0, op).1.None? then Failed else Idle(Apply(tab0, op).1)
  }

  lemma StoppedEnds(s: VS, t: nat, tab0: seq<seq<KV>>)
    requires Does(s, t, tab0) && Stopped(s.ths[t])
    ensures EndsAs(s, t, tab0, A.Last(s.ths[t].hist))
  {
    hide BucketOf, Apply, Cont;
  }

  /** The call op of the idle thread t, made in s. */
  ghost predicate CallsNow(s: VS, s': VS, t: nat, op: A.Op) {
    && t < |s.ths| == |s'.ths| && s.ths[t].pc.Idle? && s'.ths[t].hist == s.ths[t].hist + [op]
    && VlMachine.StepBy(s, s', t)
  }

  lemma CallStarts(s: VS, s': VS, t: nat, op: A.Op)
    requires VlSafety.Inv(s) && CallsNow(s, s', t, op) && Below(s')
    requires InRange(|s.bks|, op) && (op.Get? || s.bks[BucketOf(op.key, |s.bks|)].lk.version % 2 == 0)
    ensures VlSafety.Inv(s') && s'.bks == s.bks && Going(s', t) && Does(s', t, Abs(s).tab)
    ensures s'.ths[t].b == BucketOf(op.key, |s.bks|) && A.Last(s'.ths[t].hist) == op
    ensures StepsLeft(s', t) <= 2 * |s.bks[s'.ths[t].b].chain| + 7
    ensures Due(s'.ths[t]) == if op.Get? then 0 else 1
  {
    VlSafety.StepInv(s, s', t);
    IdleCalls(s, s', t);
    hide VlSafety.Inv, VlMachine.StepBy, BucketOf, Cont;
  }

  /** The only step of an idle thread is a call. */
  lemma IdleCalls(s: VS, s': VS, t: nat)
    requires VlMachine.StepBy(s, s', t) && s.ths[t].pc.Idle?
    ensures s'.bks == s.bks && CallMove(s, s.ths[t], s'.ths[t])
  {}

  /**
   A call made alone, in every run: if an idle thread calls op, on a lock that is free unless op is a lookup,
   and from then on only that thread moves, it is back after at most 2 * n + 7 steps, n being the length of
   its bucket's list, and answer and table are those of the sequential specification.
   */
  lemma CallAlone(s: VS, tr: seq<VS>, t: nat, op: A.Op) returns (i: nat)
    requires VlSafety.Inv(s) && Solo(s, tr, t) && |tr| > 1 && CallsNow(s, tr[1], t, op)
    requires InRange(|s.bks|, op) && (op.Get? || s.bks[BucketOf(op.key, |s.bks|)].lk.version % 2 == 0)
    requires |tr| > 2 * |s.bks[BucketOf(op.key, |s.bks|)].chain| + 8
    ensures 1 < i <= 2 * |s.bks[BucketOf(op.key, |s.bks|)].chain| + 8
    ensures VlSafety.Inv(tr[i]) && EndsAs(tr[i], t, Abs(s).tab, op)
    ensures forall m :: 1 <= m < i ==> t < |tr[m].ths| && !Stopped(tr[m].ths[t])
  {
    assert Below(tr[1]);
    CallStarts(s, tr[1], t, op);
    hide VlSafety.Inv, VlMachine.StepBy, BucketOf, Does, CallsNow, EndsAs, Todo, OnTrack, Stopped;
    i := AloneEnds(s, tr, t, 1);
    DoesKept(s, tr, t, 1, i, Abs(s).tab);
    StoppedEnds(tr[i], t, Abs(s).tab);
  }

  /** And there is such a run, for every idle thread and every operation with its bucket in range. */
  lemma CallCanReturn(s: VS, t: nat, op: A.Op) returns (tr: seq<VS>)
    requires VlSafety.Inv(s) && t < |s.ths| && s.ths[t].pc.Idle? && InRange(|s.bks|, op)
    requires var lk := s.bks[BucketOf(op.key, |s.bks|)].lk;
             op.Get? || (lk.version % 2 == 0 && lk.unlocks + 1 < TWO63 - 1)
    ensures Solo(s, tr, t) && 1 < |tr| <= 2 * |s.bks[BucketOf(op.key, |s.bks|)].chain| + 9
    ensures CallsNow(s, tr[1], t, op) && VlSafety.Inv(tr[|tr| - 1])
    ensures EndsAs(tr[|tr| - 1], t, Abs(s).tab, op) && tr[|tr| - 1].ths[t].hist == s.ths[t].hist + [op]
  {
    var s' := MakeCall(s, t, op);
    BelowNow(s);
    CallStarts(s, s', t, op);
    hide VlSafety.Inv, VlMachine.StepBy, BucketOf, Does, EndsAs, Todo, OnTrack, Stopped, Due, Cont;
    assert Room(s', t) by { RoomAfterCall(s, s', t); }
    var rest := AloneReturns(s', t);
    tr := Prepend(s, s', rest, t);
    assert tr[1] == rest[0] == s' && tr[|tr| - 1] == rest[|rest| - 1];
    DoesKept(s', rest, t, 0, |rest| - 1, Abs(s).tab);
    StoppedEnds(tr[|tr| - 1], t, Abs(s).tab);
  }

  lemma RoomAfterCall(s: VS, s': VS, t: nat)
    requires Below(s) && s'.bks == s.bks && t < |s'.ths| && s'.ths[t].b < |s.bks|
    requires Due(s'.ths[t]) == 0 || (Due(s'.ths[t]) == 1 && s.bks[s'.ths[t].b].lk.unlocks + 1 < TWO63 - 1)
    ensures Room(s', t)
  {}

  lemma MakeCall(s: VS, t: nat, op: A.Op) returns (s': VS)
    requires t < |s.ths| && s.ths[t].pc.Idle? && InRange(|s.bks|, op)
    ensures CallsNow(s, s', t, op) && s'.bks == s.bks
  {
    hide BucketOf;
    var b := BucketOf(op.key, |s.bks|);
    var th' := VTh(s.ths[t].hist + [op], b, Out, if op.Get? then GSnap else WLock, [], [], 0, false,
                   s.bks[b].lk.version, 0, 0, 0);
    s' := VS(s.bks, s.ths[t := th']);
    assert A.Last(th'.hist) == op;
    assert CallMove(s, s.ths[t], th');
    assert s'.ths == s.ths[t := s'.ths[t]];
  }
}
