/**
 Progress of the lock-free table. A thread left alone finishes its insert or lookup within a number of steps
 fixed by the length of its list, wherever the other threads have stopped; the one exception is a
 linearizable lookup of an absent key whose list has grown since it read init_tag, which never ends.
 */
module LfProgress {
  import opened Words
  import opened Assoc
  import opened Hash
  import opened VlMachine
  import opened VlSafety
  import opened LfMachine
  import opened LfSafety
  import opened LfTheorems
  import opened FlatTable
  import opened Sequential
  import opened VlProgress
  import A = AtomicTable

  // ----- steps left -----

  /** The check of the do-while loop will let the call go, or the list holds its key. */
  ghost predicate OnTrackLf(s: LS, th: LTh)
    requires th.b < |s.bks| && th.hist != []
  {
    InLoop(th) ==> s.bks[th.b].tag == th.init || HasKey(s.bks[th.b].cont, A.Last(th.hist).key)
  }

  /** A further pass, for a linearizable lookup whose check will fail and that is past its key. */
  ghost function AgainLf(s: LS, th: LTh): nat
    requires th.b < |s.bks| && th.hist != []
  {
    if th.lin && s.bks[th.b].tag != th.init && !HasKey(th.rest, A.Last(th.hist).key) then 2 * |s.bks[th.b].cont| + 4
    else 0
  }

  /** Steps to the end of the call if nobody else moves. */
  ghost function TodoLf(s: LS, th: LTh): nat
    requires th.b < |s.bks| && th.hist != []
  {
    var bk := s.bks[th.b];
    match th.pc
    case Ready(_) => 0
    case SAlloc => 5
    case STag => 4
    case SNext(tag) => if tag == bk.tag then 3 else 6
    case SCas(tag, nx) => if tag == bk.tag && nx == bk.next then 2 else 5
    case SRet => 1
    case LTag => 2 * |bk.cont| + 4
    case LHead => 2 * |bk.cont| + 3
    case LKey(_) => 2 * |th.rest| + 2 + AgainLf(s, th)
    case LVal(_) => 2
    case LNext(_) => 2 * |th.rest| + 1 + AgainLf(s, th)
    case LCheck => if bk.tag == th.init then 2 else 2 * |bk.cont| + 4
    case LRet(_) => 1
  }

  lemma InsertTodo(s: LS, th: LTh, s': LS, th': LTh)
    requires th.hist != [] && th.b < |s.bks| && InsertMove(s, th, s', th')
    ensures th'.hist == th.hist && th'.b == th.b < |s'.bks|
    ensures th'.pc.Ready? || (OnTrackLf(s', th') && TodoLf(s', th') < TodoLf(s, th))
  {}

  lemma LookupTodoLf(s: LS, th: LTh, s': LS, th': LTh)
    requires th.hist != [] && th.b < |s.bks| && LookupMoveLf(s, th, s', th')
    requires PhaseLf(th) && ReaderOkLf(s.heap, th) && OnTrackLf(s, th) && ListOk(s.heap, s.bks[th.b])
    ensures th'.hist == th.hist && th'.b == th.b < |s'.bks|
    ensures th'.pc.Ready? || (OnTrackLf(s', th') && TodoLf(s', th') < TodoLf(s, th))
  {
    match th.pc
    case LNext(curr) => PassLf(s, th, s', th');
    case LHead => assert s.bks[th.b].next == 0 <==> s.bks[th.b].cont == [];
    case _ =>
  }

  lemma PassLf(s: LS, th: LTh, s': LS, th': LTh)
    requires th.hist != [] && th.b < |s.bks| && th.pc.LNext? && LookupMoveLf(s, th, s', th')
    requires ReaderOkLf(s.heap, th) && OnTrackLf(s, th)
    ensures th'.hist == th.hist && th'.b == th.b < |s'.bks|
    ensures OnTrackLf(s', th') && TodoLf(s', th') < TodoLf(s, th)
  {
    var key := A.Last(th.hist).key;
    assert HasKey(th.rest, key) <==> HasKey(th'.rest, key) by {
      if HasKey(th.rest, key) { PassNode(th.rest, th.rest, key); }
      if HasKey(th'.rest, key) {
        var i :| 0 <= i < |th'.rest| && th'.rest[i].key == key;
        assert th.rest[i + 1].key == key;
      }
    }
    assert Seg(s.heap, s.heap[th.pc.curr].next, th'.rest);
    assert s.heap[th.pc.curr].next == 0 <==> th'.rest == [];
  }

  // ----- one thread alone -----

  ghost predicate SoloLf(s: LS, tr: seq<LS>, t: nat) {
    |tr| > 0 && tr[0] == s && forall i :: 0 <= i < |tr| - 1 ==> LfMachine.StepBy(tr[i], tr[i + 1], t)
  }

  /** Thread t is inside a call that nothing keeps from finishing. */
  ghost predicate GoingLf(s: LS, t: nat) {
    && t < |s.ths| && s.ths[t].b < |s.bks| && s.ths[t].hist != [] && !s.ths[t].pc.Ready?
    && OnTrackLf(s, s.ths[t])
  }

  ghost function StepsLeftLf(s: LS, t: nat): nat
    requires t < |s.ths| && s.ths[t].b < |s.bks| && s.ths[t].hist != []
  {
    TodoLf(s, s.ths[t])
  }

  lemma SoloStepLf(s: LS, s': LS, t: nat)
    requires LfSafety.Inv(s) && LfMachine.StepBy(s, s', t) && GoingLf(s, t)
    ensures LfSafety.Inv(s') && t < |s'.ths| && s'.ths[t].hist == s.ths[t].hist && s'.ths[t].b == s.ths[t].b
    ensures s'.ths[t].pc.Ready? || (GoingLf(s', t) && StepsLeftLf(s', t) < StepsLeftLf(s, t))
  {
    ThreadFacts(s, t);
    assert ListOk(s.heap, s.bks[s.ths[t].b]);
    LfSafety.StepInv(s, s', t);
    hide LfSafety.Inv, InsertMove, LookupMoveLf, PhaseLf, ReaderOkLf, ListOk, OnTrackLf, TodoLf, InserterOk, ViewsOk;
    hide BucketOf;
    if InsertMove(s, s.ths[t], s', s'.ths[t]) {
      InsertTodo(s, s.ths[t], s', s'.ths[t]);
    } else {
      LookupTodoLf(s, s.ths[t], s', s'.ths[t]);
    }
  }

  /**
   In every run in which only thread t moves, from any state that satisfies the invariant in which t is inside
   a call and on track, whatever the others are in the middle of, the call is over within StepsLeftLf steps.
   */
  lemma {:induction false} AloneEndsLf(s: LS, tr: seq<LS>, t: nat, k: nat) returns (i: nat)
    requires SoloLf(s, tr, t) && k < |tr| && LfSafety.Inv(tr[k]) && GoingLf(tr[k], t)
    requires k + StepsLeftLf(tr[k], t) < |tr|
    ensures k < i <= k + StepsLeftLf(tr[k], t) && LfSafety.Inv(tr[i])
    ensures t < |tr[i].ths| && tr[i].ths[t].pc.Ready? && tr[i].ths[t].hist == tr[k].ths[t].hist
    ensures forall m :: k <= m < i ==> LfSafety.Inv(tr[m]) && GoingLf(tr[m], t)
    decreases |tr| - k
  {
    hide LfMachine.StepBy, LfSafety.Inv, OnTrackLf;
    assert StepsLeftLf(tr[k], t) > 0;
    hide TodoLf;
    assert LfMachine.StepBy(tr[k], tr[k + 1], t);
    SoloStepLf(tr[k], tr[k + 1], t);
    if tr[k + 1].ths[t].pc.Ready? {
      i := k + 1;
    } else {
      i := AloneEndsLf(s, tr, t, k + 1);
    }
  }

  // ----- the call that never ends -----

  /** A linearizable lookup past its init_tag, in a list that has grown since and does not hold its key. */
  ghost predicate Doomed(s: LS, t: nat) {
    && t < |s.ths| && s.ths[t].b < |s.bks| && s.ths[t].hist != [] && InLoop(s.ths[t])
    && !OnTrackLf(s, s.ths[t])
  }

  lemma DoomedMove(s: LS, th: LTh, s': LS, th': LTh)
    requires th.hist != [] && th.b < |s.bks| && LookupMoveLf(s, th, s', th') && InLoop(th) && !OnTrackLf(s, th)
    requires !th.pc.LVal? && (th.pc.LKey? && th.pc.curr in s.heap ==> s.heap[th.pc.curr].key != A.Last(th.hist).key)
    ensures th'.hist == th.hist && th'.b == th.b < |s'.bks| && InLoop(th') && !OnTrackLf(s', th')
  {}

  lemma DoomedStep(s: LS, s': LS, t: nat)
    requires LfSafety.Inv(s) && LfMachine.StepBy(s, s', t) && Doomed(s, t)
    ensures Doomed(s', t) && LfSafety.Inv(s')
  {
    hide LfSafety.Inv, LookupMoveLf, OnTrackLf, LfMachine.StepBy;
    LfSafety.StepInv(s, s', t);
    NoHit(s, t);
    LoopMoves(s, s', t);
    DoomedMove(s, s.ths[t], s', s'.ths[t]);
  }

  lemma LoopMoves(s: LS, s': LS, t: nat)
    requires LfMachine.StepBy(s, s', t) && Doomed(s, t)
    ensures t < |s'.ths| && LookupMoveLf(s, s.ths[t], s', s'.ths[t])
  {
    NoInsert(s, s', t);
    hide LookupMoveLf, OnTrackLf, InsertMove;
  }

  /** Its traversal cannot come upon its key, which was not there when it read head->next either. */
  lemma NoHit(s: LS, t: nat)
    requires LfSafety.Inv(s) && Doomed(s, t)
    ensures !s.ths[t].pc.LVal?
    ensures s.ths[t].pc.LKey? && s.ths[t].pc.curr in s.heap ==>
              s.heap[s.ths[t].pc.curr].key != A.Last(s.ths[t].hist).key
  {
    ThreadFacts(s, t);
    var th := s.ths[t];
    var cont := s.bks[th.b].cont;
    if th.pc.LVal? || th.pc.LKey? {
      assert Suffix(th.view, cont) && th.rest == th.view[th.hops..];
      var d := |cont| - |th.view| + th.hops;
      assert th.rest[0] == cont[d];
    }
  }

  /**
   Such a lookup never returns, however long its thread runs alone; AloneEndsLf says that every other call
   does. So a linearizable lookup left alone in its loop ends if and only if init_tag is still the tag of its
   list or the list holds its key.
   */
  lemma {:induction false} DoomedForever(s: LS, tr: seq<LS>, t: nat, i: nat)
    requires LfSafety.Inv(s) && Doomed(s, t) && SoloLf(s, tr, t) && i < |tr|
    ensures LfSafety.Inv(tr[i]) && Doomed(tr[i], t)
  {
    hide LfSafety.Inv, LfMachine.StepBy, Doomed;
    if i > 0 {
      DoomedForever(s, tr, t, i - 1);
      assert LfMachine.StepBy(tr[i - 1], tr[i - 1 + 1], t);
      DoomedStep(tr[i - 1], tr[i], t);
    }
  }

  // ----- such runs exist, and what a call made alone does -----

  lemma LookupCanLf(s: LS, th: LTh) returns (th': LTh)
    requires th.hist != [] && th.b < |s.bks| && ReaderOkLf(s.heap, th)
    requires th.pc.LTag? || th.pc.LHead? || SampledLf(th.pc)
    ensures forall s': LS :: s' == s.(ths := s'.ths) ==> LookupMoveLf(s, th, s', th')
  {
    var bk := s.bks[th.b];
    var key := A.Last(th.hist).key;
    match th.pc
    case LTag => th' := th.(init := bk.tag, mark := bk.cont, pc := LHead);
    case LHead => th' := th.(pc := VisitLf(th.lin, bk.next), view := bk.cont, rest := bk.cont, hops := 0);
    case LKey(curr) => th' := th.(pc := if s.heap[curr].key == key then LVal(curr) else LNext(curr));
    case LVal(curr) => th' := th.(pc := LRet(s.heap[curr].val));
    case LNext(curr) =>
      th' := th.(pc := VisitLf(th.lin, s.heap[curr].next), rest := Tail(th.rest), hops := th.hops + 1);
    case LCheck => th' := th.(pc := if bk.tag != th.init then LHead else LRet(UINT64_MAX));
    case LRet(val) => th' := th.(pc := Ready(A.Val(val)));
  }

  lemma InsertCan(s: LS, t: nat) returns (s': LS)
    requires t < |s.ths| && s.ths[t].hist != [] && s.ths[t].b < |s.bks| && A.Last(s.ths[t].hist).Ins?
    requires PhaseLf(s.ths[t]) && !s.ths[t].pc.Ready?
    ensures t < |s'.ths| == |s.ths| && s'.ths == s.ths[t := s'.ths[t]] && InsertMove(s, s.ths[t], s', s'.ths[t])
  {
    var th := s.ths[t];
    var op := A.Last(th.hist);
    var bk := s.bks[th.b];
    match th.pc
    case SAlloc =>
      var m := Bound(s.alloc);
      s' := s.(alloc := s.alloc + {m + 1}, ths := s.ths[t := th.(node := m + 1, pc := STag)]);
    case STag => s' := s.(ths := s.ths[t := th.(pc := SNext(bk.tag), len := |bk.cont|)]);
    case SNext(tag) => s' := s.(ths := s.ths[t := th.(pc := SCas(tag, bk.next))]);
    case SCas(tag, nx) =>
      if bk.tag == tag && bk.next == nx {
        s' := s.(heap := s.heap[th.node := Cell(op.key, op.val, nx)],
                 bks := s.bks[th.b := Head((tag + 1) % TWO64, th.node, [KV(op.key, op.val)] + bk.cont)],
                 ths := s.ths[t := th.(pc := SRet, own := Bump(th.own, th.b))]);
      } else {
        s' := s.(ths := s.ths[t := th.(pc := STag, fails := Bump(th.fails, th.b))]);
      }
    case SRet => s' := s.(ths := s.ths[t := th.(pc := Ready(A.Done))]);
  }

  /** Inside a call there is always a next step. */
  lemma AnyStepLf(s: LS, t: nat) returns (s': LS)
    requires LfSafety.Inv(s) && t < |s.ths| && s.ths[t].hist != [] && !s.ths[t].pc.Ready?
    ensures LfMachine.StepBy(s, s', t)
  {
    ThreadFacts(s, t);
    hide LfSafety.Inv, LookupMoveLf, InsertMove, ReaderOkLf, InserterOk, ViewsOk;
    if s.ths[t].pc.LTag? || s.ths[t].pc.LHead? || SampledLf(s.ths[t].pc) {
      var th' := LookupCanLf(s, s.ths[t]);
      s' := s.(ths := s.ths[t := th']);
      assert s' == s.(ths := s'.ths);
    } else {
      s' := InsertCan(s, t);
    }
  }

  lemma PrependLf(s: LS, s': LS, rest: seq<LS>, t: nat) returns (tr: seq<LS>)
    requires LfMachine.StepBy(s, s', t) && SoloLf(s', rest, t)
    ensures SoloLf(s, tr, t) && tr == [s] + rest
  {
    hide LfMachine.StepBy;
    tr := [s] + rest;
    forall i | 0 <= i < |tr| - 1 ensures LfMachine.StepBy(tr[i], tr[i + 1], t) {
      assert i > 0 ==> LfMachine.StepBy(rest[i - 1], rest[i - 1 + 1], t);
    }
  }

  /** A thread on track, left alone, has a run that ends its call. */
  lemma {:induction false} AloneReturnsLf(s: LS, t: nat) returns (tr: seq<LS>)
    requires LfSafety.Inv(s) && GoingLf(s, t)
    ensures SoloLf(s, tr, t) && |tr| - 1 <= StepsLeftLf(s, t)
    ensures var last := tr[|tr| - 1];
            && LfSafety.Inv(last) && t < |last.ths| && last.ths[t].pc.Ready? && last.ths[t].hist == s.ths[t].hist
    ensures forall m :: 0 <= m < |tr| - 1 ==> LfSafety.Inv(tr[m]) && GoingLf(tr[m], t)
    decreases StepsLeftLf(s, t)
  {
    hide LfMachine.StepBy, LfSafety.Inv, OnTrackLf, TodoLf;
    var s' := AnyStepLf(s, t);
    SoloStepLf(s, s', t);
    if s'.ths[t].pc.Ready? {
      tr := [s, s'];
      assert StepsLeftLf(s, t) > 0 by { MoreLeft(s, t); }
    } else {
      var rest := AloneReturnsLf(s', t);
      tr := PrependLf(s, s', rest, t);
      forall m | 0 <= m < |tr| - 1 ensures LfSafety.Inv(tr[m]) && GoingLf(tr[m], t) {
        assert m > 0 ==> tr[m] == rest[m - 1];
      }
    }
  }

  lemma MoreLeft(s: LS, t: nat)
    requires GoingLf(s, t)
    ensures StepsLeftLf(s, t) > 0
  {}

  /** Thread t's call, which found the table tab0, has done what Apply says as far as it has got. */
  ghost predicate DoesLf(s: LS, t: nat, tab0: seq<seq<KV>>) {
    && t < |s.ths| && s.ths[t].hist != [] && |tab0| == |s.bks|
    && InRange(|tab0|, A.Last(s.ths[t].hist)) && s.ths[t].b == BucketOf(A.Last(s.ths[t].hist).key, |tab0|)
    && Outcome(tab0, A.Last(s.ths[t].hist), AbsLf(s).tab, AbsPcLf(s.ths[t]))
  }

  lemma SoloDoesLf(s: LS, s': LS, t: nat, tab0: seq<seq<KV>>)
    requires LfSafety.Inv(s) && LfMachine.StepBy(s, s', t) && GoingLf(s, t) && DoesLf(s, t, tab0)
    ensures DoesLf(s', t, tab0)
  {
    ThreadFacts(s, t);
    SoloStepLf(s, s', t);
    StepKinds(s, s', t);
    StepAbsLf(s, s', t);
    hide LfSafety.Inv, LfMachine.StepBy, A.StepBy, A.Last, BucketOf, OnTrackLf, Outcome, AbsPcLf, ThreadOkLf, TodoLf;
    hide Commits, Silent;
    assert |AbsLf(s).tab| == |s.bks| && |AbsLf(s').tab| == |s'.bks|;
    assert AbsLf(s).ths[t] == AbsThLf(s.ths[t]) && AbsLf(s').ths[t] == AbsThLf(s'.ths[t]);
    if AbsLf(s') != AbsLf(s) {
      GoingIsBusyLf(s, t);
      OutcomeStep(AbsLf(s), AbsLf(s'), t, tab0);
    }
  }

  lemma GoingIsBusyLf(s: LS, t: nat)
    requires GoingLf(s, t)
    ensures !AbsPcLf(s.ths[t]).Idle?
  {}

  lemma {:induction false} DoesKeptLf(s: LS, tr: seq<LS>, t: nat, k: nat, i: nat, tab0: seq<seq<KV>>)
    requires SoloLf(s, tr, t) && k <= i < |tr| && DoesLf(tr[k], t, tab0)
    requires forall m :: k <= m < i ==> LfSafety.Inv(tr[m]) && GoingLf(tr[m], t)
    ensures DoesLf(tr[i], t, tab0)
    decreases i - k
  {
    hide LfMachine.StepBy, LfSafety.Inv, DoesLf, GoingLf;
    if k < i {
      assert LfMachine.StepBy(tr[k], tr[k + 1], t);
      SoloDoesLf(tr[k], tr[k + 1], t, tab0);
      DoesKeptLf(s, tr, t, k + 1, i, tab0);
    }
  }

  /** The call has ended as the sequential specification has it, from the table tab0. */
  ghost predicate EndsAsLf(s: LS, t: nat, tab0: seq<seq<KV>>, op: A.Op)
    requires InRange(|tab0|, op)
  {
    && t < |s.ths| && s.ths[t].hist != [] && A.Last(s.ths[t].hist) == op
    && AbsLf(s).tab == Apply(tab0, op).0 && s.ths[t].pc == Ready(Apply(tab0, op).1)
  }

  lemma ReadyEnds(s: LS, t: nat, tab0: seq<seq<KV>>)
    requires DoesLf(s, t, tab0) && s.ths[t].pc.Ready?
    ensures EndsAsLf(s, t, tab0, A.Last(s.ths[t].hist))
  {
    hide BucketOf, Apply;
  }

  /** The call op of the idle thread t, made in s; a lookup is of either kind. */
  ghost predicate CallsNowLf(s: LS, s': LS, t: nat, op: A.Op) {
    && t < |s.ths| == |s'.ths| && s.ths[t].pc.Ready? && s'.ths[t].hist == s.ths[t].hist + [op]
    && LfMachine.StepBy(s, s', t)
  }

  lemma CallStartsLf(s: LS, s': LS, t: nat, op: A.Op)
    requires LfSafety.Inv(s) && CallsNowLf(s, s', t, op) && InRange(|s.bks|, op)
    ensures LfSafety.Inv(s') && s'.bks == s.bks && GoingLf(s', t) && DoesLf(s', t, AbsLf(s).tab)
    ensures s'.ths[t].b == BucketOf(op.key, |s.bks|) && A.Last(s'.ths[t].hist) == op
    ensures StepsLeftLf(s', t) <= 2 * |s.bks[s'.ths[t].b].cont| + 5
  {
    LfSafety.StepInv(s, s', t);
    ReadyCalls(s, s', t);
    hide LfSafety.Inv, LfMachine.StepBy, BucketOf;
  }

  /** The only step of a thread between calls is a call. */
  lemma ReadyCalls(s: LS, s': LS, t: nat)
    requires LfMachine.StepBy(s, s', t) && s.ths[t].pc.Ready?
    ensures LfMachine.CallMove(s, s.ths[t], s', s'.ths[t])
  {}

  /**
   A call made alone, in every run, whatever the other threads have stopped in the middle of: it is back after
   at most 2 * n + 5 steps, n being the length of its list, and answer and table are those of the
   sequential specification.
   */
  lemma CallAloneLf(s: LS, tr: seq<LS>, t: nat, op: A.Op) returns (i: nat)
    requires LfSafety.Inv(s) && SoloLf(s, tr, t) && |tr| > 1 && CallsNowLf(s, tr[1], t, op) && InRange(|s.bks|, op)
    requires |tr| > 2 * |s.bks[BucketOf(op.key, |s.bks|)].cont| + 6
    ensures 1 < i <= 2 * |s.bks[BucketOf(op.key, |s.bks|)].cont| + 6
    ensures LfSafety.Inv(tr[i]) && EndsAsLf(tr[i], t, AbsLf(s).tab, op)
    ensures forall m :: 1 <= m < i ==> t < |tr[m].ths| && !tr[m].ths[t].pc.Ready?
  {
    CallStartsLf(s, tr[1], t, op);
    hide LfSafety.Inv, LfMachine.StepBy, BucketOf, DoesLf, CallsNowLf, EndsAsLf, TodoLf, OnTrackLf;
    i := AloneEndsLf(s, tr, t, 1);
    DoesKeptLf(s, tr, t, 1, i, AbsLf(s).tab);
    ReadyEnds(tr[i], t, AbsLf(s).tab);
  }

  /** And there is such a run, for every insert and every lookup of either kind with its bucket in range. */
  lemma CallCanReturnLf(s: LS, t: nat, op: A.Op, lin: bool) returns (tr: seq<LS>)
    requires LfSafety.Inv(s) && t < |s.ths| && s.ths[t].pc.Ready? && InRange(|s.bks|, op) && !op.Del?
    ensures SoloLf(s, tr, t) && 1 < |tr| <= 2 * |s.bks[BucketOf(op.key, |s.bks|)].cont| + 7
    ensures CallsNowLf(s, tr[1], t, op) && tr[1].ths[t].lin == lin && LfSafety.Inv(tr[|tr| - 1])
    ensures EndsAsLf(tr[|tr| - 1], t, AbsLf(s).tab, op) && tr[|tr| - 1].ths[t].hist == s.ths[t].hist + [op]
  {
    var s' := MakeCallLf(s, t, op, lin);
    CallStartsLf(s, s', t, op);
    hide LfSafety.Inv, LfMachine.StepBy, BucketOf, DoesLf, EndsAsLf, TodoLf, OnTrackLf;
    var rest := AloneReturnsLf(s', t);
    tr := PrependLf(s, s', rest, t);
    assert tr[1] == rest[0] == s' && tr[|tr| - 1] == rest[|rest| - 1];
    DoesKeptLf(s', rest, t, 0, |rest| - 1, AbsLf(s).tab);
    ReadyEnds(tr[|tr| - 1], t, AbsLf(s).tab);
  }

  lemma MakeCallLf(s: LS, t: nat, op: A.Op, lin: bool) returns (s': LS)
    requires t < |s.ths| && s.ths[t].pc.Ready? && InRange(|s.bks|, op) && !op.Del?
    ensures CallsNowLf(s, s', t, op) && s'.bks == s.bks && s'.ths[t].lin == lin
  {
    hide BucketOf;
    var th := s.ths[t];
    var th' := th.(hist := th.hist + [op], b := BucketOf(op.key, |s.bks|), lin := lin,
                   pc := if op.Ins? then SAlloc else if lin then LTag else LHead);
    s' := s.(ths := s.ths[t := th']);
    assert A.Last(th'.hist) == op;
    assert LfMachine.CallMove(s, th, s', th');
    assert s'.ths == s.ths[t := s'.ths[t]];
  }
}
