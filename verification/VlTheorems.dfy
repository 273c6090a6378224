/** The version-locked table refines the atomic table; what its lookups guarantee and when. */
module VlTheorems {
  import opened Words
  import opened Assoc
  import opened LockMachine
  import opened VlMachine
  import opened VlSafety
  import opened Sums
  import A = AtomicTable

  // ----- how a state looks to the atomic table -----

  /** Inserts take effect at the write of head->next, removes at the unlink, lookups at the read of head->next. */
  ghost function AbsPC(th: VTh): A.APC {
    match th.pc
    case Idle(r) => A.Idle(r)
    case GKey(_) | GVal(_) | GNext(_) | GCheck(_) =>
      A.Got(if th.hist == [] then 0 else Lookup(th.view, A.Last(th.hist).key))
    case DFree(_) | WUnlock => A.Committed
    case Failed => A.Failed
    case _ => A.Pend
  }

  ghost function AbsTh(th: VTh): A.ATh { A.ATh(th.hist, th.b, AbsPC(th)) }

  ghost function Abs(s: VS): A.AS {
    A.AS(seq(|s.bks|, b requires 0 <= b < |s.bks| => Cont(s.bks[b])),
         seq(|s.ths|, t requires 0 <= t < |s.ths| => AbsTh(s.ths[t])))
  }

  /** A lookup returns although an unlink has hit its bucket since it read head->next. */
  ghost predicate CutReturn(bk: Bkt, th: VTh, th': VTh) {
    th.pc.GCheck? && th'.pc.Idle? && !Uncut(bk, th)
  }

  lemma LookupAbs(strict: bool, bk: Bkt, th: VTh, bk': Bkt, th': VTh, tab: seq<seq<KV>>)
    requires Linked(bk) && ThOk(bk, th) && th.hist != [] && LookupMove(bk, th, bk', th')
    requires strict ==> !CutReturn(bk, th, th')
    requires th.b < |tab| && tab[th.b] == Cont(bk)
    ensures bk' == bk && (AbsTh(th') == AbsTh(th) || A.Move(strict, tab, AbsTh(th), tab, AbsTh(th')))
  {}

  /** The end of a remove's walk: no node of the bucket has the key. */
  lemma WalkedAll(bk: Bkt, th: VTh)
    requires Linked(bk) && th.hist != [] && WriterOk(bk, th)
    requires (th.pc.DHead? && bk.head == 0) ||
             (th.pc.DNext? && th.pc.curr in bk.heap && bk.heap[th.pc.curr].next == 0)
    ensures !HasKey(Cont(bk), A.Last(th.hist).key)
  {
    if th.pc.DHead? {
      assert |bk.chain| > 0 ==> LinkAt(bk, 0);
    } else {
      assert LinkAt(bk, th.at);
      assert th.at + 1 < |bk.chain| ==> LinkAt(bk, th.at + 1);
    }
  }

  lemma MatchFound(bk: Bkt, th: VTh)
    requires th.hist != [] && WriterOk(bk, th) && th.pc.DUnlink?
    ensures HasKey(Cont(bk), A.Last(th.hist).key)
  {
    assert Cont(bk)[th.at].key == A.Last(th.hist).key;
  }

  lemma WriteAbs(strict: bool, bk: Bkt, th: VTh, bk': Bkt, th': VTh, tab: seq<seq<KV>>)
    requires Linked(bk) && Phase(th) && th.hist != [] && WriterOk(bk, th) && WriteMove(bk, th, bk', th')
    requires Cont(bk') == Written(bk, th)
    requires th.b < |tab| && tab[th.b] == Cont(bk)
    ensures (AbsTh(th') == AbsTh(th) && Cont(bk') == Cont(bk)) ||
            A.Move(strict, tab, AbsTh(th), tab[th.b := Cont(bk')], AbsTh(th'))
  {
    hide Linked, WalkAt;
    assert tab[th.b := tab[th.b]] == tab;
    if th'.pc.Failed? {
      WalkedAll(bk, th);
    }
    if th.pc.DUnlink? {
      MatchFound(bk, th);
    }
    hide HasKey, RemoveFirst, Cont;
  }

  lemma LockingAbs(strict: bool, bk: Bkt, th: VTh, bk': Bkt, th': VTh, tab: seq<seq<KV>>)
    requires Phase(th) && th.hist != [] && LockingMove(bk, th, bk', th')
    ensures AbsTh(th') == AbsTh(th) || A.Move(strict, tab, AbsTh(th), tab, AbsTh(th'))
    ensures !th.pc.IPub? && !th.pc.DUnlink?
  {}

  lemma MoveAbs(strict: bool, bk: Bkt, th: VTh, bk': Bkt, th': VTh, tab: seq<seq<KV>>)
    requires Linked(bk) && ThOk(bk, th) && BucketMove(bk, th, bk', th')
    requires strict ==> !CutReturn(bk, th, th')
    requires th.b < |tab| && tab[th.b] == Cont(bk)
    ensures (AbsTh(th') == AbsTh(th) && Cont(bk') == Cont(bk)) ||
            A.Move(strict, tab, AbsTh(th), tab[th.b := Cont(bk')], AbsTh(th'))
  {
    hide LookupMove, LockingMove, WriteMove, Linked, WriterOk, ReaderOk, Phase, A.Move, AbsTh;
    StepList(bk, th, bk', th');
    assert tab[th.b := tab[th.b]] == tab;
    if LookupMove(bk, th, bk', th') {
      LookupAbs(strict, bk, th, bk', th', tab);
    } else if WriteMove(bk, th, bk', th') {
      WriteAbs(strict, bk, th, bk', th', tab);
    } else {
      LockingAbs(strict, bk, th, bk', th', tab);
    }
  }

  lemma CallAbs(strict: bool, s: VS, th: VTh, th': VTh, tab: seq<seq<KV>>)
    requires CallMove(s, th, th') && |tab| == |s.bks|
    ensures A.Move(strict, tab, AbsTh(th), tab, AbsTh(th'))
  {}

  /** One step of one thread is one step of the atomic table, or none. */
  lemma StepAbs(strict: bool, s: VS, s': VS, t: nat)
    requires VlSafety.Inv(s) && VlMachine.StepBy(s, s', t)
    requires strict && s.ths[t].b < |s.bks| ==> !CutReturn(s.bks[s.ths[t].b], s.ths[t], s'.ths[t])
    ensures Abs(s') == Abs(s) || A.StepBy(strict, Abs(s), Abs(s'), t)
  {
    hide BucketMove, ThOk, Linked, A.Move, LockMachine.Inv;
    var th, th' := s.ths[t], s'.ths[t];
    var a, a' := Abs(s), Abs(s');
    assert Placed(s, th) && ThOk(s.bks[th.b], th);
    assert a'.ths == a.ths[t := AbsTh(th')];
    if s'.bks == s.bks && CallMove(s, th, th') {
      assert a'.tab == a.tab;
      CallAbs(strict, s, th, th', a.tab);
      assert A.StepBy(strict, a, a', t);
    } else {
      var bk, bk' := s.bks[th.b], s'.bks[th.b];
      MoveAbs(strict, bk, th, bk', th', a.tab);
      assert a'.tab == a.tab[th.b := Cont(bk')];
      if AbsTh(th') == AbsTh(th) && Cont(bk') == Cont(bk) {
        assert a' == a;
      } else {
        assert A.StepBy(strict, a, a', t);
      }
    }
  }

  // ----- whole runs -----

  /** Every bucket has had fewer than 2^63 - 1 unlocks. */
  ghost predicate BelowReset(tr: seq<VS>) {
    forall i :: 0 <= i < |tr| ==> Below(tr[i])
  }

  /** Step i is a lookup of thread t that returns. */
  ghost predicate ReturnsAt(tr: seq<VS>, i: nat, t: nat) {
    i + 1 < |tr| && t < |tr[i].ths| && t < |tr[i + 1].ths| && tr[i].ths[t].b < |tr[i].bks| &&
    tr[i].ths[t].pc.GCheck? && tr[i + 1].ths[t].pc.Idle?
  }

  lemma InitInv(s: VS)
    requires VlMachine.Init(s)
    ensures VlSafety.Inv(s)
  {
    forall b | 0 <= b < |s.bks| ensures LockMachine.Inv(AsWritten, LockView(s, b)) {
      assert LockMachine.Init(LockView(s, b));
    }
  }

  lemma {:induction false} RunInv(tr: seq<VS>, i: nat)
    requires VlMachine.Run(tr) && BelowReset(tr) && i < |tr|
    ensures VlSafety.Inv(tr[i]) && |tr[i].bks| == |tr[0].bks| && |tr[i].ths| == |tr[0].ths|
  {
    hide VlMachine.StepBy, VlSafety.Inv;
    if i == 0 {
      InitInv(tr[0]);
    } else {
      RunInv(tr, i - 1);
      var t := Stepper(tr, i - 1);
      assert Below(tr[i]);
      VlSafety.StepInv(tr[i - 1], tr[i], t);
    }
  }

  /** The thread that takes step i. */
  lemma Stepper(tr: seq<VS>, i: nat) returns (t: nat)
    requires VlMachine.Run(tr) && i + 1 < |tr|
    ensures VlMachine.StepBy(tr[i], tr[i + 1], t)
  {
    assert VlMachine.Next(tr[i], tr[i + 1]);
    t :| VlMachine.StepBy(tr[i], tr[i + 1], t);
  }

  ghost function AbsRun(tr: seq<VS>): seq<A.AS> { seq(|tr|, i requires 0 <= i < |tr| => Abs(tr[i])) }

  /** Every lookup of the run returns with no unlink in its bucket since it read head->next. */
  ghost predicate UncutReturns(tr: seq<VS>) {
    forall i: nat, t: nat | ReturnsAt(tr, i, t) :: Uncut(tr[i].bks[tr[i].ths[t].b], tr[i].ths[t])
  }

  lemma Refines(strict: bool, tr: seq<VS>)
    requires VlMachine.Run(tr) && BelowReset(tr) && (strict ==> UncutReturns(tr))
    ensures A.Run(strict, AbsRun(tr))
  {
    hide VlMachine.StepBy, VlSafety.Inv;
    var ar := AbsRun(tr);
    forall i | 0 <= i < |ar| - 1 ensures A.Next(strict, ar[i], ar[i + 1]) {
      RunInv(tr, i);
      var t := Stepper(tr, i);
      StepThread(tr[i], tr[i + 1], t);
      assert CutReturn(tr[i].bks[tr[i].ths[t].b], tr[i].ths[t], tr[i + 1].ths[t]) ==> ReturnsAt(tr, i, t);
      StepAbs(strict, tr[i], tr[i + 1], t);
    }
  }

  lemma StepThread(s: VS, s': VS, t: nat)
    requires VlSafety.Inv(s) && VlMachine.StepBy(s, s', t)
    ensures t < |s.ths| == |s'.ths| && s.ths[t].b < |s.bks|
  {
    assert Placed(s, s.ths[t]);
  }

  /** Inserts and removes are atomic in every run below the reset point, whatever its lookups do. */
  lemma WritersAreAtomic(tr: seq<VS>)
    requires VlMachine.Run(tr) && BelowReset(tr)
    ensures A.Run(false, AbsRun(tr))
  {
    Refines(false, tr);
  }

  // ----- when lookups are right -----

  /** No remove owns the lock of bucket b. */
  ghost predicate Calm(s: VS, b: nat) {
    forall t :: 0 <= t < |s.ths| ==> !Removing(s.ths[t], b)
  }

  ghost predicate Removing(th: VTh, b: nat) {
    th.b == b && Holding(th.l) && th.hist != [] && A.Last(th.hist).Del?
  }

  /** No lookup of the run returns while a remove owns the lock of its bucket. */
  ghost predicate CalmReturns(tr: seq<VS>) {
    forall i: nat, t: nat | ReturnsAt(tr, i, t) :: Calm(tr[i], tr[i].ths[t].b)
  }

  /**
   Every interleaving of inserts, removes and lookups in which no lookup returns while a remove owns
   its bucket's lock refines the atomic table, whatever the snapshots were.
   */
  lemma RefinesAtomicTable(tr: seq<VS>)
    requires VlMachine.Run(tr) && BelowReset(tr) && CalmReturns(tr)
    ensures A.Run(true, AbsRun(tr))
  {
    forall i: nat, t: nat | ReturnsAt(tr, i, t) ensures Uncut(tr[i].bks[tr[i].ths[t].b], tr[i].ths[t]) {
      CalmIsUncut(tr, i, t);
    }
    Refines(true, tr);
  }

  lemma ReturnStep(tr: seq<VS>, i: nat, t: nat)
    requires VlMachine.Run(tr) && BelowReset(tr) && ReturnsAt(tr, i, t)
    ensures VlSafety.Inv(tr[i]) && VlMachine.StepBy(tr[i], tr[i + 1], t)
    ensures var th := tr[i].ths[t];
            && th.hist != [] && Current(tr[i].bks[th.b], th) && A.Last(th.hist).Get?
            && tr[i + 1].ths[t].pc.res == A.Val(th.pc.val)
  {
    RunInv(tr, i);
    var u := Stepper(tr, i);
    assert u == t;
    assert Placed(tr[i], tr[i].ths[t]) && ThOk(tr[i].bks[tr[i].ths[t].b], tr[i].ths[t]);
  }

  lemma CalmIsUncut(tr: seq<VS>, i: nat, t: nat)
    requires VlMachine.Run(tr) && BelowReset(tr) && ReturnsAt(tr, i, t) && Calm(tr[i], tr[i].ths[t].b)
    ensures Uncut(tr[i].bks[tr[i].ths[t].b], tr[i].ths[t])
  {
    hide VlMachine.StepBy, ThOk, Linked, LockMachine.Inv, Below;
    ReturnStep(tr, i, t);
    var s, b := tr[i], tr[i].ths[t].b;
    assert CutOk(s, s.ths[t]);
    assert forall u :: 0 <= u < |s.ths| && Cutter(s.ths[u], b) ==> Removing(s.ths[u], b);
  }

  ghost predicate InsertOnly(tr: seq<VS>) {
    forall i :: 0 <= i < |tr| ==> NoRemoves(tr[i])
  }

  /** No call in any thread's history is a remove. */
  ghost predicate NoRemoves(s: VS) {
    forall t :: 0 <= t < |s.ths| && s.ths[t].hist != [] ==> !A.Last(s.ths[t].hist).Del?
  }

  /** No lookup of the run returns on an odd snapshot. */
  ghost predicate EvenReturns(tr: seq<VS>) {
    forall i: nat, t: nat | ReturnsAt(tr, i, t) && tr[i].ths[t].l.Reading? :: tr[i].ths[t].l.snap % 2 == 0
  }

  /** A discipline a client can keep: no bucket ever has a lookup and a remove in progress together. */
  ghost predicate RemovesApart(tr: seq<VS>) {
    forall i :: 0 <= i < |tr| ==> Apart(tr[i])
  }

  ghost predicate Apart(s: VS) {
    forall t, u | 0 <= t < |s.ths| && 0 <= u < |s.ths| && s.ths[t].b == s.ths[u].b ::
      !(InCall(s.ths[t]) && InCall(s.ths[u]) && A.Last(s.ths[t].hist).Get? && A.Last(s.ths[u].hist).Del?)
  }

  ghost predicate InCall(th: VTh) { th.hist != [] && !th.pc.Idle? }

  /** Three ways to meet the hypothesis: no removes, removes kept apart from lookups, or only even snapshots. */
  lemma CalmRuns(tr: seq<VS>)
    requires VlMachine.Run(tr) && BelowReset(tr)
    requires InsertOnly(tr) || RemovesApart(tr) || EvenReturns(tr)
    ensures CalmReturns(tr)
  {
    forall i: nat, t: nat | ReturnsAt(tr, i, t) ensures Calm(tr[i], tr[i].ths[t].b) {
      ReturnStep(tr, i, t);
      var s := tr[i];
      forall u | 0 <= u < |s.ths| ensures !Removing(s.ths[u], s.ths[t].b) {
        if Removing(s.ths[u], s.ths[t].b) {
          RemoverFacts(s, u);
        }
      }
    }
  }

  lemma RemoverFacts(s: VS, u: nat)
    requires VlSafety.Inv(s) && u < |s.ths| && Holding(s.ths[u].l)
    ensures s.ths[u].b < |s.bks| && s.bks[s.ths[u].b].lk.version % 2 == 1 && !s.ths[u].pc.Idle?
  {
    assert Placed(s, s.ths[u]) && ThOk(s.bks[s.ths[u].b], s.ths[u]);
    LockFacts(s, u);
  }

  // ----- lookups -----

  /** What an attempt that returns with no unlink since its head read has done. */
  lemma ReturnFacts(tr: seq<VS>, i: nat, t: nat)
    requires VlMachine.Run(tr) && BelowReset(tr) && ReturnsAt(tr, i, t)
    requires Uncut(tr[i].bks[tr[i].ths[t].b], tr[i].ths[t])
    ensures var th := tr[i].ths[t];
            && th.hist != [] && !th.wild && th.l.Reading?
            && th.l.snap == tr[i].bks[th.b].lk.version
            && th.pc.val == Lookup(th.view, A.Last(th.hist).key)
            && tr[i + 1].ths[t].pc.res == A.Val(th.pc.val)
            && (th.l.snap % 2 == 0 ==> th.view == Cont(tr[i].bks[th.b]))
  {
    ReturnStep(tr, i, t);
    assert ThOk(tr[i].bks[tr[i].ths[t].b], tr[i].ths[t]);
  }

  /** What an attempt knows of its bucket it learned at its read of head->next. */
  lemma StepSample(s: VS, s': VS, t: nat, u: nat)
    requires VlSafety.Inv(s) && VlMachine.StepBy(s, s', t) && u < |s.ths| && Sampled(s'.ths[u].pc)
    ensures s.ths[u].hist == s'.ths[u].hist && s.ths[u].b == s'.ths[u].b < |s.bks|
    ensures if Sampled(s.ths[u].pc) then s'.ths[u].view == s.ths[u].view && s'.ths[u].seen == s.ths[u].seen
            else s.ths[u].pc.GHead? && s'.ths[u].view == Cont(s.bks[s.ths[u].b]) &&
                 s'.ths[u].seen == s.bks[s.ths[u].b].cuts
  {
    assert Placed(s, s.ths[u]) && ThOk(s.bks[s.ths[u].b], s.ths[u]);
    hide Linked, ThOk, Cont, LockMachine.Inv;
    if u == t && !(s'.bks == s.bks && CallMove(s, s.ths[t], s'.ths[t])) {
      hide CallMove;
      SampleOf(s.bks[s.ths[t].b], s.ths[t], s'.bks[s.ths[t].b], s'.ths[t]);
    }
  }

  lemma SampleOf(bk: Bkt, th: VTh, bk': Bkt, th': VTh)
    requires BucketMove(bk, th, bk', th') && Sampled(th'.pc)
    ensures th.hist == th'.hist && th.b == th'.b
    ensures if Sampled(th.pc) then th'.view == th.view && th'.seen == th.seen
            else th.pc.GHead? && th'.view == Cont(bk) && th'.seen == bk.cuts
  {
    hide Cont;
  }

  /** The read of head->next with which the present attempt of a lookup began. */
  lemma {:induction false} HeadRead(tr: seq<VS>, i: nat, t: nat) returns (j: nat)
    requires VlMachine.Run(tr) && BelowReset(tr) && i < |tr| && t < |tr[i].ths| && Sampled(tr[i].ths[t].pc)
    ensures j < i && t < |tr[j].ths| && tr[j].ths[t].pc.GHead? && tr[j].ths[t].hist == tr[i].ths[t].hist
    ensures forall m :: j < m <= i ==> t < |tr[m].ths| && Sampled(tr[m].ths[t].pc)
    ensures tr[i].ths[t].b < |tr[j].bks| && tr[i].ths[t].b < |tr[i].bks|
    ensures tr[i].ths[t].view == Cont(tr[j].bks[tr[i].ths[t].b])
    ensures tr[i].ths[t].seen == tr[j].bks[tr[i].ths[t].b].cuts
    decreases i
  {
    hide VlMachine.StepBy, VlSafety.Inv, Cont;
    assert i > 0;
    RunInv(tr, i);
    RunInv(tr, i - 1);
    var u := Stepper(tr, i - 1);
    StepSample(tr[i - 1], tr[i], u, t);
    if Sampled(tr[i - 1].ths[t].pc) {
      j := HeadRead(tr, i - 1, t);
    } else {
      j := i - 1;
    }
  }

  /**
   A lookup's answer is the answer of its bucket's list at instant j, when the validated attempt of this
   same call read head->next; all it takes is that no unlink has hit the bucket since then.
   */
  lemma UncutLookupLinearizes(tr: seq<VS>, i: nat, t: nat) returns (j: nat)
    requires VlMachine.Run(tr) && BelowReset(tr) && ReturnsAt(tr, i, t)
    requires Uncut(tr[i].bks[tr[i].ths[t].b], tr[i].ths[t])
    ensures j < i && t < |tr[j].ths| && tr[j].ths[t].hist == tr[i].ths[t].hist != [] && tr[j].ths[t].pc.GHead?
    ensures forall m :: j < m <= i ==> t < |tr[m].ths| && Sampled(tr[m].ths[t].pc)
    ensures tr[i].ths[t].b < |tr[j].bks|
    ensures tr[i + 1].ths[t].pc.res
         == A.Val(Lookup(Cont(tr[j].bks[tr[i].ths[t].b]), A.Last(tr[i].ths[t].hist).key))
  {
    hide Cont;
    ReturnFacts(tr, i, t);
    j := HeadRead(tr, i, t);
  }

  /** The same when no remove owns the bucket's lock as this lookup returns, whatever other lookups do. */
  lemma LookupLinearizes(tr: seq<VS>, i: nat, t: nat) returns (j: nat)
    requires VlMachine.Run(tr) && BelowReset(tr) && ReturnsAt(tr, i, t) && Calm(tr[i], tr[i].ths[t].b)
    ensures j < i && t < |tr[j].ths| && tr[j].ths[t].hist == tr[i].ths[t].hist != [] && tr[j].ths[t].pc.GHead?
    ensures forall m :: j < m <= i ==> t < |tr[m].ths| && Sampled(tr[m].ths[t].pc)
    ensures tr[i].ths[t].b < |tr[j].bks|
    ensures tr[i + 1].ths[t].pc.res
         == A.Val(Lookup(Cont(tr[j].bks[tr[i].ths[t].b]), A.Last(tr[i].ths[t].hist).key))
  {
    hide VlMachine.Run, BelowReset, Calm, ReturnsAt;
    CalmIsUncut(tr, i, t);
    j := UncutLookupLinearizes(tr, i, t);
  }

  /**
   Contents change at exactly two kinds of step: an insert's write of head->next puts its pair in front,
   a remove's unlink takes the newest pair of its key out.
   */
  lemma EffectPoints(tr: seq<VS>, i: nat, b: nat) returns (t: nat)
    requires VlMachine.Run(tr) && BelowReset(tr) && i + 1 < |tr| && b < |tr[i].bks|
    ensures VlMachine.StepBy(tr[i], tr[i + 1], t)
    ensures Cont(tr[i + 1].bks[b])
         == if tr[i].ths[t].b == b && tr[i].ths[t].hist != [] then Written(tr[i].bks[b], tr[i].ths[t])
            else Cont(tr[i].bks[b])
  {
    hide VlMachine.StepBy;
    t := Stepper(tr, i);
    RunInv(tr, i);
    StepEffect(tr[i], tr[i + 1], t, b);
  }

  lemma StepEffect(s: VS, s': VS, t: nat, b: nat)
    requires VlSafety.Inv(s) && VlMachine.StepBy(s, s', t) && b < |s.bks|
    ensures t < |s.ths| && |s'.bks| == |s.bks|
    ensures Cont(s'.bks[b])
         == if s.ths[t].b == b && s.ths[t].hist != [] then Written(s.bks[b], s.ths[t]) else Cont(s.bks[b])
  {
    hide BucketMove, ThOk, Linked;
    var th := s.ths[t];
    assert Placed(s, th) && ThOk(s.bks[th.b], th);
    if !(s'.bks == s.bks && CallMove(s, th, s'.ths[t])) && th.b == b {
      MoveHasCall(s.bks[b], th, s'.bks[b], s'.ths[t]);
      StepList(s.bks[b], th, s'.bks[b], s'.ths[t]);
    }
  }

  lemma MoveHasCall(bk: Bkt, th: VTh, bk': Bkt, th': VTh)
    requires BucketMove(bk, th, bk', th')
    ensures th.hist != []
  {}

  /** A step that leaves an even counter as it is leaves the bucket's list as it is. */
  lemma EvenStepKeepsList(s: VS, s': VS, t: nat, b: nat)
    requires VlSafety.Inv(s) && VlMachine.StepBy(s, s', t) && b < |s.bks|
    requires s'.bks[b].lk.version == s.bks[b].lk.version && s.bks[b].lk.version % 2 == 0
    ensures Cont(s'.bks[b]) == Cont(s.bks[b])
  {
    var th := s.ths[t];
    assert Placed(s, th) && ThOk(s.bks[th.b], th);
    if th.b == b && s'.bks != s.bks {
      LockFacts(s, t);
      StepList(s.bks[b], th, s'.bks[b], s'.ths[t]);
      SameList(s.bks[b], s'.bks[b]);
    }
  }

  lemma {:induction false} VersionsGrow(tr: seq<VS>, j: nat, i: nat, b: nat)
    requires VlMachine.Run(tr) && BelowReset(tr) && j <= i < |tr| && b < |tr[0].bks|
    ensures |tr[j].bks| == |tr[i].bks| == |tr[0].bks|
    ensures tr[j].bks[b].lk.version <= tr[i].bks[b].lk.version
  {
    hide VlMachine.StepBy, VlSafety.Inv;
    RunInv(tr, i);
    assert Below(tr[i]);
    if j < i {
      VersionsGrow(tr, j, i - 1, b);
      RunInv(tr, i - 1);
      var t := Stepper(tr, i - 1);
      StepLock(tr[i - 1], tr[i], t, b);
    }
  }

  lemma {:induction false} SameVersionSameList(tr: seq<VS>, j: nat, i: nat, b: nat)
    requires VlMachine.Run(tr) && BelowReset(tr) && j <= i < |tr|
    requires b < |tr[0].bks| && |tr[j].bks| == |tr[i].bks| == |tr[0].bks|
    requires tr[j].bks[b].lk.version == tr[i].bks[b].lk.version && tr[i].bks[b].lk.version % 2 == 0
    ensures Cont(tr[j].bks[b]) == Cont(tr[i].bks[b])
  {
    hide VlMachine.StepBy, VlSafety.Inv;
    if j < i {
      VersionsGrow(tr, j, i - 1, b);
      VersionsGrow(tr, i - 1, i, b);
      SameVersionSameList(tr, j, i - 1, b);
      RunInv(tr, i - 1);
      var t := Stepper(tr, i - 1);
      EvenStepKeepsList(tr[i - 1], tr[i], t, b);
    }
  }

  lemma EvenIsUncut(tr: seq<VS>, i: nat, t: nat)
    requires VlMachine.Run(tr) && BelowReset(tr) && ReturnsAt(tr, i, t)
    requires tr[i].ths[t].l.Reading? && tr[i].ths[t].l.snap % 2 == 0
    ensures Uncut(tr[i].bks[tr[i].ths[t].b], tr[i].ths[t])
  {
    ReturnStep(tr, i, t);
    var s, b := tr[i], tr[i].ths[t].b;
    assert CutOk(s, s.ths[t]);
    if HasCutter(s, b) {
      var u :| 0 <= u < |s.ths| && Cutter(s.ths[u], b);
      RemoverFacts(s, u);
    }
  }

  /**
   In any run, with removes and freed memory, reads of which may return anything: an attempt that
   returns on an even snapshot has read no freed node, and its answer is that of the one list its
   bucket held at every instant j since the snapshot.
   */
  lemma EvenSnapshotReadsOneList(tr: seq<VS>, i: nat, t: nat, j: nat)
    requires VlMachine.Run(tr) && BelowReset(tr) && ReturnsAt(tr, i, t)
    requires tr[i].ths[t].l.Reading? && tr[i].ths[t].l.snap % 2 == 0
    requires j <= i && t < |tr[j].ths| && tr[j].ths[t].l == tr[i].ths[t].l && tr[j].ths[t].b == tr[i].ths[t].b
    ensures !tr[i].ths[t].wild && tr[i].ths[t].b < |tr[j].bks|
    ensures tr[i].ths[t].hist != []
    ensures tr[i + 1].ths[t].pc.res
         == A.Val(Lookup(Cont(tr[j].bks[tr[i].ths[t].b]), A.Last(tr[i].ths[t].hist).key))
  {
    EvenIsUncut(tr, i, t);
    ReturnFacts(tr, i, t);
    RunInv(tr, i);
    RunInv(tr, j);
    var b := tr[i].ths[t].b;
    assert ThOk(tr[j].bks[tr[j].ths[t].b], tr[j].ths[t]);
    VersionsGrow(tr, j, i, b);
    SameVersionSameList(tr, j, i, b);
  }

  /** What a step does to the call of thread t: starts it, or leaves its identity alone. */
  lemma StepCall(s: VS, s': VS, u: nat, t: nat)
    requires VlSafety.Inv(s) && VlMachine.StepBy(s, s', u) && t < |s.ths| && !s'.ths[t].pc.Idle?
    ensures s.ths[t].pc.Idle? ==>
              && s'.ths[t].hist != [] && s.ths[t].hist == s'.ths[t].hist[..|s'.ths[t].hist| - 1]
              && s'.ths[t].b < |s.bks| && s'.ths[t].first == s.bks[s'.ths[t].b].lk.version
    ensures !s.ths[t].pc.Idle? ==>
              s'.ths[t].hist == s.ths[t].hist && s'.ths[t].b == s.ths[t].b && s'.ths[t].first == s.ths[t].first
  {
    if t == u && !s.ths[t].pc.Idle? {
      BusyKeeps(s, s', t);
    } else {
      hide VlSafety.Inv, BucketMove;
    }
  }

  /** A thread inside a call keeps its call. */
  lemma BusyKeeps(s: VS, s': VS, t: nat)
    requires VlMachine.StepBy(s, s', t) && !s.ths[t].pc.Idle?
    ensures s'.ths[t].hist == s.ths[t].hist && s'.ths[t].b == s.ths[t].b && s'.ths[t].first == s.ths[t].first
  {
    hide Cont;
  }

  lemma LookupFacts(s: VS, t: nat)
    requires VlSafety.Inv(s) && t < |s.ths|
    ensures var th := s.ths[t];
            th.b < |s.bks| && (!th.pc.Idle? && th.hist != [] && A.Last(th.hist).Get? ==>
                                 th.first + th.tries <= s.bks[th.b].lk.version)
  {
    assert Placed(s, s.ths[t]) && ThOk(s.bks[s.ths[t].b], s.ths[t]);
  }

  /**
   The retry loop: a lookup call that began after state c has failed validation at most once per
   change of its bucket's counter since then.
   */
  lemma {:induction false} RetriesPaidFor(tr: seq<VS>, i: nat, t: nat) returns (c: nat)
    requires VlMachine.Run(tr) && BelowReset(tr) && i < |tr| && t < |tr[i].ths|
    requires tr[i].ths[t].hist != [] && !tr[i].ths[t].pc.Idle? && A.Last(tr[i].ths[t].hist).Get?
    ensures c < i && t < |tr[c].ths| && tr[c].ths[t].pc.Idle?
    ensures tr[c].ths[t].hist == tr[i].ths[t].hist[..|tr[i].ths[t].hist| - 1]
    ensures forall m :: c < m <= i ==> t < |tr[m].ths| && !tr[m].ths[t].pc.Idle?
    ensures tr[i].ths[t].b < |tr[c].bks| && tr[i].ths[t].b < |tr[i].bks|
    ensures tr[i].ths[t].first == tr[c].bks[tr[i].ths[t].b].lk.version
    ensures tr[i].ths[t].tries <= tr[i].bks[tr[i].ths[t].b].lk.version - tr[c].bks[tr[i].ths[t].b].lk.version
    decreases i
  {
    hide VlMachine.StepBy, VlSafety.Inv;
    RunInv(tr, i);
    LookupFacts(tr[i], t);
    assert i > 0;
    RunInv(tr, i - 1);
    var u := Stepper(tr, i - 1);
    StepCall(tr[i - 1], tr[i], u, t);
    if tr[i - 1].ths[t].pc.Idle? {
      c := i - 1;
    } else {
      c := RetriesPaidFor(tr, i - 1, t);
    }
  }

  /**
   Until an unlink hits its bucket, a traversal walks the list it found at head->next, at instant j, and no
   more: after hops advances the nodes still ahead in memory spell exactly that list without its first
   hops pairs, none of which had the key.
   */
  lemma TraversalBounded(tr: seq<VS>, i: nat, t: nat) returns (j: nat)
    requires VlMachine.Run(tr) && BelowReset(tr) && i < |tr| && t < |tr[i].ths|
    requires Sampled(tr[i].ths[t].pc) && tr[i].ths[t].b < |tr[i].bks|
    requires Uncut(tr[i].bks[tr[i].ths[t].b], tr[i].ths[t])
    ensures j < i && t < |tr[j].ths| && tr[j].ths[t].pc.GHead? && tr[j].ths[t].hist == tr[i].ths[t].hist != []
    ensures tr[i].ths[t].b < |tr[j].bks|
    ensures tr[i].ths[t].hops <= |Cont(tr[j].bks[tr[i].ths[t].b])| && !tr[i].ths[t].wild
    ensures tr[i].ths[t].pc.GKey? ==>
              && Seg(tr[i].bks[tr[i].ths[t].b].heap, tr[i].ths[t].pc.curr,
                     Cont(tr[j].bks[tr[i].ths[t].b])[tr[i].ths[t].hops..])
              && Passed(Cont(tr[j].bks[tr[i].ths[t].b]), tr[i].ths[t].hops, A.Last(tr[i].ths[t].hist).key)
  {
    hide Cont;
    j := HeadRead(tr, i, t);
    RunInv(tr, i);
    var th := tr[i].ths[t];
    assert Placed(tr[i], th) && ThOk(tr[i].bks[th.b], th);
    hide VlMachine.Run, BelowReset, ThOk, Linked, Seg;
    StillAhead(tr[i].bks[th.b], th);
  }

  lemma StillAhead(bk: Bkt, th: VTh)
    requires Linked(bk) && ThOk(bk, th) && Sampled(th.pc) && Uncut(bk, th)
    ensures th.hops <= |th.view| && !th.wild && th.hist != []
    ensures th.pc.GKey? ==> Seg(bk.heap, th.pc.curr, th.view[th.hops..]) &&
                            Passed(th.view, th.hops, A.Last(th.hist).key)
  {
    assert ReaderOk(bk, th);
    if th.pc.GKey? {
      LinkedSeg(bk, |bk.chain| - |th.rest|);
    }
  }

  /** Without removes there are no unlinks, so the two results above hold of every lookup. */
  lemma {:induction false} InsertOnlyUncut(tr: seq<VS>, i: nat, t: nat)
    requires VlMachine.Run(tr) && BelowReset(tr) && InsertOnly(tr) && i < |tr| && t < |tr[i].ths|
    ensures tr[i].ths[t].b < |tr[i].bks|
    ensures Sampled(tr[i].ths[t].pc) ==> Uncut(tr[i].bks[tr[i].ths[t].b], tr[i].ths[t])
  {
    RunInv(tr, i);
    NoCuts(tr, i);
    assert Placed(tr[i], tr[i].ths[t]) && ThOk(tr[i].bks[tr[i].ths[t].b], tr[i].ths[t]);
  }

  lemma {:induction false} NoCuts(tr: seq<VS>, i: nat)
    requires VlMachine.Run(tr) && BelowReset(tr) && InsertOnly(tr) && i < |tr|
    ensures forall b :: 0 <= b < |tr[i].bks| ==> tr[i].bks[b].cuts == 0
  {
    hide VlMachine.StepBy, VlSafety.Inv;
    if i > 0 {
      NoCuts(tr, i - 1);
      RunInv(tr, i - 1);
      var t := Stepper(tr, i - 1);
      assert NoRemoves(tr[i - 1]);
      NoCutStep(tr[i - 1], tr[i], t);
    }
  }

  lemma NoCutStep(s: VS, s': VS, t: nat)
    requires VlSafety.Inv(s) && VlMachine.StepBy(s, s', t) && NoRemoves(s)
    ensures |s'.bks| == |s.bks| && forall b :: 0 <= b < |s.bks| ==> s'.bks[b].cuts == s.bks[b].cuts
  {
    hide BucketMove, CallMove, ThOk, Linked;
    var th := s.ths[t];
    assert Placed(s, th) && ThOk(s.bks[th.b], th);
    if !(s'.bks == s.bks && CallMove(s, th, s'.ths[t])) {
      CutsByRemoves(s.bks[th.b], th, s'.bks[th.b], s'.ths[t]);
    }
  }

  lemma CutsByRemoves(bk: Bkt, th: VTh, bk': Bkt, th': VTh)
    requires ThOk(bk, th) && BucketMove(bk, th, bk', th')
    requires th.hist != [] ==> !A.Last(th.hist).Del?
    ensures bk'.cuts == bk.cuts
  {}

  // ----- memory and counting -----

  /** Every bucket's list is always intact: following next from head ends, and spells its contents. */
  lemma ListsIntact(tr: seq<VS>, i: nat, b: nat)
    requires VlMachine.Run(tr) && BelowReset(tr) && i < |tr| && b < |tr[i].bks|
    ensures Seg(tr[i].bks[b].heap, tr[i].bks[b].head, Cont(tr[i].bks[b]))
    ensures tr[i].bks[b].lk.version == tr[i].bks[b].lk.acq + tr[i].bks[b].lk.rel
  {
    RunInv(tr, i);
    LinkedSeg(tr[i].bks[b], 0);
    assert Cont(tr[i].bks[b])[0..] == Cont(tr[i].bks[b]);
    assert LockView(tr[i], b).k.resets == 0;
  }

  /** Conservation: when every thread is idle the node count is all inserts minus all removes. */
  lemma NodeCountConserved(tr: seq<VS>, i: nat)
    requires VlMachine.Run(tr) && BelowReset(tr) && i < |tr|
    requires forall t :: 0 <= t < |tr[i].ths| ==> tr[i].ths[t].pc.Idle?
    ensures A.NodeCount(Abs(tr[i]).tab) == Sum(A.HistNets(Abs(tr[i]).ths))
  {
    WritersAreAtomic(tr);
    assert AbsRun(tr)[i] == Abs(tr[i]);
    A.NodeCountConserved(false, AbsRun(tr), i);
  }

  // ----- staying below the reset point -----

  /** Calls of this thread whose write_unlock may have started. */
  function Begun(th: VTh): int {
    |th.hist| - if th.pc.Idle? || (th.pc.WUnlock? && !th.l.Held?) then 0 else 1
  }

  ghost function AllBegun(ths: seq<VTh>): seq<int> { seq(|ths|, t requires 0 <= t < |ths| => Begun(ths[t])) }

  ghost function Calls(ths: seq<VTh>): seq<int> { seq(|ths|, t requires 0 <= t < |ths| => |ths[t].hist|) }

  lemma MoveBegun(bk: Bkt, th: VTh, bk': Bkt, th': VTh)
    requires BucketMove(bk, th, bk', th')
    ensures Begun(th) <= Begun(th') && bk'.lk.unlocks - bk.lk.unlocks <= Begun(th') - Begun(th)
  {}

  lemma StepBegun(s: VS, s': VS, t: nat, b: nat)
    requires VlMachine.StepBy(s, s', t) && b < |s.bks|
    ensures |s'.bks| == |s.bks| && Begun(s.ths[t]) <= Begun(s'.ths[t])
    ensures s'.bks[b].lk.unlocks - s.bks[b].lk.unlocks <= Begun(s'.ths[t]) - Begun(s.ths[t])
  {
    var th, th' := s.ths[t], s'.ths[t];
    hide BucketMove;
    if !(s'.bks == s.bks && CallMove(s, th, th')) {
      hide CallMove, Begun;
      MoveBegun(s.bks[th.b], th, s'.bks[th.b], th');
    }
  }

  /** No bucket has more unlocks than there have been calls. */
  lemma {:induction false} UnlocksAreCalls(tr: seq<VS>, j: nat, i: nat, b: nat)
    requires VlMachine.Run(tr) && j <= i < |tr| && b < |tr[0].bks|
    ensures |tr[j].bks| == |tr[i].bks| == |tr[0].bks| && Sum(AllBegun(tr[j].ths)) <= Sum(AllBegun(tr[i].ths))
    ensures tr[i].bks[b].lk.unlocks <= Sum(AllBegun(tr[i].ths))
    decreases i
  {
    hide VlMachine.StepBy;
    if i == 0 {
      SumConstant(AllBegun(tr[0].ths), 0);
    } else {
      UnlocksAreCalls(tr, if j < i then j else i - 1, i - 1, b);
      var t := Stepper(tr, i - 1);
      StepBegun(tr[i - 1], tr[i], t, b);
      StepSums(tr[i - 1], tr[i], t);
    }
  }

  lemma StepSums(s: VS, s': VS, t: nat)
    requires VlMachine.StepBy(s, s', t)
    ensures t < |s.ths| == |s'.ths|
    ensures Sum(AllBegun(s'.ths)) == Sum(AllBegun(s.ths)) + Begun(s'.ths[t]) - Begun(s.ths[t])
  {
    hide BucketMove, CallMove, Begun;
    SumUpdate(AllBegun(s.ths), t, Begun(s'.ths[t]));
    assert AllBegun(s'.ths) == AllBegun(s.ths)[t := Begun(s'.ths[t])];
  }

  lemma {:induction false} SumMonotone(a: seq<int>, b: seq<int>)
    requires |a| == |b| && forall i :: 0 <= i < |a| ==> a[i] <= b[i]
    ensures Sum(a) <= Sum(b)
  {
    if a != [] {
      forall i | 0 <= i < |a[1..]| ensures a[1..][i] <= b[1..][i] {
        assert a[1..][i] == a[i + 1] && b[1..][i] == b[i + 1];
      }
      SumMonotone(a[1..], b[1..]);
    }
  }

  /** A run with fewer than 2^63 - 1 calls in all never reaches the reset point. */
  lemma FewCallsStayBelow(tr: seq<VS>)
    requires VlMachine.Run(tr) && Sum(Calls(tr[|tr| - 1].ths)) < TWO63 - 1
    ensures BelowReset(tr)
  {
    hide VlMachine.StepBy;
    var last := tr[|tr| - 1];
    SumMonotone(AllBegun(last.ths), Calls(last.ths));
    forall j, b | 0 <= j < |tr| && 0 <= b < |tr[j].bks| ensures tr[j].bks[b].lk.unlocks < TWO63 - 1 {
      UnlocksAreCalls(tr, j, |tr| - 1, 0);
      UnlocksAreCalls(tr, j, j, b);
    }
  }
}
