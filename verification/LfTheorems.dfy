/** The lock-free table refines the atomic table; its progress bound and its linearizable lookup. */
module LfTheorems {
  import opened Words
  import opened Assoc
  import opened Hash
  import opened Sums
  import opened VlSafety
  import opened LfMachine
  import opened LfSafety
  import A = AtomicTable

  // ----- refinement -----

  /** Inserts take effect at the winning compare-and-swap, lookups at their last read of head->next. */
  ghost function AbsPcLf(th: LTh): A.APC {
    match th.pc
    case Ready(r) => A.Idle(r)
    case SRet => A.Committed
    case LKey(_) | LVal(_) | LNext(_) | LCheck | LRet(_) =>
      A.Got(if th.hist == [] then 0 else Lookup(th.view, A.Last(th.hist).key))
    case _ => A.Pend
  }

  ghost function AbsThLf(th: LTh): A.ATh { A.ATh(th.hist, th.b, AbsPcLf(th)) }

  ghost function AbsLf(s: LS): A.AS {
    A.AS(seq(|s.bks|, b requires 0 <= b < |s.bks| => s.bks[b].cont),
         seq(|s.ths|, t requires 0 <= t < |s.ths| => AbsThLf(s.ths[t])))
  }

  lemma InsertAbs(s: LS, th: LTh, s': LS, th': LTh, tab: seq<seq<KV>>)
    requires th.hist != [] && th.b < |s.bks| == |tab| && tab[th.b] == s.bks[th.b].cont
    requires InsertMove(s, th, s', th')
    ensures (AbsThLf(th') == AbsThLf(th) && s'.bks == s.bks) ||
            A.Move(true, tab, AbsThLf(th), tab[th.b := s'.bks[th.b].cont], AbsThLf(th'))
    ensures !Wins(th, th') ==> s'.bks == s.bks
  {
    assert tab[th.b := tab[th.b]] == tab;
  }

  lemma LookupAbs(s: LS, th: LTh, s': LS, th': LTh, tab: seq<seq<KV>>)
    requires th.hist != [] && th.b < |s.bks| == |tab| && tab[th.b] == s.bks[th.b].cont
    requires LookupMoveLf(s, th, s', th') && ReaderOkLf(s.heap, th) && PhaseLf(th)
    ensures s'.bks == s.bks && (AbsThLf(th') == AbsThLf(th) || A.Move(true, tab, AbsThLf(th), tab, AbsThLf(th')))
  {}

  lemma CallAbs(s: LS, th: LTh, s': LS, th': LTh, tab: seq<seq<KV>>)
    requires LfMachine.CallMove(s, th, s', th') && |tab| == |s.bks|
    ensures s'.bks == s.bks && A.Move(true, tab, AbsThLf(th), tab, AbsThLf(th'))
  {}

  lemma MoveAbsLf(s: LS, s': LS, t: nat)
    requires LfMachine.StepBy(s, s', t) && ThreadOkLf(s, s.ths[t])
    ensures (AbsThLf(s'.ths[t]) == AbsThLf(s.ths[t]) && AbsLf(s').tab == AbsLf(s).tab) ||
            A.Move(true, AbsLf(s).tab, AbsThLf(s.ths[t]), AbsLf(s').tab, AbsThLf(s'.ths[t]))
  {
    hide A.Move, AbsThLf, InserterOk, ViewsOk, BucketOf;
    var th, th' := s.ths[t], s'.ths[t];
    var tab, tab' := AbsLf(s).tab, AbsLf(s').tab;
    StepKinds(s, s', t);
    if LfMachine.CallMove(s, th, s', th') {
      CallAbs(s, th, s', th', tab);
      assert tab' == tab;
    } else if InsertMove(s, th, s', th') {
      InsertAbs(s, th, s', th', tab);
      assert tab' == tab[th.b := s'.bks[th.b].cont];
    } else {
      LookupAbs(s, th, s', th', tab);
      assert tab' == tab;
    }
  }

  lemma StepAbsLf(s: LS, s': LS, t: nat)
    requires LfMachine.StepBy(s, s', t) && ThreadOkLf(s, s.ths[t])
    ensures AbsLf(s') == AbsLf(s) || A.StepBy(true, AbsLf(s), AbsLf(s'), t)
  {
    hide LfMachine.InsertMove, LfMachine.LookupMoveLf, LfMachine.CallMove, ThreadOkLf, A.Move;
    MoveAbsLf(s, s', t);
    var a, a' := AbsLf(s), AbsLf(s');
    assert a'.ths == a.ths[t := AbsThLf(s'.ths[t])];
    if AbsThLf(s'.ths[t]) == AbsThLf(s.ths[t]) && a'.tab == a.tab {
      assert a' == a;
    } else {
      assert A.StepBy(true, a, a', t);
    }
  }

  lemma Stepper(tr: seq<LS>, i: nat) returns (t: nat)
    requires LfMachine.Run(tr) && i + 1 < |tr|
    ensures LfMachine.StepBy(tr[i], tr[i + 1], t)
  {
    assert LfMachine.Next(tr[i], tr[i + 1]);
    t :| LfMachine.StepBy(tr[i], tr[i + 1], t);
  }

  lemma InitInv(s: LS)
    requires LfMachine.Init(s)
    ensures LfSafety.Inv(s)
  {
    forall b | 0 <= b < |s.bks| ensures Sum(Owns(s.ths, b)) == 0 {
      SumConstant(Owns(s.ths, b), 0);
    }
  }

  lemma {:induction false} RunInv(tr: seq<LS>, i: nat)
    requires LfMachine.Run(tr) && i < |tr|
    ensures LfSafety.Inv(tr[i]) && |tr[i].bks| == |tr[0].bks| && |tr[i].ths| == |tr[0].ths|
  {
    hide LfMachine.StepBy, LfSafety.Inv;
    if i == 0 {
      InitInv(tr[0]);
    } else {
      RunInv(tr, i - 1);
      var t := Stepper(tr, i - 1);
      LfSafety.StepInv(tr[i - 1], tr[i], t);
      StepThreads(tr[i - 1], tr[i], t);
    }
  }

  lemma StepThreads(s: LS, s': LS, t: nat)
    requires LfMachine.StepBy(s, s', t)
    ensures |s'.ths| == |s.ths|
  {}

  ghost function AbsRunLf(tr: seq<LS>): seq<A.AS> { seq(|tr|, i requires 0 <= i < |tr| => AbsLf(tr[i])) }

  /** Every interleaving of lock-free inserts and lookups, tag wrap-around included, refines the atomic table. */
  lemma RefinesAtomicTable(tr: seq<LS>)
    requires LfMachine.Run(tr)
    ensures A.Run(true, AbsRunLf(tr))
  {
    hide LfMachine.StepBy;
    var ar := AbsRunLf(tr);
    forall i | 0 <= i < |ar| - 1 ensures A.Next(true, ar[i], ar[i + 1]) {
      RunInv(tr, i);
      var t := Stepper(tr, i);
      StepperInRange(tr[i], tr[i + 1], t);
      StepAbsLf(tr[i], tr[i + 1], t);
    }
  }

  lemma StepperInRange(s: LS, s': LS, t: nat)
    requires LfMachine.StepBy(s, s', t) && LfSafety.Inv(s)
    ensures t < |s.ths| && ThreadOkLf(s, s.ths[t])
  {}

  /**
   In every state the chain from head is finite and spells the committed inserts, newest first, with
   none lost, and the tag is their number modulo 2^64.
   */
  lemma ChainIsCommits(tr: seq<LS>, i: nat, b: nat)
    requires LfMachine.Run(tr) && i < |tr| && b < |tr[i].bks|
    ensures Seg(tr[i].heap, tr[i].bks[b].next, tr[i].bks[b].cont)
    ensures tr[i].bks[b].tag == |tr[i].bks[b].cont| % TWO64
    ensures i + 1 < |tr| ==> |tr[i + 1].bks| == |tr[i].bks| && Suffix(tr[i].bks[b].cont, tr[i + 1].bks[b].cont)
  {
    hide LfMachine.StepBy;
    RunInv(tr, i);
    assert ListOk(tr[i].heap, tr[i].bks[b]);
    if i + 1 < |tr| {
      var t := Stepper(tr, i);
      LfSafety.StepInv(tr[i], tr[i + 1], t);
    }
  }

  /** The only step that samples a bucket is the read of head->next. */
  lemma SampleIsHeadRead(s: LS, s': LS, u: nat, t: nat)
    requires LfMachine.StepBy(s, s', u) && t < |s.ths|
    requires AbsPcLf(s.ths[t]).Pend? && AbsPcLf(s'.ths[t]).Got?
    ensures s.ths[t].pc.LHead?
  {}

  /**
   A lookup's answer is the answer of its bucket's list at instant j, its last read of head->next in
   this same call.
   */
  lemma LookupLinearizes(tr: seq<LS>, i: nat, t: nat) returns (j: nat)
    requires LfMachine.Run(tr) && i < |tr| && t < |tr[i].ths| && tr[i].ths[t].pc.LRet?
    ensures j < i && t < |tr[j].ths| && tr[j].ths[t].hist == tr[i].ths[t].hist != [] && tr[j].ths[t].pc.LHead?
    ensures forall m :: j < m <= i ==> t < |tr[m].ths| && !tr[m].ths[t].pc.LHead?
    ensures tr[i].ths[t].b < |tr[j].bks|
    ensures tr[i].ths[t].pc.val == Lookup(tr[j].bks[tr[i].ths[t].b].cont, A.Last(tr[i].ths[t].hist).key)
  {
    hide LfMachine.StepBy, A.Run;
    RefinesAtomicTable(tr);
    RunInv(tr, i);
    assert ThreadOkLf(tr[i], tr[i].ths[t]);
    hide LfSafety.Inv, ThreadOkLf;
    var ar := AbsRunLf(tr);
    assert ar[i].ths[t] == AbsThLf(tr[i].ths[t]);
    j := A.LookupInstant(true, ar, i, t);
    assert ar[j] == AbsLf(tr[j]);
    assert ar[j].ths[t] == AbsThLf(tr[j].ths[t]);
    forall m | j < m <= i ensures t < |tr[m].ths| && AbsPcLf(tr[m].ths[t]).Got? {
      assert ar[m].ths[t] == AbsThLf(tr[m].ths[t]);
    }
    var u := Stepper(tr, j);
    SampleIsHeadRead(tr[j], tr[j + 1], u, t);
  }

  predicate SampledLf(pc: LPc) { Walking(pc) || pc.LRet? }

  lemma StepSampleLf(s: LS, s': LS, u: nat, t: nat)
    requires LfMachine.StepBy(s, s', u) && t < |s.ths| && SampledLf(s'.ths[t].pc) && s.ths[t].b < |s.bks|
    ensures s'.ths[t].hist == s.ths[t].hist && s'.ths[t].b == s.ths[t].b
    ensures if SampledLf(s.ths[t].pc) then s'.ths[t].view == s.ths[t].view
            else s.ths[t].pc.LHead? && s'.ths[t].view == s.bks[s.ths[t].b].cont
  {}

  /** The last read of head->next of a lookup. */
  lemma {:induction false} HeadReadLf(tr: seq<LS>, i: nat, t: nat) returns (j: nat)
    requires LfMachine.Run(tr) && i < |tr| && t < |tr[i].ths| && SampledLf(tr[i].ths[t].pc)
    ensures j < i && t < |tr[j].ths| && tr[j].ths[t].pc.LHead? && tr[j].ths[t].hist == tr[i].ths[t].hist
    ensures tr[i].ths[t].b < |tr[j].bks| && tr[i].ths[t].view == tr[j].bks[tr[i].ths[t].b].cont
    decreases i
  {
    hide LfMachine.StepBy, LfSafety.Inv;
    assert i > 0;
    RunInv(tr, i - 1);
    RunInv(tr, i);
    var u := Stepper(tr, i - 1);
    assert ThreadOkLf(tr[i - 1], tr[i - 1].ths[t]) by { ThreadFacts(tr[i - 1], t); }
    StepSampleLf(tr[i - 1], tr[i], u, t);
    if SampledLf(tr[i - 1].ths[t].pc) {
      j := HeadReadLf(tr, i - 1, t);
    } else {
      j := i - 1;
    }
  }

  lemma ThreadFacts(s: LS, t: nat)
    requires LfSafety.Inv(s) && t < |s.ths|
    ensures ThreadOkLf(s, s.ths[t])
  {}

  /**
   A traversal, of either lookup, walks the list as it was at its last read of head->next, at instant j, and no
   more, however many inserts have committed since: after hops advances the nodes still ahead in memory
   spell exactly that list without its first hops pairs, none of which had the key.
   */
  lemma TraversalBounded(tr: seq<LS>, i: nat, t: nat) returns (j: nat)
    requires LfMachine.Run(tr) && i < |tr| && t < |tr[i].ths| && SampledLf(tr[i].ths[t].pc)
    ensures j < i && t < |tr[j].ths| && tr[j].ths[t].pc.LHead? && tr[j].ths[t].hist == tr[i].ths[t].hist != []
    ensures tr[i].ths[t].b < |tr[j].bks|
    ensures tr[i].ths[t].hops <= |tr[j].bks[tr[i].ths[t].b].cont|
    ensures tr[i].ths[t].pc.LKey? ==>
              && Seg(tr[i].heap, tr[i].ths[t].pc.curr, tr[j].bks[tr[i].ths[t].b].cont[tr[i].ths[t].hops..])
              && Passed(tr[j].bks[tr[i].ths[t].b].cont, tr[i].ths[t].hops, A.Last(tr[i].ths[t].hist).key)
  {
    hide LfSafety.Inv, LfMachine.StepBy;
    j := HeadReadLf(tr, i, t);
    RunInv(tr, i);
    ThreadFacts(tr[i], t);
  }

  // ----- progress -----

  /** A step of thread t from its compare-and-swap after which its list has not grown. */
  ghost predicate CasFails(s: LS, s': LS, t: nat) {
    && LfMachine.StepBy(s, s', t) && s.ths[t].pc.SCas? && s.ths[t].b < |s.bks| && s.ths[t].b < |s'.bks|
    && |s'.bks[s.ths[t].b].cont| == |s.bks[s.ths[t].b].cont|
  }

  /** Step i is a failed compare-and-swap of thread t. */
  ghost predicate FailsAt(tr: seq<LS>, i: nat, t: nat) {
    i + 1 < |tr| && CasFails(tr[i], tr[i + 1], t)
  }

  /** Failed compare-and-swaps of thread t on list b in the first i steps. */
  ghost function Failures(tr: seq<LS>, t: nat, b: nat, i: nat): nat {
    if i == 0 then 0
    else Failures(tr, t, b, i - 1) + if FailsAt(tr, i - 1, t) && tr[i - 1].ths[t].b == b then 1 else 0
  }

  /** The same for every thread of the run. */
  ghost function AllFailures(tr: seq<LS>, b: nat, i: nat): seq<int>
    requires i < |tr|
  {
    seq(|tr[i].ths|, t requires 0 <= t < |tr[i].ths| => Failures(tr, t, b, i))
  }

  lemma StepAttempt(s: LS, s': LS, u: nat, t: nat)
    requires LfMachine.StepBy(s, s', u) && t < |s.ths| && (s'.ths[t].pc.SNext? || s'.ths[t].pc.SCas?)
    ensures s.ths[t].pc.STag? ==>
              s.ths[t].b < |s.bks| && s'.ths[t].len == |s.bks[s.ths[t].b].cont|
    ensures !s.ths[t].pc.STag? ==> s'.ths[t].len == s.ths[t].len && (s.ths[t].pc.SNext? || s.ths[t].pc.SCas?)
    ensures s'.ths[t].b == s.ths[t].b && s'.ths[t].own == s.ths[t].own
  {}

  /** The tag read that began an attempt, and what the list was then. */
  lemma {:induction false} AttemptStart(tr: seq<LS>, i: nat, t: nat) returns (j: nat)
    requires LfMachine.Run(tr) && i < |tr| && t < |tr[i].ths|
    requires tr[i].ths[t].pc.SNext? || tr[i].ths[t].pc.SCas?
    ensures j < i && t < |tr[j].ths| && tr[j].ths[t].pc.STag?
    ensures tr[j].ths[t].b == tr[i].ths[t].b < |tr[j].bks| && tr[j].ths[t].own == tr[i].ths[t].own
    ensures tr[i].ths[t].len == |tr[j].bks[tr[i].ths[t].b].cont|
    ensures forall m :: j < m <= i ==> t < |tr[m].ths| && (tr[m].ths[t].pc.SNext? || tr[m].ths[t].pc.SCas?)
    decreases i
  {
    hide LfMachine.StepBy, LfSafety.Inv;
    RunInv(tr, i);
    assert i > 0;
    RunInv(tr, i - 1);
    var u := Stepper(tr, i - 1);
    StepAttempt(tr[i - 1], tr[i], u, t);
    if tr[i - 1].ths[t].pc.STag? {
      j := i - 1;
    } else {
      j := AttemptStart(tr, i - 1, t);
    }
  }

  /** What a step from the compare-and-swap does: it wins and the list grows, or it fails and is counted. */
  lemma CasStep(s: LS, s': LS, t: nat)
    requires LfSafety.Inv(s) && LfMachine.StepBy(s, s', t) && s.ths[t].pc.SCas?
    ensures t < |s.ths| && s.ths[t].b < |s.bks| == |s'.bks| && s'.ths[t] != s.ths[t]
    ensures if CasFails(s, s', t)
            then s'.ths[t].fails == Bump(s.ths[t].fails, s.ths[t].b) && |s.bks[s.ths[t].b].cont| > s.ths[t].len
            else s'.ths[t].fails == s.ths[t].fails && |s'.bks[s.ths[t].b].cont| == |s.bks[s.ths[t].b].cont| + 1
  {
    ThreadFacts(s, t);
    hide LfSafety.Inv, ReaderOkLf, ViewsOk, BucketOf, Seg;
  }

  /**
   A compare-and-swap fails only if another insert committed to the same list since this attempt read
   the tag: the list is longer than at the read j, and this thread has committed nothing in between.
   */
  lemma FailureMeansCommit(tr: seq<LS>, i: nat, t: nat) returns (j: nat)
    requires LfMachine.Run(tr) && FailsAt(tr, i, t)
    ensures j < i && t < |tr[j].ths| && tr[j].ths[t].pc.STag? && tr[j].ths[t].own == tr[i].ths[t].own
    ensures tr[i].ths[t].b < |tr[j].bks| && tr[i].ths[t].b < |tr[i].bks|
    ensures |tr[i].bks[tr[i].ths[t].b].cont| > |tr[j].bks[tr[i].ths[t].b].cont|
    ensures forall m :: j < m <= i ==> t < |tr[m].ths| && (tr[m].ths[t].pc.SNext? || tr[m].ths[t].pc.SCas?)
  {
    hide LfMachine.StepBy, LfSafety.Inv;
    RunInv(tr, i);
    CasStep(tr[i], tr[i + 1], t);
    j := AttemptStart(tr, i, t);
  }

  lemma {:induction false} SumPairs(a: seq<int>, b: seq<int>, bound: int)
    requires |a| == |b| && forall i :: 0 <= i < |a| ==> a[i] + b[i] <= bound
    ensures Sum(a) + Sum(b) <= |a| * bound
  {
    if a != [] {
      forall i | 0 <= i < |a[1..]| ensures a[1..][i] + b[1..][i] <= bound {
        assert a[1..][i] == a[i + 1] && b[1..][i] == b[i + 1];
      }
      SumPairs(a[1..], b[1..], bound);
    }
  }

  /** The history field fails counts the failures of the trace. */
  lemma StepFailures(s: LS, s': LS, u: nat, t: nat, b: nat)
    requires LfSafety.Inv(s) && LfMachine.StepBy(s, s', u) && t < |s.ths| && b < |s.bks|
    ensures At(s'.ths[t].fails, b)
         == At(s.ths[t].fails, b) + if CasFails(s, s', t) && s.ths[t].b == b then 1 else 0
  {
    if s.ths[t].pc.SCas? && LfMachine.StepBy(s, s', t) {
      CasStep(s, s', t);
      FieldSizes(s, t);
      hide LfSafety.Inv, LfMachine.InsertMove, LfMachine.LookupMoveLf, LfMachine.CallMove;
    } else if t == u {
      OtherStepsKeepFails(s, s', t);
    }
  }

  lemma FieldSizes(s: LS, t: nat)
    requires LfSafety.Inv(s) && t < |s.ths|
    ensures |s.ths[t].fails| == |s.bks|
  {
    ThreadFacts(s, t);
  }

  lemma OtherStepsKeepFails(s: LS, s': LS, t: nat)
    requires LfMachine.StepBy(s, s', t) && !s.ths[t].pc.SCas?
    ensures s'.ths[t].fails == s.ths[t].fails
  {}

  lemma {:induction false} FailuresCounted(tr: seq<LS>, t: nat, b: nat, i: nat)
    requires LfMachine.Run(tr) && i < |tr| && t < |tr[i].ths| && b < |tr[i].bks|
    ensures Failures(tr, t, b, i) == At(tr[i].ths[t].fails, b)
  {
    hide LfMachine.StepBy, LfSafety.Inv;
    RunInv(tr, i);
    if i > 0 {
      RunInv(tr, i - 1);
      FailuresCounted(tr, t, b, i - 1);
      var u := Stepper(tr, i - 1);
      StepFailures(tr[i - 1], tr[i], u, t, b);
    }
  }

  /**
   Lock-freedom with a bound: over any run of N threads the compare-and-swaps of all threads after which their
   list has not grown number, on each list, at most N - 1 times the nodes of the list.
   */
  lemma FailuresBounded(tr: seq<LS>, i: nat, b: nat)
    requires LfMachine.Run(tr) && i < |tr| && |tr[i].ths| > 0 && b < |tr[i].bks|
    ensures Sum(AllFailures(tr, b, i)) <= (|tr[i].ths| - 1) * |tr[i].bks[b].cont|
  {
    hide LfMachine.StepBy, LfSafety.Inv, Failures;
    RunInv(tr, i);
    var s := tr[i];
    var n, c := |s.ths|, |s.bks[b].cont|;
    forall t | 0 <= t < n ensures Failures(tr, t, b, i) == At(s.ths[t].fails, b) {
      FailuresCounted(tr, t, b, i);
    }
    assert AllFailures(tr, b, i) == Fails(s.ths, b);
    PaidFor(s, b);
    SumPairs(Fails(s.ths, b), Owns(s.ths, b), c);
    assert n * c - c == (n - 1) * c;
  }

  lemma PaidFor(s: LS, b: nat)
    requires LfSafety.Inv(s) && b < |s.bks|
    ensures |s.bks[b].cont| == Sum(Owns(s.ths, b))
    ensures forall t :: 0 <= t < |s.ths| ==> At(s.ths[t].fails, b) + At(s.ths[t].own, b) <= |s.bks[b].cont|
  {
    forall t | 0 <= t < |s.ths| ensures At(s.ths[t].fails, b) + At(s.ths[t].own, b) <= |s.bks[b].cont| {
      assert ThreadOkLf(s, s.ths[t]);
    }
  }

  // ----- the linearizable lookup -----

  lemma {:induction false} ListsGrow(tr: seq<LS>, j: nat, i: nat, b: nat)
    requires LfMachine.Run(tr) && j <= i < |tr| && b < |tr[0].bks|
    ensures |tr[j].bks| == |tr[i].bks| == |tr[0].bks|
    ensures Suffix(tr[j].bks[b].cont, tr[i].bks[b].cont)
  {
    hide LfMachine.StepBy, LfSafety.Inv;
    RunInv(tr, i);
    if j < i {
      ListsGrow(tr, j, i - 1, b);
      ChainIsCommits(tr, i - 1, b);
      SuffixTrans(tr[j].bks[b].cont, tr[i - 1].bks[b].cont, tr[i].bks[b].cont);
    }
  }

  /** The call has read init_tag and has not left the do-while loop. */
  predicate InLoop(th: LTh) { th.lin && (th.pc.LHead? || Walking(th.pc)) }

  /** Both instants belong to the same call, and init_tag has been read by both. */
  ghost predicate SameCall(tr: seq<LS>, j: nat, i: nat, t: nat) {
    && j <= i < |tr| && t < |tr[j].ths| && t < |tr[i].ths|
    && tr[j].ths[t].hist == tr[i].ths[t].hist && InLoop(tr[j].ths[t]) && InLoop(tr[i].ths[t])
  }

  /** Only steps of a lookup lead into its loop. */
  lemma IntoLoop(s: LS, s': LS, u: nat)
    requires LfMachine.StepBy(s, s', u) && InLoop(s'.ths[u])
    ensures s.ths[u].hist != [] && s.ths[u].b < |s.bks| && LookupMoveLf(s, s.ths[u], s', s'.ths[u])
  {
    hide LookupMoveLf;
  }

  lemma MoveMark(s: LS, th: LTh, s': LS, th': LTh)
    requires th.hist != [] && th.b < |s.bks| && LookupMoveLf(s, th, s', th') && InLoop(th')
    ensures th.hist == th'.hist && th.b == th'.b
    ensures InLoop(th) || (th.pc.LTag? && th'.pc.LHead? && th'.mark == s.bks[th.b].cont)
    ensures InLoop(th) ==> th.mark == th'.mark && th.init == th'.init
  {}

  lemma StepMark(s: LS, s': LS, u: nat, t: nat)
    requires LfMachine.StepBy(s, s', u) && LfSafety.Inv(s) && t < |s.ths| && InLoop(s'.ths[t])
    ensures s.ths[t].hist == s'.ths[t].hist && s.ths[t].b == s'.ths[t].b < |s.bks|
    ensures InLoop(s.ths[t]) || (s.ths[t].pc.LTag? && s'.ths[t].pc.LHead? && s'.ths[t].mark == s.bks[s.ths[t].b].cont)
    ensures InLoop(s.ths[t]) ==> s.ths[t].mark == s'.ths[t].mark && s.ths[t].init == s'.ths[t].init
  {
    assert s.ths[t].b < |s.bks| by { ThreadFacts(s, t); }
    hide LfSafety.Inv, InsertMove, LookupMoveLf, LfMachine.CallMove;
    if u == t {
      IntoLoop(s, s', u);
      MoveMark(s, s.ths[t], s', s'.ths[t]);
    }
  }

  lemma StepHist(s: LS, s': LS, u: nat, t: nat)
    requires LfMachine.StepBy(s, s', u) && t < |s.ths|
    ensures s.ths[t].hist <= s'.ths[t].hist
  {}

  lemma {:induction false} HistsGrow(tr: seq<LS>, j: nat, i: nat, t: nat)
    requires LfMachine.Run(tr) && j <= i < |tr| && t < |tr[0].ths|
    ensures |tr[j].ths| == |tr[i].ths| == |tr[0].ths| && tr[j].ths[t].hist <= tr[i].ths[t].hist
  {
    hide LfMachine.StepBy, LfSafety.Inv;
    RunInv(tr, i);
    if j < i {
      HistsGrow(tr, j, i - 1, t);
      var u := Stepper(tr, i - 1);
      StepHist(tr[i - 1], tr[i], u, t);
    }
  }

  /** init_tag is never read again within a call. */
  lemma {:induction false} MarkFixed(tr: seq<LS>, j: nat, i: nat, t: nat)
    requires LfMachine.Run(tr) && SameCall(tr, j, i, t)
    ensures tr[j].ths[t].mark == tr[i].ths[t].mark && tr[j].ths[t].init == tr[i].ths[t].init
    ensures tr[j].ths[t].b == tr[i].ths[t].b
    decreases i
  {
    hide LfMachine.StepBy, LfSafety.Inv;
    if j < i {
      RunInv(tr, j);
      RunInv(tr, i);
      RunInv(tr, i - 1);
      HistsGrow(tr, j, i - 1, t);
      HistsGrow(tr, i - 1, i, t);
      var u := Stepper(tr, i - 1);
      StepMark(tr[i - 1], tr[i], u, t);
      if InLoop(tr[i - 1].ths[t]) {
        MarkFixed(tr, j, i - 1, t);
      } else {
        NoReturnToTag(tr, j, i - 1, t);
      }
    }
  }

  lemma StepOutOfLoop(s: LS, s': LS, u: nat, t: nat)
    requires LfMachine.StepBy(s, s', u) && t < |s.ths| && s.ths[t].hist == s'.ths[t].hist
    ensures s'.ths[t].pc.LTag? ==> s.ths[t].pc.LTag?
  {}

  /** Once past the tag read, a call is never before it again. */
  lemma {:induction false} NoReturnToTag(tr: seq<LS>, j: nat, i: nat, t: nat)
    requires LfMachine.Run(tr) && j <= i < |tr| && t < |tr[j].ths| && t < |tr[i].ths|
    requires tr[j].ths[t].hist == tr[i].ths[t].hist && !tr[j].ths[t].pc.LTag?
    ensures !tr[i].ths[t].pc.LTag?
    decreases i
  {
    hide LfMachine.StepBy, LfSafety.Inv;
    if j < i {
      RunInv(tr, j);
      RunInv(tr, i);
      HistsGrow(tr, j, i - 1, t);
      HistsGrow(tr, i - 1, i, t);
      var u := Stepper(tr, i - 1);
      StepOutOfLoop(tr[i - 1], tr[i], u, t);
      NoReturnToTag(tr, j, i - 1, t);
    }
  }

  lemma LoopFacts(s: LS, t: nat)
    requires LfSafety.Inv(s) && t < |s.ths| && InLoop(s.ths[t])
    ensures var th := s.ths[t];
            && th.b < |s.bks| && th.hist != [] && Suffix(th.mark, s.bks[th.b].cont)
            && th.init == |th.mark| % TWO64 && s.bks[th.b].tag == |s.bks[th.b].cont| % TWO64
            && (th.pc.LCheck? ==> !HasKey(th.view, A.Last(th.hist).key) &&
                                  Suffix(th.mark, th.view) && Suffix(th.view, s.bks[th.b].cont))
  {
    assert ThreadOkLf(s, s.ths[t]);
    assert ListOk(s.heap, s.bks[s.ths[t].b]);
  }

  /**
   A miss, below tag wrap: if the check at i finds the first tag again, then at every instant j of the
   call since that tag was read the list was the same, and the key was not in it.
   */
  lemma MissMeansAbsentThroughout(tr: seq<LS>, j: nat, i: nat, t: nat)
    requires LfMachine.Run(tr) && SameCall(tr, j, i, t) && tr[i].ths[t].pc.LCheck?
    requires tr[i].ths[t].b < |tr[i].bks| && |tr[i].bks[tr[i].ths[t].b].cont| < TWO64
    requires tr[i].bks[tr[i].ths[t].b].tag == tr[i].ths[t].init
    ensures tr[i].ths[t].b < |tr[j].bks| && tr[i].ths[t].hist != []
    ensures tr[j].bks[tr[i].ths[t].b].cont == tr[i].bks[tr[i].ths[t].b].cont
    ensures !HasKey(tr[j].bks[tr[i].ths[t].b].cont, A.Last(tr[i].ths[t].hist).key)
  {
    hide LfMachine.StepBy, LfSafety.Inv;
    RunInv(tr, i);
    RunInv(tr, j);
    MarkFixed(tr, j, i, t);
    LoopFacts(tr[i], t);
    LoopFacts(tr[j], t);
    ListsGrow(tr, j, i, tr[i].ths[t].b);
    hide LfMachine.Run, LfMachine.Next, SameCall, Suffix;
    var th, cont := tr[i].ths[t], tr[i].bks[tr[i].ths[t].b].cont;
    TagsTell(th.mark, cont);
    Squeezed(th.mark, th.view, cont);
    Squeezed(th.mark, tr[j].bks[th.b].cont, cont);
  }

  /**
   init_tag is never read again: once the list has grown past it, below wrap, no later check of the
   call can succeed, so the call can end only by finding its key.
   */
  lemma MovedTagNeverMatches(tr: seq<LS>, j: nat, i: nat, t: nat)
    requires LfMachine.Run(tr) && SameCall(tr, j, i, t) && tr[j].ths[t].b < |tr[j].bks|
    requires tr[j].bks[tr[j].ths[t].b].tag != tr[j].ths[t].init
    requires tr[i].ths[t].b < |tr[i].bks| && |tr[i].bks[tr[i].ths[t].b].cont| < TWO64
    ensures tr[i].bks[tr[i].ths[t].b].tag != tr[i].ths[t].init
    ensures i + 1 < |tr| && t < |tr[i + 1].ths| && tr[i + 1].ths[t].pc.LRet? ==> tr[i].ths[t].pc.LVal?
  {
    hide LfMachine.StepBy, LfSafety.Inv;
    RunInv(tr, i);
    RunInv(tr, j);
    MarkFixed(tr, j, i, t);
    LoopFacts(tr[i], t);
    LoopFacts(tr[j], t);
    ListsGrow(tr, j, i, tr[i].ths[t].b);
    if i + 1 < |tr| {
      var u := Stepper(tr, i);
      StepExit(tr[i], tr[i + 1], u, t);
    }
  }

  /** Step r is the call's read of init_tag. */
  ghost predicate TagReadAt(tr: seq<LS>, r: nat, t: nat) {
    r + 1 < |tr| && t < |tr[r].ths| && t < |tr[r + 1].ths| && tr[r].ths[t].pc.LTag? && tr[r + 1].ths[t].pc.LHead?
  }

  lemma {:induction false} InitRead(tr: seq<LS>, i: nat, t: nat) returns (r: nat)
    requires LfMachine.Run(tr) && i < |tr| && t < |tr[i].ths| && InLoop(tr[i].ths[t])
    ensures r < i && TagReadAt(tr, r, t) && SameCall(tr, r + 1, i, t)
    ensures tr[r].ths[t].hist == tr[i].ths[t].hist && tr[r].ths[t].b == tr[i].ths[t].b < |tr[r].bks|
    ensures tr[r + 1].ths[t].mark == tr[r].bks[tr[i].ths[t].b].cont
    decreases i
  {
    hide LfMachine.StepBy, LfSafety.Inv;
    assert i > 0;
    RunInv(tr, i - 1);
    RunInv(tr, i);
    var u := Stepper(tr, i - 1);
    StepMark(tr[i - 1], tr[i], u, t);
    if InLoop(tr[i - 1].ths[t]) {
      r := InitRead(tr, i - 1, t);
    } else {
      r := i - 1;
    }
  }

  /**
   The check at i, exactly: it lets the call report a miss if and only if the number of inserts into the
   list since r, when this call read init_tag, is a multiple of 2^64; below tag wrap that is, if and
   only if the list is the one it was at r. Otherwise the call goes round again.
   */
  lemma MissExactly(tr: seq<LS>, i: nat, t: nat) returns (r: nat)
    requires LfMachine.Run(tr) && i + 1 < |tr| && t < |tr[i].ths| && tr[i].ths[t].lin && tr[i].ths[t].pc.LCheck?
    requires LfMachine.StepBy(tr[i], tr[i + 1], t) && tr[i].ths[t].b < |tr[i].bks|
    ensures r < i && TagReadAt(tr, r, t) && tr[r].ths[t].hist == tr[i].ths[t].hist
    ensures tr[i].ths[t].b < |tr[r].bks| && Suffix(tr[r].bks[tr[i].ths[t].b].cont, tr[i].bks[tr[i].ths[t].b].cont)
    ensures tr[i + 1].ths[t].pc == LRet(UINT64_MAX)
       <==> (|tr[i].bks[tr[i].ths[t].b].cont| - |tr[r].bks[tr[i].ths[t].b].cont|) % TWO64 == 0
    ensures |tr[i].bks[tr[i].ths[t].b].cont| < TWO64 ==>
              (tr[i + 1].ths[t].pc == LRet(UINT64_MAX)
               <==> tr[i].bks[tr[i].ths[t].b].cont == tr[r].bks[tr[i].ths[t].b].cont)
    ensures tr[i + 1].ths[t].pc == LRet(UINT64_MAX) || tr[i + 1].ths[t].pc == LHead
  {
    hide LfMachine.StepBy, LfSafety.Inv;
    RunInv(tr, i);
    CheckTells(tr[i], tr[i + 1], t);
    r := InitRead(tr, i, t);
    MarkFixed(tr, r + 1, i, t);
  }

  /** The check, against the list as it was when init_tag was read. */
  lemma CheckTells(s: LS, s': LS, t: nat)
    requires LfSafety.Inv(s) && LfMachine.StepBy(s, s', t) && s.ths[t].lin && s.ths[t].pc.LCheck?
    ensures var mark, pc' := s.ths[t].mark, s'.ths[t].pc;
            && s.ths[t].b < |s.bks| && Suffix(mark, s.bks[s.ths[t].b].cont)
            && (pc' == LRet(UINT64_MAX) <==> (|s.bks[s.ths[t].b].cont| - |mark|) % TWO64 == 0)
            && (|s.bks[s.ths[t].b].cont| < TWO64 ==> (pc' == LRet(UINT64_MAX) <==> s.bks[s.ths[t].b].cont == mark))
            && (pc' == LRet(UINT64_MAX) || pc' == LHead)
  {
    LoopFacts(s, t);
    StepCheck(s, s', t);
    hide LfSafety.Inv, LfMachine.StepBy, Suffix;
    TagsTell(s.ths[t].mark, s.bks[s.ths[t].b].cont);
  }

  /** A list that has only grown has its old tag when it has grown by a multiple of 2^64. */
  lemma TagsTell(mark: seq<KV>, cont: seq<KV>)
    requires Suffix(mark, cont)
    ensures |cont| % TWO64 == |mark| % TWO64 <==> (|cont| - |mark|) % TWO64 == 0
    ensures |cont| < TWO64 ==> (|cont| % TWO64 == |mark| % TWO64 <==> cont == mark)
  {}

  lemma Squeezed(mark: seq<KV>, mid: seq<KV>, cont: seq<KV>)
    requires Suffix(mark, mid) && Suffix(mid, cont) && mark == cont
    ensures mid == cont
  {}

  lemma StepCheck(s: LS, s': LS, t: nat)
    requires LfMachine.StepBy(s, s', t) && s.ths[t].pc.LCheck? && s.ths[t].b < |s.bks|
    ensures s'.ths[t].pc == if s.bks[s.ths[t].b].tag != s.ths[t].init then LHead else LRet(UINT64_MAX)
  {}

  lemma StepExit(s: LS, s': LS, u: nat, t: nat)
    requires LfMachine.StepBy(s, s', u) && t < |s.ths| && InLoop(s.ths[t])
    ensures s'.ths[t].pc.LRet? ==>
              s.ths[t].pc.LVal? ||
              (s.ths[t].pc.LCheck? && s.ths[t].b < |s.bks| && s.bks[s.ths[t].b].tag == s.ths[t].init)
  {
    hide LfMachine.InsertMove;
    if u == t {
      assert !LfMachine.InsertMove(s, s.ths[t], s', s'.ths[t]) by { NoInsert(s, s', t); }
    }
  }

  lemma NoInsert(s: LS, s': LS, t: nat)
    requires t < |s.ths| && t < |s'.ths| && s.ths[t].hist != [] && s.ths[t].b < |s.bks| && InLoop(s.ths[t])
    ensures !LfMachine.InsertMove(s, s.ths[t], s', s'.ths[t])
  {}
}
