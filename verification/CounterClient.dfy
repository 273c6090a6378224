/**
 test_version_lock_write of test.cc: threads that increment a plain shared counter under the
 version lock. The increment is a load and a store; every access is a separate step.
 */
module CounterClient {
  import opened Words
  import opened LockMachine
  import opened Sums

  datatype Phase = Want | Load | Store | Unlock

  datatype Writer = Writer(l: LPC, phase: Phase, tmp: u64, i: nat)

  datatype CS = CS(k: Lk, counter: u64, ws: seq<Writer>)

  ghost predicate Init(s: CS) {
    s.k == Free && s.counter == 0 &&
    forall t :: 0 <= t < |s.ws| ==> s.ws[t].l == Out && s.ws[t].phase == Want && s.ws[t].i == 0
  }

  /** Runs one step of a writer that performs itrs iterations. */
  function Step(k: Lk, counter: u64, w: Writer, itrs: nat): (Lk, u64, Writer) {
    match w.phase
    case Want =>
      if w.i >= itrs then (k, counter, w)
      else if w.l.Cas? then
        var (k', l') := TryCas(k, w.l.ver);
        (k', counter, w.(l := l', phase := if l'.Held? then Load else Want))
      else (k, counter, w.(l := LoadForWrite(k)))
    case Load => (k, counter, w.(tmp := counter, phase := Store))
    case Store => (k, (w.tmp + 1) % 0x1_0000_0000_0000_0000, w.(phase := Unlock))
    case Unlock =>
      var (k', l') := if w.l.Rel? then Release(AsWritten, k, w.l.ver)
                      else if w.l.Faa? then Increment(k)
                      else LoadForRelease(k);
      if l'.Out? then (k', counter, w.(l := l', phase := Want, i := w.i + 1))
      else (k', counter, w.(l := l'))
  }

  ghost predicate Next(itrs: nat, s: CS, s': CS) {
    exists t: nat :: StepBy(itrs, s, s', t)
  }

  ghost predicate StepBy(itrs: nat, s: CS, s': CS, t: nat) {
    t < |s.ws| && var (k', c', w') := Step(s.k, s.counter, s.ws[t], itrs); s' == CS(k', c', s.ws[t := w'])
  }

  ghost predicate Run(itrs: nat, tr: seq<CS>) {
    |tr| > 0 && Init(tr[0]) && forall i :: 0 <= i < |tr| - 1 ==> Next(itrs, tr[i], tr[i + 1])
  }

  // ----- the client as a run of the lock -----

  ghost function View(s: CS): LS { LS(s.k, seq(|s.ws|, t requires 0 <= t < |s.ws| => s.ws[t].l)) }

  /** Increments this writer has stored, and unlocks it has started. */
  function Stored(w: Writer): int { w.i + if w.phase.Unlock? then 1 else 0 }
  function Unlocked(w: Writer): int { w.i + if w.l.Rel? || w.l.Faa? then 1 else 0 }

  ghost function AllStored(ws: seq<Writer>): seq<int> { seq(|ws|, t requires 0 <= t < |ws| => Stored(ws[t])) }
  ghost function AllUnlocked(ws: seq<Writer>): seq<int> { seq(|ws|, t requires 0 <= t < |ws| => Unlocked(ws[t])) }

  ghost predicate WriterOk(itrs: nat, s: CS, w: Writer) {
    && (w.phase.Want? ==> (w.l.Out? || w.l.Cas?) && w.i <= itrs)
    && (!w.phase.Want? ==> Holding(w.l) && w.i < itrs)
    && (w.phase.Load? || w.phase.Store? ==> w.l.Held?)
    && (w.phase.Store? ==> w.tmp == s.counter)
  }

  ghost predicate CInv(itrs: nat, s: CS) {
    && |s.ws| * itrs < TWO63 - 1
    && LockMachine.Inv(AsWritten, View(s))
    && s.k.unlocks == Sum(AllUnlocked(s.ws))
    && s.counter == Sum(AllStored(s.ws))
    && forall t :: 0 <= t < |s.ws| ==> WriterOk(itrs, s, s.ws[t])
  }

  lemma UnlocksBounded(itrs: nat, ws: seq<Writer>)
    requires forall t :: 0 <= t < |ws| ==> Unlocked(ws[t]) <= itrs && Stored(ws[t]) <= itrs
    ensures Sum(AllUnlocked(ws)) <= |ws| * itrs
    ensures Sum(AllStored(ws)) <= |ws| * itrs
  {
    SumBound(AllUnlocked(ws), itrs);
    SumBound(AllStored(ws), itrs);
  }

  /** A step of the client moves the lock as the lock allows, or leaves it alone. */
  lemma StepView(itrs: nat, s: CS, s': CS, t: nat)
    requires StepBy(itrs, s, s', t) && WriterOk(itrs, s, s.ws[t])
    requires s.ws[t].l.Rel? ==> s.ws[t].l.ver % 2 == 1
    ensures LockMachine.Next(AsWritten, View(s), View(s'))
  {
    var v, v' := View(s), View(s');
    assert v'.pcs == v.pcs[t := s'.ws[t].l];
    if v' != v {
      assert LockMachine.StepBy(AsWritten, v, v', t);
    }
  }

  /** The writer's own counts move with the shared ones; only the owner of the lock touches the counter. */
  lemma StepLocal(itrs: nat, s: CS, s': CS, t: nat)
    requires StepBy(itrs, s, s', t) && WriterOk(itrs, s, s.ws[t]) && s.counter < TWO63
    requires s.ws[t].l.Rel? ==> s.ws[t].l.ver != TOP
    requires !s.ws[t].l.Faa?
    ensures WriterOk(itrs, s', s'.ws[t])
    ensures s'.counter - s.counter == Stored(s'.ws[t]) - Stored(s.ws[t])
    ensures s'.k.unlocks - s.k.unlocks == Unlocked(s'.ws[t]) - Unlocked(s.ws[t])
    ensures s'.counter != s.counter ==> Holding(s.ws[t].l)
  {}

  /** Below the bound no reset has happened, so the lock's invariant holds in full. */
  lemma OwnerFacts(itrs: nat, s: CS, t: nat)
    requires CInv(itrs, s) && t < |s.ws|
    ensures s.k.unlocks < TWO63 - 1 && s.counter < TWO63
    ensures s.ws[t].l.Rel? ==> s.ws[t].l.ver % 2 == 1 && s.ws[t].l.ver != TOP
    ensures !s.ws[t].l.Faa?
    ensures forall u :: 0 <= u < |s.ws| && u != t && Holding(s.ws[t].l) ==> !Holding(s.ws[u].l)
  {
    forall u | 0 <= u < |s.ws| ensures Unlocked(s.ws[u]) <= itrs && Stored(s.ws[u]) <= itrs {
      assert WriterOk(itrs, s, s.ws[u]);
    }
    UnlocksBounded(itrs, s.ws);
    var v := View(s);
    assert v.pcs[t] == s.ws[t].l && LocalOk(v.k, v.pcs[t]) && CountedAt(v.k, v.pcs[t]);
    forall u | 0 <= u < |s.ws| && u != t && Holding(s.ws[t].l) ensures !Holding(s.ws[u].l) {
      assert v.pcs[u] == s.ws[u].l;
    }
  }

  lemma StepInv(itrs: nat, s: CS, s': CS)
    requires CInv(itrs, s) && Next(itrs, s, s')
    ensures CInv(itrs, s') && |s'.ws| == |s.ws|
  {
    hide Step, LockMachine.Inv;
    var t: nat :| StepBy(itrs, s, s', t);
    OwnerFacts(itrs, s, t);
    StepView(itrs, s, s', t);
    LockMachine.StepInv(AsWritten, View(s), View(s'));
    StepLocal(itrs, s, s', t);
    SumUpdate(AllStored(s.ws), t, Stored(s'.ws[t]));
    SumUpdate(AllUnlocked(s.ws), t, Unlocked(s'.ws[t]));
    assert AllStored(s'.ws) == AllStored(s.ws)[t := Stored(s'.ws[t])];
    assert AllUnlocked(s'.ws) == AllUnlocked(s.ws)[t := Unlocked(s'.ws[t])];
    forall u | 0 <= u < |s'.ws| ensures WriterOk(itrs, s', s'.ws[u]) {
      assert WriterOk(itrs, s, s.ws[u]);
    }
  }

  lemma InitInv(itrs: nat, s: CS)
    requires Init(s) && |s.ws| * itrs < TWO63 - 1
    ensures CInv(itrs, s)
  {
    SumConstant(AllStored(s.ws), 0);
    SumConstant(AllUnlocked(s.ws), 0);
  }

  lemma {:induction false} RunInv(itrs: nat, tr: seq<CS>, i: nat)
    requires Run(itrs, tr) && i < |tr| && |tr[0].ws| * itrs < TWO63 - 1
    ensures CInv(itrs, tr[i]) && |tr[i].ws| == |tr[0].ws|
  {
    if i == 0 {
      InitInv(itrs, tr[0]);
    } else {
      RunInv(itrs, tr, i - 1);
      assert Next(itrs, tr[i - 1], tr[i - 1 + 1]);
      StepInv(itrs, tr[i - 1], tr[i]);
    }
  }

  // ----- where the writers come to rest -----

  /** Nobody can move any more; a writer that finds the lock held spins, and does not move either. */
  ghost predicate AtRest(itrs: nat, s: CS) {
    forall t :: 0 <= t < |s.ws| ==> Step(s.k, s.counter, s.ws[t], itrs) == (s.k, s.counter, s.ws[t])
  }

  ghost predicate AllDone(itrs: nat, s: CS) {
    forall t :: 0 <= t < |s.ws| ==> s.ws[t].i == itrs
  }

  lemma WriterMoves(itrs: nat, s: CS, w: Writer)
    requires WriterOk(itrs, s, w) && Step(s.k, s.counter, w, itrs) == (s.k, s.counter, w)
    requires w.l.Rel? ==> w.l.ver != TOP
    requires !w.l.Faa?
    ensures !Holding(w.l) && w.phase.Want?
    ensures w.i < itrs ==> s.k.version % 2 == 1
  {}

  /** The writers come to rest exactly when all have done all their iterations. */
  lemma RestMeansDone(itrs: nat, s: CS)
    requires CInv(itrs, s)
    ensures AtRest(itrs, s) <==> AllDone(itrs, s)
  {
    hide Step;
    if AtRest(itrs, s) {
      forall t | 0 <= t < |s.ws| ensures s.ws[t].i == itrs && !Holding(s.ws[t].l) {
        forall u | 0 <= u < |s.ws|
          ensures !Holding(s.ws[u].l) && s.ws[u].phase.Want? && (s.ws[u].i < itrs ==> s.k.version % 2 == 1)
        {
          OwnerFacts(itrs, s, u);
          WriterMoves(itrs, s, s.ws[u]);
        }
        NobodyHolds(itrs, s);
        assert WriterOk(itrs, s, s.ws[t]);
      }
    }
    if AllDone(itrs, s) {
      forall t | 0 <= t < |s.ws| ensures Step(s.k, s.counter, s.ws[t], itrs) == (s.k, s.counter, s.ws[t]) {
        assert WriterOk(itrs, s, s.ws[t]);
        DoneStays(s.k, s.counter, s.ws[t], itrs);
      }
    }
  }

  lemma DoneStays(k: Lk, counter: u64, w: Writer, itrs: nat)
    requires w.phase.Want? && w.i >= itrs
    ensures Step(k, counter, w, itrs) == (k, counter, w)
  {}

  lemma NobodyHolds(itrs: nat, s: CS)
    requires CInv(itrs, s) && |s.ws| > 0 && forall t :: 0 <= t < |s.ws| ==> !Holding(s.ws[t].l)
    ensures s.k.version % 2 == 0
  {
    OwnerFacts(itrs, s, 0);
    var v := View(s);
    assert forall t :: 0 <= t < |v.pcs| ==> !Holding(v.pcs[t]);
  }

  // ----- a writer left alone -----

  /** n steps of one writer with nobody else moving. */
  function Alone(k: Lk, counter: u64, w: Writer, itrs: nat, n: nat): (Lk, u64, Writer)
    decreases n
  {
    if n == 0 then (k, counter, w)
    else
      var (k', counter', w') := Step(k, counter, w, itrs);
      Alone(k', counter', w', itrs, n - 1)
  }

  function StepsLeft(k: Lk, w: Writer): nat {
    match w.phase
    case Want => if w.l.Cas? then if w.l.ver == k.version then 5 else 7 else 6
    case Load => 4
    case Store => 3
    case Unlock => if w.l.Rel? then 1 else 2
  }

  /** The lock and the writer are as they can be while the lock is free or this writer's. */
  ghost predicate MayWork(k: Lk, counter: u64, w: Writer) {
    && counter + (if w.phase.Unlock? then 0 else 1) < TWO64 && k.version < TOP
    && (w.phase.Want? ==> k.version % 2 == 0 && (w.l.Out? || w.l.Cas?) && k.version + 1 < TOP)
    && (!w.phase.Want? ==> k.version % 2 == 1 && (w.l.Held? || (w.phase.Unlock? && w.l == Rel(k.version))))
    && (w.phase.Store? ==> w.tmp == counter)
  }

  lemma {:induction false} AloneIterates(k: Lk, counter: u64, w: Writer, itrs: nat)
    requires MayWork(k, counter, w) && w.i < itrs
    ensures var (k', counter', w') := Alone(k, counter, w, itrs, StepsLeft(k, w));
            && w'.i == w.i + 1 && w'.phase.Want? && w'.l.Out? && k'.version % 2 == 0
            && counter' == counter + if w.phase.Unlock? then 0 else 1
    decreases StepsLeft(k, w)
  {
    var (k', counter', w') := Step(k, counter, w, itrs);
    if StepsLeft(k, w) > 1 {
      AloneStep(k, counter, w, itrs);
      hide Step, MayWork;
      AloneIterates(k', counter', w', itrs);
    } else {
      assert Alone(k', counter', w', itrs, 0) == (k', counter', w');
    }
  }

  lemma AloneStep(k: Lk, counter: u64, w: Writer, itrs: nat)
    requires MayWork(k, counter, w) && w.i < itrs && StepsLeft(k, w) > 1
    ensures var (k', counter', w') := Step(k, counter, w, itrs);
            && MayWork(k', counter', w') && w'.i == w.i && StepsLeft(k', w') == StepsLeft(k, w) - 1
            && counter' == counter + (if w'.phase.Unlock? && !w.phase.Unlock? then 1 else 0)
            && (w.phase.Unlock? ==> w'.phase.Unlock?)
  {}

  /**
   In every reachable state, a writer with iterations left that owns the lock, or finds it free, completes
   its iteration within seven of its own steps if left alone, and adds one to the counter.
   */
  lemma WriterProgresses(itrs: nat, tr: seq<CS>, i: nat, t: nat)
    requires Run(itrs, tr) && i < |tr| && |tr[0].ws| * itrs < TWO63 - 1 && t < |tr[i].ws| && tr[i].ws[t].i < itrs
    requires tr[i].k.version % 2 == 0 || Holding(tr[i].ws[t].l)
    ensures var w := tr[i].ws[t];
            var (k', counter', w') := Alone(tr[i].k, tr[i].counter, w, itrs, StepsLeft(tr[i].k, w));
            && StepsLeft(tr[i].k, w) <= 7 && w'.i == w.i + 1 && k'.version % 2 == 0
            && counter' == tr[i].counter + if w.phase.Unlock? then 0 else 1
  {
    RunInv(itrs, tr, i);
    CanWork(itrs, tr[i], t);
    AloneIterates(tr[i].k, tr[i].counter, tr[i].ws[t], itrs);
  }

  lemma CanWork(itrs: nat, s: CS, t: nat)
    requires CInv(itrs, s) && t < |s.ws| && s.ws[t].i < itrs
    requires s.k.version % 2 == 0 || Holding(s.ws[t].l)
    ensures MayWork(s.k, s.counter, s.ws[t])
  {
    OwnerFacts(itrs, s, t);
    if !s.ws[t].l.Rel? { SpareUnlock(itrs, s, t); }
    var v := View(s);
    assert v.pcs[t] == s.ws[t].l && LocalOk(v.k, v.pcs[t]) && CountedAt(v.k, v.pcs[t]);
    assert WriterOk(itrs, s, s.ws[t]);
  }

  /** A writer with an iteration left has an unlock to spare. */
  lemma SpareUnlock(itrs: nat, s: CS, t: nat)
    requires CInv(itrs, s) && t < |s.ws| && s.ws[t].i < itrs && !s.ws[t].l.Rel? && !s.ws[t].l.Faa?
    ensures s.k.unlocks < TWO63 - 2
  {
    var all := AllUnlocked(s.ws);
    var more := all[t := all[t] + 1];
    forall u | 0 <= u < |more| ensures more[u] <= itrs {
      assert WriterOk(itrs, s, s.ws[u]);
    }
    SumBound(more, itrs);
    SumUpdate(all, t, all[t] + 1);
  }

  /** No lost updates: when nobody can move any more, the counter is threads times iterations. */
  lemma NoLostUpdatesAtRest(itrs: nat, tr: seq<CS>, i: nat)
    requires Run(itrs, tr) && i < |tr| && |tr[0].ws| * itrs < TWO63 - 1 && AtRest(itrs, tr[i])
    ensures AllDone(itrs, tr[i]) && tr[i].counter == |tr[0].ws| * itrs
  {
    RunInv(itrs, tr, i);
    RestMeansDone(itrs, tr[i]);
    NoLostUpdates(itrs, tr, i);
  }

  /** No lost updates: when every writer has finished, the counter is threads times iterations. */
  lemma NoLostUpdates(itrs: nat, tr: seq<CS>, i: nat)
    requires Run(itrs, tr) && i < |tr| && |tr[0].ws| * itrs < TWO63 - 1
    requires AllDone(itrs, tr[i])
    ensures tr[i].counter == |tr[0].ws| * itrs
  {
    RunInv(itrs, tr, i);
    var s := tr[i];
    forall t | 0 <= t < |s.ws| ensures AllStored(s.ws)[t] == itrs {
      assert WriterOk(itrs, s, s.ws[t]);
    }
    SumConstant(AllStored(s.ws), itrs);
  }
}
