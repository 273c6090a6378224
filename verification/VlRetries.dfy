/**
 The retry loop of lookup in the version-locked table: failed validations counted on the trace, memory with
 nothing lost in it, and lookups that finish from wherever an unlink has left them.
 */
module VlRetries {
  import opened VlMachine
  import opened VlSafety
  import opened VlTheorems
  import opened VlProgress
  import A = AtomicTable

  // ----- retries -----

  /** Step m is a failed validation of thread t: a step from the check that does not return. */
  ghost predicate RetryAt(tr: seq<VS>, m: nat, t: nat) {
    m + 1 < |tr| && VlMachine.StepBy(tr[m], tr[m + 1], t) && tr[m].ths[t].pc.GCheck? && !tr[m + 1].ths[t].pc.Idle?
  }

  /** Failed validations of thread t at the steps from c up to i. */
  ghost function Retries(tr: seq<VS>, t: nat, c: nat, i: nat): nat
    requires c <= i
    decreases i - c
  {
    if c == i then 0 else Retries(tr, t, c, i - 1) + if RetryAt(tr, i - 1, t) then 1 else 0
  }

  /** The history field tries counts them. */
  lemma StepTries(s: VS, s': VS, u: nat, t: nat)
    requires VlSafety.Inv(s) && VlMachine.StepBy(s, s', u) && t < |s.ths| && !s'.ths[t].pc.Idle?
    ensures s.ths[t].pc.Idle? ==> s'.ths[t].tries == 0
    ensures !s.ths[t].pc.Idle? ==>
              s'.ths[t].tries == s.ths[t].tries +
                if VlMachine.StepBy(s, s', t) && s.ths[t].pc.GCheck? then 1 else 0
  {
    assert Placed(s, s.ths[t]) && ThOk(s.bks[s.ths[t].b], s.ths[t]);
    hide VlSafety.Inv, ThOk, Linked, CallMove, LockingMove, WriteMove, Cont;
    if t == u {
      if s.ths[t].pc.Idle? {
        IdleCalls(s, s', t);
        CallFresh(s, s.ths[t], s'.ths[t]);
      } else {
        BusyMoves(s, s', t);
        MoveTries(s.bks[s.ths[t].b], s.ths[t], s'.bks[s.ths[t].b], s'.ths[t]);
      }
    } else if VlMachine.StepBy(s, s', t) && s.ths[t].pc.GCheck? {
      CheckMoves(s, s', t);
    }
  }

  lemma CallFresh(s: VS, th: VTh, th': VTh)
    requires CallMove(s, th, th')
    ensures th'.tries == 0
  {}

  lemma BusyMoves(s: VS, s': VS, t: nat)
    requires VlMachine.StepBy(s, s', t) && !s.ths[t].pc.Idle?
    ensures s.ths[t].b < |s.bks| == |s'.bks| && BucketMove(s.bks[s.ths[t].b], s.ths[t], s'.bks[s.ths[t].b], s'.ths[t])
  {
    hide BucketMove;
  }

  lemma MoveTries(bk: Bkt, th: VTh, bk': Bkt, th': VTh)
    requires BucketMove(bk, th, bk', th') && !th'.pc.Idle?
    ensures th'.tries == th.tries + if th.pc.GCheck? then 1 else 0
  {}

  /** A step from the check changes its thread. */
  lemma CheckMoves(s: VS, s': VS, t: nat)
    requires VlMachine.StepBy(s, s', t) && s.ths[t].pc.GCheck?
    ensures s'.ths[t] != s.ths[t]
  {}

  /**
   The retry loop, counted on the trace: a lookup call that began at the step from c has failed validation at
   most once per change of its bucket's counter since then.
   */
  lemma {:induction false} RetriesBounded(tr: seq<VS>, i: nat, t: nat) returns (c: nat)
    requires VlMachine.Run(tr) && VlTheorems.BelowReset(tr) && i < |tr| && t < |tr[i].ths|
    requires tr[i].ths[t].hist != [] && !tr[i].ths[t].pc.Idle? && A.Last(tr[i].ths[t].hist).Get?
    ensures c < i && t < |tr[c].ths| && tr[c].ths[t].pc.Idle?
    ensures tr[c].ths[t].hist == tr[i].ths[t].hist[..|tr[i].ths[t].hist| - 1]
    ensures tr[i].ths[t].b < |tr[c].bks| && tr[i].ths[t].b < |tr[i].bks|
    ensures Retries(tr, t, c, i) <= tr[i].bks[tr[i].ths[t].b].lk.version - tr[c].bks[tr[i].ths[t].b].lk.version
  {
    hide VlMachine.Run, VlTheorems.BelowReset, Retries;
    c := RetriesPaidFor(tr, i, t);
    TriesAreRetries(tr, c, i, t);
  }

  lemma {:induction false} TriesAreRetries(tr: seq<VS>, c: nat, i: nat, t: nat)
    requires VlMachine.Run(tr) && VlTheorems.BelowReset(tr) && c < i < |tr| && t < |tr[c].ths| && t < |tr[i].ths|
    requires tr[c].ths[t].pc.Idle? && forall m :: c < m <= i ==> t < |tr[m].ths| && !tr[m].ths[t].pc.Idle?
    ensures Retries(tr, t, c, i) == tr[i].ths[t].tries
    decreases i
  {
    hide VlMachine.StepBy, VlSafety.Inv;
    VlTheorems.RunInv(tr, i - 1);
    var u := Stepper(tr, i - 1);
    if i - 1 > c {
      TriesAreRetries(tr, c, i - 1, t);
    } else {
      assert Retries(tr, t, c, c) == 0;
    }
    StepTries(tr[i - 1], tr[i], u, t);
  }

  // ----- nothing is lost in memory -----

  /** Address a is a node of the list of bucket b, or about to be freed by a remove. */
  ghost predicate Accounted(s: VS, b: nat, a: nat)
    requires b < |s.bks|
  {
    a in s.bks[b].chain || exists t :: 0 <= t < |s.ths| && s.ths[t].b == b && s.ths[t].pc == DFree(a)
  }

  ghost predicate NoJunk(s: VS) {
    forall b: nat, a: nat | b < |s.bks| && a in s.bks[b].heap :: Accounted(s, b, a)
  }

  lemma MoveJunk(bk: Bkt, th: VTh, bk': Bkt, th': VTh, a: nat)
    requires th.hist != [] ==> WriterOk(bk, th)
    requires Phase(th) && BucketMove(bk, th, bk', th') && a in bk'.heap
    ensures a in bk.heap || a in bk'.chain
    ensures a in bk.chain ==> a in bk'.chain || th'.pc == DFree(a)
    ensures th.pc != DFree(a) && th'.b == th.b
  {
    if th.pc.DUnlink? && th.hist != [] && a in bk.chain {
      var i :| 0 <= i < |bk.chain| && bk.chain[i] == a;
      if i != th.at {
        assert bk'.chain[if i < th.at then i else i - 1] == a;
      }
    }
  }

  /** A step that leaves bucket b alone leaves its nodes accounted for. */
  lemma AccountedByOthers(s: VS, s': VS, t: nat, b: nat, a: nat)
    requires t < |s.ths| == |s'.ths| && s'.ths == s.ths[t := s'.ths[t]] && b < |s.bks| == |s'.bks|
    requires s'.bks[b] == s.bks[b] && Accounted(s, b, a) && (s.ths[t].pc.Idle? || s.ths[t].b != b)
    ensures Accounted(s', b, a)
  {
    if a !in s.bks[b].chain {
      var x :| 0 <= x < |s.ths| && s.ths[x].b == b && s.ths[x].pc == DFree(a);
      assert s'.ths[x].pc == DFree(a) && s'.ths[x].b == b;
    }
  }

  lemma AccountedHere(s: VS, s': VS, t: nat, b: nat, a: nat)
    requires t < |s.ths| == |s'.ths| && s'.ths == s.ths[t := s'.ths[t]] && b < |s.bks| == |s'.bks|
    requires s.ths[t].b == s'.ths[t].b == b && s.ths[t].pc != DFree(a)
    requires if a in s.bks[b].heap then Accounted(s, b, a) else a in s'.bks[b].chain
    requires a in s.bks[b].chain ==> a in s'.bks[b].chain || s'.ths[t].pc == DFree(a)
    ensures Accounted(s', b, a)
  {
    if a !in s'.bks[b].chain && a !in s.bks[b].chain {
      var x :| 0 <= x < |s.ths| && s.ths[x].b == b && s.ths[x].pc == DFree(a);
      assert s'.ths[x].pc == DFree(a) && s'.ths[x].b == b;
    }
  }

  lemma StepNoJunk(s: VS, s': VS, t: nat)
    requires VlSafety.Inv(s) && VlMachine.StepBy(s, s', t) && NoJunk(s)
    ensures NoJunk(s')
  {
    assert Placed(s, s.ths[t]) && ThOk(s.bks[s.ths[t].b], s.ths[t]);
    hide VlSafety.Inv, BucketMove, Accounted, WriterOk, Phase;
    forall b: nat, a: nat | b < |s'.bks| && a in s'.bks[b].heap ensures Accounted(s', b, a) {
      if s'.bks == s.bks && CallMove(s, s.ths[t], s'.ths[t]) {
        assert Accounted(s, b, a);
        AccountedByOthers(s, s', t, b, a);
      } else if s.ths[t].b == b {
        MoveJunk(s.bks[b], s.ths[t], s'.bks[b], s'.ths[t], a);
        assert a in s.bks[b].heap ==> Accounted(s, b, a);
        AccountedHere(s, s', t, b, a);
      } else {
        assert Accounted(s, b, a);
        AccountedByOthers(s, s', t, b, a);
      }
    }
  }

  /** In every state every allocated node of a bucket is in its list, or is the one some remove is about to free. */
  lemma {:induction false} NoLeak(tr: seq<VS>, i: nat)
    requires VlMachine.Run(tr) && VlTheorems.BelowReset(tr) && i < |tr|
    ensures NoJunk(tr[i])
  {
    hide VlMachine.StepBy, VlSafety.Inv;
    if i > 0 {
      hide NoJunk;
      NoLeak(tr, i - 1);
      VlTheorems.RunInv(tr, i - 1);
      var t := Stepper(tr, i - 1);
      StepNoJunk(tr[i - 1], tr[i], t);
    }
  }

  // ----- a lookup finishes from anywhere -----

  /** Every node of the bucket is in its list. */
  ghost predicate Clean(bk: Bkt) { forall a :: a in bk.heap ==> a in bk.chain }

  lemma FreeIsClean(s: VS, b: nat)
    requires VlSafety.Inv(s) && NoJunk(s) && b < |s.bks| && s.bks[b].lk.version % 2 == 0
    ensures Clean(s.bks[b])
  {
    forall a | a in s.bks[b].heap ensures a in s.bks[b].chain {
      assert Accounted(s, b, a);
      if a !in s.bks[b].chain {
        var x :| 0 <= x < |s.ths| && s.ths[x].b == b && s.ths[x].pc == DFree(a);
        assert ThOk(s.bks[b], s.ths[x]);
        LockFacts(s, x);
      }
    }
  }

  predicate Looking(pc: PC) { pc.GSnap? || pc.GHead? || Sampled(pc) }

  /** Where an attempt, perhaps overtaken, is: off the memory, or at position p of the list as it is now. */
  ghost predicate Astray(bk: Bkt, pc: PC, p: nat) {
    (pc.GKey? || pc.GVal? || pc.GNext?) && pc.curr in bk.heap ==> p < |bk.chain| && bk.chain[p] == pc.curr
  }

  function DriftRank(pc: PC): nat {
    match pc
    case GKey(_) => 2
    case GNext(_) => 1
    case GVal(_) => 1
    case _ => 0
  }

  lemma DriftMove(bk: Bkt, th: VTh, th': VTh, p: nat) returns (p': nat)
    requires Linked(bk) && Clean(bk) && th.hist != [] && LookupMove(bk, th, bk, th') && Astray(bk, th.pc, p)
    requires th.pc.GKey? || th.pc.GVal? || th.pc.GNext?
    requires th.pc.curr !in bk.heap ==> if th.pc.GKey? then th'.pc.GVal? else th'.pc.GCheck?
    ensures Astray(bk, th'.pc, p') && Sampled(th'.pc)
    ensures (p' == p && DriftRank(th'.pc) < DriftRank(th.pc)) || p < p' < |bk.chain|
  {
    p' := p;
    if th.pc.GNext? && th'.pc.GKey? {
      assert LinkAt(bk, p);
      p' := p + 1;
      assert LinkAt(bk, p');
    }
  }

  lemma LookupStays(s: VS, s': VS, t: nat)
    requires VlSafety.Inv(s) && VlMachine.StepBy(s, s', t) && Looking(s.ths[t].pc)
    ensures s'.bks == s.bks && s'.ths[t].b == s.ths[t].b < |s.bks| && s'.ths[t].hist == s.ths[t].hist != []
    ensures LookupMove(s.bks[s.ths[t].b], s.ths[t], s.bks[s.ths[t].b], s'.ths[t])
    ensures VlSafety.Inv(s') && Below(s) && t < |s'.ths|
  {
    assert Placed(s, s.ths[t]) && ThOk(s.bks[s.ths[t].b], s.ths[t]);
    LooksOn(s, s', t);
    VlSafety.StepInv(s, s', t);
  }

  lemma LooksOn(s: VS, s': VS, t: nat)
    requires VlMachine.StepBy(s, s', t) && Looking(s.ths[t].pc) && s.ths[t].b < |s.bks| && s.ths[t].hist != []
    ensures s'.bks == s.bks && LookupMove(s.bks[s.ths[t].b], s.ths[t], s.bks[s.ths[t].b], s'.ths[t])
    ensures s'.ths[t].b == s.ths[t].b && s'.ths[t].hist == s.ths[t].hist
  {
    hide Cont;
  }

  /** Two runs of the same thread alone, one after the other. */
  lemma Chain(s: VS, first: seq<VS>, rest: seq<VS>, t: nat) returns (tr: seq<VS>)
    requires Solo(s, first, t) && Solo(first[|first| - 1], rest, t)
    ensures Solo(s, tr, t) && tr == first + rest[1..] && tr[|tr| - 1] == rest[|rest| - 1]
    ensures |tr| == |first| + |rest| - 1
  {
    hide VlMachine.StepBy, Below;
    tr := first + rest[1..];
    forall i | 0 <= i < |tr| - 1 ensures VlMachine.StepBy(tr[i], tr[i + 1], t) {
      if i + 1 < |first| {
        assert VlMachine.StepBy(first[i], first[i + 1], t);
      } else {
        assert VlMachine.StepBy(rest[i + 1 - |first|], rest[i + 1 - |first| + 1], t);
      }
    }
  }

  /** Wherever an attempt is, the thread alone can come to its check. */
  lemma {:induction false} LookupDrifts(s: VS, t: nat, p: nat) returns (tr: seq<VS>)
    requires VlSafety.Inv(s) && t < |s.ths| && Sampled(s.ths[t].pc) && s.ths[t].b < |s.bks|
    requires Clean(s.bks[s.ths[t].b]) && Astray(s.bks[s.ths[t].b], s.ths[t].pc, p)
    ensures Solo(s, tr, t)
    ensures var last := tr[|tr| - 1];
            && VlSafety.Inv(last) && last.bks == s.bks && t < |last.ths| && last.ths[t].pc.GCheck?
            && last.ths[t].b == s.ths[t].b && last.ths[t].hist == s.ths[t].hist
    decreases |s.bks[s.ths[t].b].chain| - p, DriftRank(s.ths[t].pc)
  {
    assert Below(s) && Linked(s.bks[s.ths[t].b]) && s.ths[t].hist != [] by {
      assert ThOk(s.bks[s.ths[t].b], s.ths[t]);
    }
    hide VlMachine.StepBy, VlSafety.Inv, Linked, LookupMove, Below;
    if s.ths[t].pc.GCheck? {
      tr := [s];
    } else {
      var s' := AnyStep(s, t);
      LookupStays(s, s', t);
      var p' := DriftMove(s.bks[s.ths[t].b], s.ths[t], s'.ths[t], p);
      var rest := LookupDrifts(s', t, p');
      tr := Prepend(s, s', rest, t);
    }
  }

  /** From its check, a lookup either is on track, or can go back to its start. */
  lemma CheckRestarts(s: VS, t: nat) returns (tr: seq<VS>)
    requires VlSafety.Inv(s) && t < |s.ths| && s.ths[t].pc.GCheck? && s.ths[t].b < |s.bks|
    requires s.bks[s.ths[t].b].lk.version % 2 == 0
    ensures Solo(s, tr, t)
    ensures var last := tr[|tr| - 1];
            && VlSafety.Inv(last) && last.bks == s.bks && Going(last, t) && Looking(last.ths[t].pc)
            && last.ths[t].b == s.ths[t].b && last.ths[t].hist == s.ths[t].hist
  {
    var b := s.ths[t].b;
    assert Below(s) && s.ths[t].hist != [] by { assert ThOk(s.bks[b], s.ths[t]); }
    if Uncut(s.bks[b], s.ths[t]) {
      tr := [s];
    } else {
      StaleCheck(s, t);
      hide VlMachine.StepBy, VlSafety.Inv, Below;
      var s' := AnyStep(s, t);
      LookupStays(s, s', t);
      tr := [s, s'];
    }
  }

  lemma StaleCheck(s: VS, t: nat)
    requires VlSafety.Inv(s) && t < |s.ths| && s.ths[t].pc.GCheck? && s.ths[t].b < |s.bks|
    requires s.bks[s.ths[t].b].lk.version % 2 == 0 && !Uncut(s.bks[s.ths[t].b], s.ths[t])
    ensures !Current(s.bks[s.ths[t].b], s.ths[t])
  {
    assert CutOk(s, s.ths[t]);
    if HasCutter(s, s.ths[t].b) {
      var x :| 0 <= x < |s.ths| && Cutter(s.ths[x], s.ths[t].b);
      RemoverFacts(s, x);
    }
  }

  /** A lookup left anywhere by an unlink can get back on track. */
  lemma LookupResumes(s: VS, t: nat) returns (tr: seq<VS>)
    requires VlSafety.Inv(s) && NoJunk(s) && t < |s.ths| && Looking(s.ths[t].pc) && s.ths[t].b < |s.bks|
    requires s.bks[s.ths[t].b].lk.version % 2 == 0
    ensures Solo(s, tr, t)
    ensures var last := tr[|tr| - 1];
            && VlSafety.Inv(last) && last.bks == s.bks && Going(last, t) && Looking(last.ths[t].pc)
            && last.ths[t].b == s.ths[t].b && last.ths[t].hist == s.ths[t].hist
  {
    var b := s.ths[t].b;
    FreeIsClean(s, b);
    LookingFacts(s, t);
    hide VlSafety.Inv, NoJunk, OnTrack, VlMachine.StepBy, Below, Todo;
    if Sampled(s.ths[t].pc) {
      var p := Somewhere(s.bks[b], s.ths[t].pc);
      var drift := LookupDrifts(s, t, p);
      var more := CheckRestarts(drift[|drift| - 1], t);
      tr := Chain(s, drift, more, t);
    } else {
      tr := [s];
      StartOnTrack(s.bks[b], s.ths[t]);
    }
  }

  /**
   From every state that satisfies the invariant, with nothing lost in memory and the bucket's counter even, a
   lookup, wherever earlier steps of others have left it, has a run in which only its thread moves that
   validates and returns. What it reads of freed memory on the way is up to the memory, hence "has a run".
   */
  lemma LookupCanReturn(s: VS, t: nat) returns (tr: seq<VS>, i: nat)
    requires VlSafety.Inv(s) && NoJunk(s) && t < |s.ths| && Looking(s.ths[t].pc) && s.ths[t].b < |s.bks|
    requires s.bks[s.ths[t].b].lk.version % 2 == 0
    ensures Solo(s, tr, t) && ReturnsAt(tr, i, t) && i + 2 == |tr| && tr[i].ths[t].hist == s.ths[t].hist
  {
    var mid := LookupResumes(s, t);
    var m := mid[|mid| - 1];
    LookingFacts(m, t);
    var rest := AloneReturns(m, t);
    tr := Chain(s, mid, rest, t);
    i := |tr| - 2;
    var n := |rest| - 2;
    assert |rest| > 1 && VlMachine.StepBy(rest[n], rest[n + 1], t);
    assert tr[i] == rest[n] && tr[i + 1] == rest[n + 1];
    hide VlSafety.Inv, NoJunk, VlMachine.StepBy, Below, Todo, Solo, OnTrack;
    LastStep(rest[n], rest[n + 1], t);
  }

  lemma LookingFacts(s: VS, t: nat)
    requires VlSafety.Inv(s) && t < |s.ths| && Looking(s.ths[t].pc) && s.ths[t].b < |s.bks|
    ensures Below(s) && s.ths[t].hist != [] && A.Last(s.ths[t].hist).Get? && Room(s, t) && !Stopped(s.ths[t])
  {
    assert ThOk(s.bks[s.ths[t].b], s.ths[t]);
  }

  lemma StartOnTrack(bk: Bkt, th: VTh)
    requires th.pc.GSnap? || th.pc.GHead?
    ensures OnTrack(bk, th) && !Stopped(th)
  {}

  lemma Somewhere(bk: Bkt, pc: PC) returns (p: nat)
    requires Clean(bk)
    ensures Astray(bk, pc, p) && p <= |bk.chain|
  {
    p := 0;
    if (pc.GKey? || pc.GVal? || pc.GNext?) && pc.curr in bk.heap {
      p :| p < |bk.chain| && bk.chain[p] == pc.curr;
    }
  }

  /** A lookup's call ends at its check. */
  lemma LastStep(s: VS, s': VS, t: nat)
    requires VlSafety.Inv(s) && VlMachine.StepBy(s, s', t) && Going(s, t) && Stopped(s'.ths[t])
    requires A.Last(s.ths[t].hist).Get?
    ensures s.ths[t].pc.GCheck? && s'.ths[t].pc.Idle?
  {
    assert ThOk(s.bks[s.ths[t].b], s.ths[t]);
    InsideBucket(s, s', t);
    hide VlSafety.Inv, VlMachine.StepBy;
  }
}
