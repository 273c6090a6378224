/** The load phase can be carried out: runs of both interleaved tables in which every worker finishes. */
module LoadRuns {
  import opened Words
  import opened Assoc
  import opened Sums
  import opened Hash
  import opened FlatTable
  import opened Loader
  import A = AtomicTable
  import VlMachine
  import VlSafety
  import VlTheorems
  import VlProgress
  import LockMachine
  import LfMachine
  import LfSafety
  import LfTheorems
  import LfProgress

  /** How many calls thread u has made when threads below t have made all q of theirs, and t has made j. */
  function MadeBy(u: nat, t: nat, j: nat, q: nat): nat { if u < t then q else if u == t then j else 0 }

  /** The keys are at hand and in range, and T threads share them. */
  ghost predicate Plan(keys: seq<u64>, T: nat, n: nat) {
    T > 0 && 0 < n < TWO64 && forall p :: 0 <= p < |keys| ==> BucketOf(keys[p], n) < n
  }

  lemma ProgramInRange(keys: seq<u64>, T: nat, n: nat, t: nat, j: nat)
    requires Plan(keys, T, n) && t < T && j < |keys| / T
    ensures InRange(n, Program(keys, T, t)[j]) && Program(keys, T, t)[j].Ins?
    ensures Program(keys, T, t)[..j] + [Program(keys, T, t)[j]] == Program(keys, T, t)[..j + 1]
  {
    hide BucketOf;
    RangeFits(|keys|, T, t);
  }

  // ----- the version-locked table -----

  ghost predicate LoadedTo(s: VlMachine.VS, keys: seq<u64>, T: nat, n: nat, t: nat, j: nat)
    requires T > 0 && j <= |keys| / T
  {
    && |s.bks| == n && |s.ths| == T
    && (forall u :: 0 <= u < T ==> s.ths[u].pc.Idle?)
    && (forall u :: 0 <= u < T ==> s.ths[u].hist == Program(keys, T, u)[..MadeBy(u, t, j, |keys| / T)])
  }

  /** When every thread is idle every lock is free. */
  lemma QuietIsFree(s: VlMachine.VS, b: nat)
    requires VlSafety.Inv(s) && b < |s.bks| && forall u :: 0 <= u < |s.ths| ==> s.ths[u].pc.Idle?
    ensures s.bks[b].lk.version % 2 == 0
  {
    var v := VlSafety.LockView(s, b);
    forall u | 0 <= u < |v.pcs| ensures !LockMachine.Holding(v.pcs[u]) {
      assert VlSafety.ThOk(s.bks[s.ths[u].b], s.ths[u]);
    }
    assert v.k.resets == 0 && LockMachine.Exclusive(v);
  }

  /** With q calls a thread at most, a lock has room. */
  lemma FewUnlocks(tr: seq<VlMachine.VS>, last: VlMachine.VS, b: nat, q: nat)
    requires VlMachine.Run(tr) && b < |tr[0].bks| && tr[|tr| - 1] == last
    requires forall u :: 0 <= u < |last.ths| ==> |last.ths[u].hist| <= q
    ensures b < |last.bks| && last.bks[b].lk.unlocks <= |last.ths| * q
  {
    VlTheorems.UnlocksAreCalls(tr, 0, |tr| - 1, b);
    hide VlMachine.Run;
    SumBound(VlTheorems.AllBegun(last.ths), q);
  }

  lemma {:induction false} SoloOthers(s: VlMachine.VS, tr: seq<VlMachine.VS>, t: nat, i: nat)
    requires VlProgress.Solo(s, tr, t) && i < |tr|
    ensures |tr[i].ths| == |s.ths| && forall u :: 0 <= u < |s.ths| && u != t ==> tr[i].ths[u] == s.ths[u]
    ensures |tr[i].bks| == |s.bks|
  {
    hide VlMachine.BucketMove, VlMachine.CallMove, VlSafety.Below;
    if i > 0 {
      SoloOthers(s, tr, t, i - 1);
      assert VlMachine.StepBy(tr[i - 1], tr[i - 1 + 1], t);
    }
  }

  lemma JoinSolo(tr: seq<VlMachine.VS>, rest: seq<VlMachine.VS>, t: nat) returns (all: seq<VlMachine.VS>)
    requires VlMachine.Run(tr) && VlTheorems.BelowReset(tr) && VlProgress.Solo(tr[|tr| - 1], rest, t)
    ensures VlMachine.Run(all) && VlTheorems.BelowReset(all) && all == tr + rest[1..]
    ensures all[|all| - 1] == rest[|rest| - 1] && all[0] == tr[0]
  {
    hide VlMachine.StepBy, VlMachine.Init, VlSafety.Below;
    all := tr + rest[1..];
    forall i | 0 <= i < |all| - 1 ensures VlMachine.Next(all[i], all[i + 1]) {
      if i + 1 < |tr| {
        assert VlMachine.Next(tr[i], tr[i + 1]);
      } else {
        assert VlMachine.StepBy(rest[i + 1 - |tr|], rest[i + 1 - |tr| + 1], t);
      }
    }
  }

  /** The next insert of thread t can be made. */
  lemma LoadReady(tr: seq<VlMachine.VS>, keys: seq<u64>, T: nat, n: nat, t: nat, j: nat, b: nat)
    requires Plan(keys, T, n) && t < T && j < |keys| / T && |keys| < TWO63 - 2 && b < n
    requires VlMachine.Run(tr) && VlTheorems.BelowReset(tr) && |tr[0].bks| == n
    requires LoadedTo(tr[|tr| - 1], keys, T, n, t, j)
    ensures var s := tr[|tr| - 1];
            VlSafety.Inv(s) && s.bks[b].lk.version % 2 == 0 && s.bks[b].lk.unlocks + 1 < TWO63 - 1
  {
    VlTheorems.RunInv(tr, |tr| - 1);
    hide VlMachine.Run, VlTheorems.BelowReset, VlSafety.Inv;
    QuietIsFree(tr[|tr| - 1], b);
    FewUnlocks(tr, tr[|tr| - 1], b, |keys| / T);
    DivBounds(T, |keys|);
  }

  /** And it leaves the table loaded one call further. */
  lemma LoadedNext(s: VlMachine.VS, s': VlMachine.VS, keys: seq<u64>, T: nat, n: nat, t: nat, j: nat)
    requires Plan(keys, T, n) && t < T && j < |keys| / T && LoadedTo(s, keys, T, n, t, j)
    requires |s'.ths| == T && |s'.bks| == n && forall u :: 0 <= u < T && u != t ==> s'.ths[u] == s.ths[u]
    requires s'.ths[t].pc.Idle? && s'.ths[t].hist == s.ths[t].hist + [Program(keys, T, t)[j]]
    ensures LoadedTo(s', keys, T, n, t, j + 1)
  {
    hide Plan;
    ProgramPrefix(keys, T, t, j);
  }

  lemma ProgramPrefix(keys: seq<u64>, T: nat, t: nat, j: nat)
    requires t < T && j < |keys| / T
    ensures Program(keys, T, t)[..j] + [Program(keys, T, t)[j]] == Program(keys, T, t)[..j + 1]
  {}

  /** One more insert by thread t. */
  lemma LoadOne(tr: seq<VlMachine.VS>, keys: seq<u64>, T: nat, n: nat, t: nat, j: nat) returns (all: seq<VlMachine.VS>)
    requires Plan(keys, T, n) && t < T && j < |keys| / T && |keys| < TWO63 - 2
    requires VlMachine.Run(tr) && VlTheorems.BelowReset(tr) && |tr[0].bks| == n
    requires LoadedTo(tr[|tr| - 1], keys, T, n, t, j)
    ensures VlMachine.Run(all) && VlTheorems.BelowReset(all) && |all[0].bks| == n
    ensures LoadedTo(all[|all| - 1], keys, T, n, t, j + 1)
  {
    hide BucketOf, VlMachine.Next, VlMachine.Init, VlTheorems.BelowReset, VlSafety.Inv, VlProgress.CallsNow;
    var s := tr[|tr| - 1];
    var op := Program(keys, T, t)[j];
    ProgramInRange(keys, T, n, t, j);
    LoadReady(tr, keys, T, n, t, j, BucketOf(op.key, n));
    var rest := VlProgress.CallCanReturn(s, t, op);
    SoloOthers(s, rest, t, |rest| - 1);
    InsertsDone(rest[|rest| - 1], t, VlTheorems.Abs(s).tab, op);
    LoadedNext(s, rest[|rest| - 1], keys, T, n, t, j);
    hide LoadedTo, VlProgress.EndsAs, VlTheorems.Abs;
    all := JoinSolo(tr, rest, t);
  }

  /** An insert always has an answer. */
  lemma InsertsDone(s: VlMachine.VS, t: nat, tab: seq<seq<KV>>, op: A.Op)
    requires InRange(|tab|, op) && op.Ins? && VlProgress.EndsAs(s, t, tab, op)
    ensures s.ths[t].pc.Idle?
  {
    hide BucketOf;
  }

  lemma {:induction false} LoadTo(keys: seq<u64>, T: nat, n: nat, t: nat, j: nat) returns (tr: seq<VlMachine.VS>)
    requires Plan(keys, T, n) && t < T && j <= |keys| / T && |keys| < TWO63 - 2
    ensures VlMachine.Run(tr) && VlTheorems.BelowReset(tr) && |tr| > 0 && |tr[0].bks| == n
    ensures LoadedTo(tr[|tr| - 1], keys, T, n, t, j)
    decreases t, j
  {
    if j > 0 {
      hide VlMachine.Run, VlTheorems.BelowReset, LoadedTo, Plan;
      tr := LoadTo(keys, T, n, t, j - 1);
      tr := LoadOne(tr, keys, T, n, t, j - 1);
    } else if t > 0 {
      hide VlMachine.Run, VlTheorems.BelowReset;
      tr := LoadTo(keys, T, n, t - 1, |keys| / T);
    } else {
      var bk := VlMachine.Bkt(LockMachine.Free, map[], 0, [], 0);
      var th := VlMachine.VTh([], 0, LockMachine.Out, VlMachine.Idle(A.None), [], [], 0, false, 0, 0, 0, 0);
      tr := [VlMachine.VS(seq(n, _ => bk), seq(T, _ => th))];
    }
  }

  /**
   For every table size, number of threads and keys in range, the version-locked table has a run in which every
   worker makes exactly its calls and all return, so that VlLoadComplete speaks of something.
   */
  lemma VlLoadCanComplete(keys: seq<u64>, T: nat, n: nat) returns (tr: seq<VlMachine.VS>)
    requires Plan(keys, T, n) && |keys| < TWO63 - 2
    ensures VlMachine.Run(tr) && |tr[0].bks| == n
    ensures AllLoaded(VlTheorems.Abs(tr[|tr| - 1]), keys, T)
  {
    hide VlMachine.Run, VlTheorems.BelowReset;
    tr := LoadTo(keys, T, n, T - 1, |keys| / T);
    var s := tr[|tr| - 1];
    forall u | 0 <= u < T ensures s.ths[u].hist == Program(keys, T, u) && s.ths[u].pc.Idle? {
      assert Program(keys, T, u)[..MadeBy(u, T - 1, |keys| / T, |keys| / T)] == Program(keys, T, u);
    }
  }

  // ----- the lock-free table -----

  ghost predicate LoadedToLf(s: LfMachine.LS, keys: seq<u64>, T: nat, n: nat, t: nat, j: nat)
    requires T > 0 && j <= |keys| / T
  {
    && |s.bks| == n && |s.ths| == T
    && (forall u :: 0 <= u < T ==> s.ths[u].pc.Ready?)
    && (forall u :: 0 <= u < T ==> s.ths[u].hist == Program(keys, T, u)[..MadeBy(u, t, j, |keys| / T)])
  }

  lemma {:induction false} SoloOthersLf(s: LfMachine.LS, tr: seq<LfMachine.LS>, t: nat, i: nat)
    requires LfProgress.SoloLf(s, tr, t) && i < |tr|
    ensures |tr[i].ths| == |s.ths| && forall u :: 0 <= u < |s.ths| && u != t ==> tr[i].ths[u] == s.ths[u]
    ensures |tr[i].bks| == |s.bks|
  {
    if i > 0 {
      SoloOthersLf(s, tr, t, i - 1);
      assert LfMachine.StepBy(tr[i - 1], tr[i - 1 + 1], t);
      LfSafety.StepKinds(tr[i - 1], tr[i], t);
    }
  }

  lemma JoinSoloLf(tr: seq<LfMachine.LS>, rest: seq<LfMachine.LS>, t: nat) returns (all: seq<LfMachine.LS>)
    requires LfMachine.Run(tr) && LfProgress.SoloLf(tr[|tr| - 1], rest, t)
    ensures LfMachine.Run(all) && all[|all| - 1] == rest[|rest| - 1] && all[0] == tr[0]
  {
    hide LfMachine.StepBy, LfMachine.Init;
    all := tr + rest[1..];
    forall i | 0 <= i < |all| - 1 ensures LfMachine.Next(all[i], all[i + 1]) {
      if i + 1 < |tr| {
        assert LfMachine.Next(tr[i], tr[i + 1]);
      } else {
        assert LfMachine.StepBy(rest[i + 1 - |tr|], rest[i + 1 - |tr| + 1], t);
      }
    }
  }

  lemma LoadedNextLf(s: LfMachine.LS, s': LfMachine.LS, keys: seq<u64>, T: nat, n: nat, t: nat, j: nat)
    requires Plan(keys, T, n) && t < T && j < |keys| / T && LoadedToLf(s, keys, T, n, t, j)
    requires |s'.ths| == T && |s'.bks| == n && forall u :: 0 <= u < T && u != t ==> s'.ths[u] == s.ths[u]
    requires s'.ths[t].pc.Ready? && s'.ths[t].hist == s.ths[t].hist + [Program(keys, T, t)[j]]
    ensures LoadedToLf(s', keys, T, n, t, j + 1)
  {
    hide Plan;
    ProgramPrefix(keys, T, t, j);
  }

  lemma LoadOneLf(tr: seq<LfMachine.LS>, keys: seq<u64>, T: nat, n: nat, t: nat, j: nat)
    returns (all: seq<LfMachine.LS>)
    requires Plan(keys, T, n) && t < T && j < |keys| / T && LfMachine.Run(tr) && |tr[0].bks| == n
    requires LoadedToLf(tr[|tr| - 1], keys, T, n, t, j)
    ensures LfMachine.Run(all) && |all[0].bks| == n && LoadedToLf(all[|all| - 1], keys, T, n, t, j + 1)
  {
    hide BucketOf, LfMachine.Next, LfMachine.Init, LfSafety.Inv, LfProgress.CallsNowLf;
    var s := tr[|tr| - 1];
    var op := Program(keys, T, t)[j];
    ProgramInRange(keys, T, n, t, j);
    LfTheorems.RunInv(tr, |tr| - 1);
    var rest := LfProgress.CallCanReturnLf(s, t, op, false);
    SoloOthersLf(s, rest, t, |rest| - 1);
    LoadedNextLf(s, rest[|rest| - 1], keys, T, n, t, j);
    hide LoadedToLf, LfProgress.EndsAsLf;
    all := JoinSoloLf(tr, rest, t);
  }

  lemma {:induction false} LoadToLf(keys: seq<u64>, T: nat, n: nat, t: nat, j: nat) returns (tr: seq<LfMachine.LS>)
    requires Plan(keys, T, n) && t < T && j <= |keys| / T
    ensures LfMachine.Run(tr) && |tr| > 0 && |tr[0].bks| == n && LoadedToLf(tr[|tr| - 1], keys, T, n, t, j)
    decreases t, j
  {
    if j > 0 {
      hide LfMachine.Run, LoadedToLf, Plan;
      tr := LoadToLf(keys, T, n, t, j - 1);
      tr := LoadOneLf(tr, keys, T, n, t, j - 1);
    } else if t > 0 {
      hide LfMachine.Run;
      tr := LoadToLf(keys, T, n, t - 1, |keys| / T);
    } else {
      tr := [LfMachine.LS(seq(n, _ => LfMachine.Head(0, 0, [])), map[], {}, seq(T, _ => LfMachine.NewLTh(n)))];
    }
  }

  /** The same for the lock-free table. */
  lemma LfLoadCanComplete(keys: seq<u64>, T: nat, n: nat) returns (tr: seq<LfMachine.LS>)
    requires Plan(keys, T, n)
    ensures LfMachine.Run(tr) && |tr[0].bks| == n
    ensures AllLoaded(LfTheorems.AbsLf(tr[|tr| - 1]), keys, T)
  {
    hide LfMachine.Run;
    tr := LoadToLf(keys, T, n, T - 1, |keys| / T);
    var s := tr[|tr| - 1];
    forall u | 0 <= u < T ensures s.ths[u].hist == Program(keys, T, u) && s.ths[u].pc.Ready? {
      assert Program(keys, T, u)[..MadeBy(u, T - 1, |keys| / T, |keys| / T)] == Program(keys, T, u);
    }
  }
}
