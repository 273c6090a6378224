/**
 The specification every hash table of the repository is measured against: a table of newest-first
 bucket lists on which each insert and remove takes effect in one atomic step, and each lookup
 answers for one instant between its call and its return.
 */
module AtomicTable {
  import opened Words
  import opened Assoc
  import opened Sums
  import opened Hash

  datatype Op = Ins(key: u64, val: u64) | Get(key: u64) | Del(key: u64)

  datatype Res = None | Done | Val(v: u64)

  datatype APC =
    | Idle(res: Res)   // between calls; the result of the last one
    | Pend             // called, not yet in effect
    | Got(v: u64)      // lookup that has sampled its bucket
    | Committed        // insert or remove in effect, not yet returned
    | Failed           // remove of an absent key: the source's assert(ret) ends the process

  /** A thread: every call it has made so far, the bucket of the last one, and how far that one is. */
  datatype ATh = ATh(hist: seq<Op>, b: nat, pc: APC)

  datatype AS = AS(tab: seq<seq<KV>>, ths: seq<ATh>)

  function Last(hist: seq<Op>): Op
    requires hist != []
  {
    hist[|hist| - 1]
  }

  // ----- steps -----

  /** A call: any operation whose key hashes to a bucket of the table. */
  ghost predicate Call(n: u64, hist: seq<Op>, b: nat, hist': seq<Op>, b': nat) {
    && hist' != [] && hist' == hist + [Last(hist')]
    && n > 0 && b' == BucketOf(Last(hist').key, n) && b' < n
  }

  ghost predicate Effect(tab: seq<seq<KV>>, th: ATh, tab': seq<seq<KV>>, th': ATh)
    requires th.hist != [] && th.b < |tab|
  {
    var s := tab[th.b];
    match Last(th.hist)
    case Ins(k, v) => tab' == tab[th.b := [KV(k, v)] + s] && th' == th.(pc := Committed)
    case Del(k) =>
      if HasKey(s, k) then tab' == tab[th.b := RemoveFirst(s, k)] && th' == th.(pc := Committed)
      else tab' == tab && th' == th.(pc := Failed)
    case Get(k) => tab' == tab && th' == th.(pc := Got(Lookup(s, k)))
  }

  /** strict: a lookup returns its sample. Otherwise lookups may return anything; inserts and removes may not. */
  ghost predicate Move(strict: bool, tab: seq<seq<KV>>, th: ATh, tab': seq<seq<KV>>, th': ATh) {
    match th.pc
    case Idle(_) => tab' == tab && |tab| < TWO64 && Call(|tab|, th.hist, th.b, th'.hist, th'.b) && th'.pc == Pend
    case Pend => th.hist != [] && th.b < |tab| && Effect(tab, th, tab', th')
    case Got(v) =>
      // a sampled lookup returns its sample, or drops it and samples again
      tab' == tab && (th' == th.(pc := Pend) || (th' == th.(pc := th'.pc) && Returns(strict, v, th'.pc)))
    case Committed => tab' == tab && th' == th.(pc := Idle(Done))
    case Failed => false
  }

  ghost predicate Returns(strict: bool, v: u64, pc: APC) {
    pc.Idle? && pc.res.Val? && (strict ==> pc.res.v == v)
  }

  ghost predicate StepBy(strict: bool, s: AS, s': AS, t: nat) {
    t < |s.ths| == |s'.ths| && s'.ths == s.ths[t := s'.ths[t]] && Move(strict, s.tab, s.ths[t], s'.tab, s'.ths[t])
  }

  ghost predicate Next(strict: bool, s: AS, s': AS) {
    s' == s || exists t: nat :: StepBy(strict, s, s', t)
  }

  ghost predicate Init(s: AS) {
    && (forall b :: 0 <= b < |s.tab| ==> s.tab[b] == [])
    && forall t :: 0 <= t < |s.ths| ==> s.ths[t].hist == [] && s.ths[t].pc == Idle(None)
  }

  ghost predicate Run(strict: bool, tr: seq<AS>) {
    |tr| > 0 && Init(tr[0]) && forall i :: 0 <= i < |tr| - 1 ==> Next(strict, tr[i], tr[i + 1])
  }

  // ----- lookups are linearizable -----

  ghost predicate ThreadOk(s: AS, th: ATh) {
    !th.pc.Idle? ==> th.hist != [] && th.b < |s.tab| < TWO64 && th.b == BucketOf(Last(th.hist).key, |s.tab|) &&
                     (th.pc.Got? ==> Last(th.hist).Get?)
  }

  ghost predicate Threads(s: AS) {
    forall t :: 0 <= t < |s.ths| ==> ThreadOk(s, s.ths[t])
  }

  lemma MoveThread(strict: bool, s: AS, s': AS, t: nat)
    requires StepBy(strict, s, s', t) && ThreadOk(s, s.ths[t])
    ensures |s'.tab| == |s.tab| && ThreadOk(s', s'.ths[t])
  {
    hide BucketOf, HasKey, RemoveFirst, Lookup;
  }

  lemma StepThreads(strict: bool, s: AS, s': AS, t: nat)
    requires StepBy(strict, s, s', t) && Threads(s)
    ensures |s'.tab| == |s.tab| && |s'.ths| == |s.ths| && Threads(s')
  {
    hide BucketOf, Move;
    MoveThread(strict, s, s', t);
    forall u | 0 <= u < |s'.ths| ensures ThreadOk(s', s'.ths[u]) {
      assert ThreadOk(s, s.ths[u]);
    }
  }

  lemma {:induction false} RunThreads(strict: bool, tr: seq<AS>, i: nat)
    requires Run(strict, tr) && i < |tr|
    ensures Threads(tr[i]) && |tr[i].tab| == |tr[0].tab| && |tr[i].ths| == |tr[0].ths|
  {
    hide StepBy;
    if i > 0 {
      hide Threads;
      RunThreads(strict, tr, i - 1);
      assert Next(strict, tr[i - 1], tr[i - 1 + 1]);
      if tr[i] != tr[i - 1] {
        var t: nat :| StepBy(strict, tr[i - 1], tr[i], t);
        StepThreads(strict, tr[i - 1], tr[i], t);
      }
    }
  }

  /**
   The sample v of a lookup is its bucket's answer at one instant j of its own call, its last sample:
   the thread's call history is the same at j as now, and from j on it only holds the sample.
   */
  lemma {:induction false} LookupInstant(strict: bool, tr: seq<AS>, i: nat, t: nat) returns (j: nat)
    requires Run(strict, tr) && i < |tr| && t < |tr[i].ths| && tr[i].ths[t].pc.Got?
    ensures j < i && |tr[j].tab| == |tr[i].tab|
    ensures forall m :: j <= m <= i ==> |tr[m].ths| == |tr[i].ths|
    ensures tr[j].ths[t].hist == tr[i].ths[t].hist != [] && tr[j].ths[t].pc.Pend?
    ensures forall m :: j < m <= i ==> tr[m].ths[t].pc.Got?
    ensures tr[i].ths[t].b < |tr[j].tab|
    ensures tr[i].ths[t].pc.v == Lookup(tr[j].tab[tr[i].ths[t].b], Last(tr[i].ths[t].hist).key)
    decreases i
  {
    hide BucketOf;
    RunThreads(strict, tr, i);
    assert ThreadOk(tr[i], tr[i].ths[t]);
    assert i > 0;
    RunThreads(strict, tr, i - 1);
    var s, s' := tr[i - 1], tr[i];
    assert Next(strict, tr[i - 1], tr[i - 1 + 1]);
    assert ThreadOk(s, s.ths[t]);
    if s.ths[t] == s'.ths[t] {
      j := LookupInstant(strict, tr, i - 1, t);
    } else {
      var u: nat :| StepBy(strict, s, s', u);
      assert u == t;
      j := i - 1;
    }
  }

  // ----- conservation -----

  function Weight(op: Op): int {
    match op
    case Ins(_, _) => 1
    case Del(_) => -1
    case Get(_) => 0
  }

  /** Inserts minus removes among the calls. */
  function Net(hist: seq<Op>): int {
    if hist == [] then 0 else Net(hist[..|hist| - 1]) + Weight(Last(hist))
  }

  /** The same without a call that has not taken effect. */
  function NetOf(th: ATh): int {
    if (th.pc.Pend? || th.pc.Failed?) && th.hist != [] then Net(th.hist) - Weight(Last(th.hist)) else Net(th.hist)
  }

  ghost function Nets(ths: seq<ATh>): seq<int> { seq(|ths|, t requires 0 <= t < |ths| => NetOf(ths[t])) }

  ghost function Sizes(tab: seq<seq<KV>>): seq<int> { seq(|tab|, b requires 0 <= b < |tab| => |tab[b]|) }

  /** get_node_count of the whole table. */
  ghost function NodeCount(tab: seq<seq<KV>>): int { Sum(Sizes(tab)) }

  lemma NodeCountUpdate(tab: seq<seq<KV>>, b: nat, s: seq<KV>)
    requires b < |tab|
    ensures NodeCount(tab[b := s]) == NodeCount(tab) - |tab[b]| + |s|
  {
    SumUpdate(Sizes(tab), b, |s|);
    assert Sizes(tab[b := s]) == Sizes(tab)[b := |s|];
  }

  lemma StepConserves(strict: bool, s: AS, s': AS, t: nat)
    requires Threads(s) && StepBy(strict, s, s', t)
    requires NodeCount(s.tab) == Sum(Nets(s.ths))
    ensures NodeCount(s'.tab) == Sum(Nets(s'.ths))
  {
    var th, th' := s.ths[t], s'.ths[t];
    assert ThreadOk(s, th);
    SumUpdate(Nets(s.ths), t, NetOf(th'));
    assert Nets(s'.ths) == Nets(s.ths)[t := NetOf(th')];
    if th.pc.Idle? {
      assert th'.hist[..|th'.hist| - 1] == th.hist;
    } else if th.pc.Pend? {
      match Last(th.hist)
      case Ins(k, v) => NodeCountUpdate(s.tab, th.b, [KV(k, v)] + s.tab[th.b]);
      case Get(_) =>
      case Del(k) =>
        if HasKey(s.tab[th.b], k) {
          NodeCountUpdate(s.tab, th.b, RemoveFirst(s.tab[th.b], k));
          var i := FirstExists(s.tab[th.b], k);
          RemoveFirstAt(s.tab[th.b], k, i);
        }
    }
  }

  lemma {:induction false} RunConserves(strict: bool, tr: seq<AS>, i: nat)
    requires Run(strict, tr) && i < |tr|
    ensures NodeCount(tr[i].tab) == Sum(Nets(tr[i].ths))
  {
    if i == 0 {
      SumConstant(Sizes(tr[0].tab), 0);
      SumConstant(Nets(tr[0].ths), 0);
    } else {
      RunConserves(strict, tr, i - 1);
      RunThreads(strict, tr, i - 1);
      assert Next(strict, tr[i - 1], tr[i - 1 + 1]);
      if tr[i] != tr[i - 1] {
        var t: nat :| StepBy(strict, tr[i - 1], tr[i], t);
        StepConserves(strict, tr[i - 1], tr[i], t);
      }
    }
  }

  ghost predicate Quiescent(s: AS) {
    forall t :: 0 <= t < |s.ths| ==> s.ths[t].pc.Idle?
  }

  ghost function HistNets(ths: seq<ATh>): seq<int> { seq(|ths|, t requires 0 <= t < |ths| => Net(ths[t].hist)) }

  /** At any quiescent point the table holds exactly the inserts minus the removes of all threads. */
  lemma NodeCountConserved(strict: bool, tr: seq<AS>, i: nat)
    requires Run(strict, tr) && i < |tr| && Quiescent(tr[i])
    ensures NodeCount(tr[i].tab) == Sum(HistNets(tr[i].ths))
  {
    RunConserves(strict, tr, i);
    assert Nets(tr[i].ths) == HistNets(tr[i].ths);
  }

  // ----- loading: only inserts of a key as its own value -----

  ghost predicate OnlyLoads(s: AS) {
    forall t, j :: 0 <= t < |s.ths| && 0 <= j < |s.ths[t].hist| ==> IsLoad(s.ths[t].hist[j])
  }

  predicate IsLoad(op: Op) { op.Ins? && op.key == op.val }

  /** Every call that has taken effect is in its bucket. */
  ghost predicate LoadedBy(s: AS, th: ATh) {
    forall j :: 0 <= j < |th.hist| - (if th.pc.Pend? then 1 else 0) ==> Holds(s, th.hist[j].key)
  }

  ghost predicate Holds(s: AS, k: u64) {
    0 < |s.tab| < TWO64 && BucketOf(k, |s.tab|) < |s.tab| && HasKey(s.tab[BucketOf(k, |s.tab|)], k)
  }

  ghost predicate Loaded(s: AS) {
    && (forall b, i :: 0 <= b < |s.tab| && 0 <= i < |s.tab[b]| ==> s.tab[b][i].val == s.tab[b][i].key)
    && (forall t :: 0 <= t < |s.ths| ==> LoadedBy(s, s.ths[t]))
  }

  lemma StepLoads(strict: bool, s: AS, s': AS, t: nat)
    requires Threads(s) && Loaded(s) && OnlyLoads(s) && OnlyLoads(s') && StepBy(strict, s, s', t)
    ensures Loaded(s')
  {
    hide BucketOf, Holds;
    var th, th' := s.ths[t], s'.ths[t];
    assert ThreadOk(s, th);
    assert th.hist != [] ==> IsLoad(th.hist[|th.hist| - 1]);
    LoadEffect(strict, s, s', t);
    hide Effect;
    forall u | 0 <= u < |s'.ths| ensures LoadedBy(s', s'.ths[u]) {
      assert LoadedBy(s, s.ths[u]);
    }
  }

  /** One step of a load phase: everything held stays held, and an insert that takes effect is held. */
  lemma LoadEffect(strict: bool, s: AS, s': AS, t: nat)
    requires t < |s.ths| && ThreadOk(s, s.ths[t]) && StepBy(strict, s, s', t)
    requires s.ths[t].pc.Pend? ==> IsLoad(Last(s.ths[t].hist))
    requires forall b, i :: 0 <= b < |s.tab| && 0 <= i < |s.tab[b]| ==> s.tab[b][i].val == s.tab[b][i].key
    ensures forall b, i :: 0 <= b < |s'.tab| && 0 <= i < |s'.tab[b]| ==> s'.tab[b][i].val == s'.tab[b][i].key
    ensures forall k :: Holds(s, k) ==> Holds(s', k)
    ensures s.ths[t].pc.Pend? ==> s'.ths[t].pc.Committed? && Holds(s', Last(s.ths[t].hist).key)
  {
    hide BucketOf;
    var th := s.ths[t];
    if th.pc.Pend? {
      var op := Last(th.hist);
      assert s'.tab[th.b] == [KV(op.key, op.val)] + s.tab[th.b];
      assert s'.tab[th.b][0].key == op.key;
      assert Holds(s', op.key);
    }
    forall k | Holds(s, k) ensures Holds(s', k) {
      var i :| 0 <= i < |s.tab[BucketOf(k, |s.tab|)]| && s.tab[BucketOf(k, |s.tab|)][i].key == k;
      if th.pc.Pend? && BucketOf(k, |s.tab|) == th.b {
        assert s'.tab[th.b][i + 1].key == k;
      }
    }
  }

  lemma InitLoaded(strict: bool, tr: seq<AS>)
    requires Run(strict, tr)
    ensures Loaded(tr[0])
  {}

  /** Call histories only grow. */
  lemma StepHist(strict: bool, s: AS, s': AS, t: nat, u: nat)
    requires StepBy(strict, s, s', t) && u < |s.ths|
    ensures s.ths[u].hist <= s'.ths[u].hist
  {}

  lemma {:induction false} RunLoads(strict: bool, tr: seq<AS>, i: nat)
    requires Run(strict, tr) && i < |tr| && OnlyLoads(tr[i])
    ensures Loaded(tr[i])
  {
    hide Loaded, ThreadOk, Threads, Move;
    if i == 0 {
      InitLoaded(strict, tr);
    } else {
      var s, s' := tr[i - 1], tr[i];
      RunThreads(strict, tr, i - 1);
      assert Next(strict, tr[i - 1], tr[i - 1 + 1]);
      if s != s' {
        var t: nat :| StepBy(strict, s, s', t);
        forall u, j | 0 <= u < |s.ths| && 0 <= j < |s.ths[u].hist| ensures IsLoad(s.ths[u].hist[j]) {
          StepHist(strict, s, s', t, u);
          assert s'.ths[u].hist[j] == s.ths[u].hist[j];
        }
        RunLoads(strict, tr, i - 1);
        StepLoads(strict, s, s', t);
      } else {
        RunLoads(strict, tr, i - 1);
      }
    }
  }

  /** After a load phase every loaded key looks up to itself. */
  lemma LoadedLooksUp(strict: bool, tr: seq<AS>, i: nat, t: nat, j: nat)
    requires Run(strict, tr) && i < |tr| && OnlyLoads(tr[i]) && Quiescent(tr[i])
    requires t < |tr[i].ths| && j < |tr[i].ths[t].hist|
    ensures 0 < |tr[i].tab| < TWO64
    ensures var k := tr[i].ths[t].hist[j].key;
            BucketOf(k, |tr[i].tab|) < |tr[i].tab| && Lookup(tr[i].tab[BucketOf(k, |tr[i].tab|)], k) == k
  {
    RunLoads(strict, tr, i);
    var s := tr[i];
    var k := s.ths[t].hist[j].key;
    assert LoadedBy(s, s.ths[t]) && s.ths[t].pc.Idle?;
    assert Holds(s, k);
    var p := FirstExists(s.tab[BucketOf(k, |s.tab|)], k);
    LookupFirst(s.tab[BucketOf(k, |s.tab|)], k, p);
  }
}
