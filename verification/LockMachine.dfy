/**
 version_lock.hpp as interleaved atomic steps: any number of threads, one step per access to
 the shared counter, sequential consistency. Odd counter: held. Even: free.
 */
module LockMachine {
  import opened Words

  /** AsWritten is the source. ResetReleases is write_unlock with the reset itself made the release. */
  datatype Variant = AsWritten | ResetReleases

  /** The shared counter, and the history of what happened to it. */
  datatype Lk = Lk(
    version: u64,
    acq: nat,       // winning compare-and-swaps
    rel: nat,       // releases
    unlocks: nat,   // calls of write_unlock that have started
    resets: nat)    // executions of the overflow branch

  /** Where a thread is between two accesses, with its local copy of the counter. */
  datatype LPC =
    | Out                   // not inside any lock operation
    | Cas(ver: u64)         // loaded an even value, about to compare-and-swap
    | Held                  // owns the lock
    | Rel(ver: u64)         // in write_unlock, counter loaded
    | Faa                   // in write_unlock, past the reset branch
    | Reading(snap: u64)    // reader between its snapshot and its check

  predicate Holding(l: LPC) { l.Held? || l.Rel? || l.Faa? }

  const Free: Lk := Lk(0, 0, 0, 0, 0)

  /** The largest odd value the counter is meant to take: version + 1 == UINT64_MAX - 1. */
  const TOP: u64 := UINT64_MAX - 2

  // ----- atomic steps of one thread -----

  /** write_lock / try_write_lock: load the counter; an odd value means spin or give up. */
  function LoadForWrite(k: Lk): LPC { if k.version % 2 == 0 then Cas(k.version) else Out }

  function TryCas(k: Lk, ver: u64): (Lk, LPC) {
    if k.version == ver then (k.(version := (ver + 1) % TWO64, acq := k.acq + 1), Held)
    else (k, Out)
  }

  function LoadForRelease(k: Lk): (Lk, LPC) { (k.(unlocks := k.unlocks + 1), Rel(k.version)) }

  function Increment(k: Lk): (Lk, LPC) {
    (k.(version := (k.version + 1) % TWO64, rel := k.rel + 1), Out)
  }

  /** After the load in write_unlock: the reset branch, or the assertion and the fetch-and-add. */
  function Release(variant: Variant, k: Lk, ver: u64): (Lk, LPC) {
    if ver == TOP then
      var k' := k.(version := if k.version == ver then 0 else k.version, resets := k.resets + 1);
      if variant.AsWritten? then (k', Faa) else (k'.(rel := k'.rel + 1), Out)
    else Increment(k)
  }

  /** One atomic step; a step whose assertion would fail is not taken. */
  ghost predicate Move(variant: Variant, k: Lk, l: LPC, k': Lk, l': LPC) {
    match l
    case Out => k' == k && (l' == LoadForWrite(k) || l' == Reading(k.version) || l' == Out)
    case Cas(ver) => (k', l') == TryCas(k, ver)
    case Held => (k', l') == LoadForRelease(k)
    case Rel(ver) => ver % 2 == 1 && (k', l') == Release(variant, k, ver)
    case Faa => (k', l') == Increment(k)
    case Reading(snap) => snap <= k.version && k' == k && l' == Out
  }

  // ----- all threads -----

  datatype LS = LS(k: Lk, pcs: seq<LPC>)

  ghost predicate Init(s: LS) {
    s.k == Free && forall t :: 0 <= t < |s.pcs| ==> s.pcs[t] == Out
  }

  ghost predicate StepBy(variant: Variant, s: LS, s': LS, t: nat) {
    t < |s.pcs| == |s'.pcs| && s'.pcs == s.pcs[t := s'.pcs[t]] &&
    Move(variant, s.k, s.pcs[t], s'.k, s'.pcs[t])
  }

  ghost predicate Next(variant: Variant, s: LS, s': LS) {
    s' == s || exists t: nat :: StepBy(variant, s, s', t)
  }

  ghost predicate Run(variant: Variant, tr: seq<LS>) {
    |tr| > 0 && Init(tr[0]) && forall i :: 0 <= i < |tr| - 1 ==> Next(variant, tr[i], tr[i + 1])
  }

  // ----- what every step keeps -----

  /** Mutual exclusion: the counter is odd exactly when exactly one thread holds the lock. */
  ghost predicate Exclusive(s: LS) {
    && s.k.version <= TOP
    && (s.k.version % 2 == 1 ==> exists t :: 0 <= t < |s.pcs| && Holding(s.pcs[t]))
    && (forall t :: 0 <= t < |s.pcs| && Holding(s.pcs[t]) ==> s.k.version % 2 == 1)
    && (forall t, u :: 0 <= t < |s.pcs| && 0 <= u < |s.pcs| && Holding(s.pcs[t]) && Holding(s.pcs[u]) ==> t == u)
    && (forall t :: 0 <= t < |s.pcs| ==> LocalOk(s.k, s.pcs[t]))
  }

  ghost predicate LocalOk(k: Lk, l: LPC) {
    match l
    case Cas(ver) => ver % 2 == 0
    case Rel(ver) => ver == k.version
    case Faa => false
    case _ => true
  }

  /** The counter is the number of acquisitions plus the number of releases. */
  ghost predicate Counted(s: LS) {
    && s.k.version == s.k.acq + s.k.rel
    && s.k.acq == s.k.rel + s.k.version % 2
    && s.k.rel <= s.k.unlocks <= s.k.acq
    && forall t :: 0 <= t < |s.pcs| ==> CountedAt(s.k, s.pcs[t])
  }

  ghost predicate CountedAt(k: Lk, l: LPC) {
    && (l.Held? ==> k.unlocks == k.rel)
    && (l.Rel? ==> k.unlocks == k.rel + 1)
    && (l.Reading? ==> l.snap <= k.version)
  }

  /** Exclusion for as long as no reset has happened, and forever when the reset is the release. */
  ghost predicate Inv(variant: Variant, s: LS) {
    && (variant.ResetReleases? || s.k.resets == 0 ==> Exclusive(s))
    && (s.k.resets == 0 ==> Counted(s))
    && (s.k.resets > 0 ==> s.k.unlocks >= TWO63 - 1)
  }

  lemma InitInv(variant: Variant, s: LS)
    requires Init(s)
    ensures Inv(variant, s)
  {}

  lemma StepExclusive(variant: Variant, s: LS, s': LS, t: nat)
    requires Exclusive(s) && StepBy(variant, s, s', t)
    requires variant.ResetReleases? || s'.k.resets == s.k.resets
    ensures Exclusive(s')
  {
    if s'.k.version % 2 == 1 {
      if Holding(s'.pcs[t]) {
      } else {
        var u :| 0 <= u < |s.pcs| && Holding(s.pcs[u]);
        assert Holding(s'.pcs[u]);
      }
    }
  }

  /** The counts of one step, for the thread that takes it and for any other thread u. */
  lemma MoveCounted(variant: Variant, k: Lk, l: LPC, k': Lk, l': LPC, u: LPC)
    requires Move(variant, k, l, k', l') && k'.resets == 0 && k.version <= TOP
    requires k.version == k.acq + k.rel && k.acq == k.rel + k.version % 2 && k.rel <= k.unlocks <= k.acq
    requires LocalOk(k, l) && CountedAt(k, l) && CountedAt(k, u)
    requires Holding(l) ==> k.version % 2 == 1 && !Holding(u)
    requires Holding(u) ==> k.version % 2 == 1
    ensures k'.version == k'.acq + k'.rel && k'.acq == k'.rel + k'.version % 2 && k'.rel <= k'.unlocks <= k'.acq
    ensures CountedAt(k', l') && CountedAt(k', u)
    ensures k.version <= k'.version
  {
    match l
    case Cas(ver) => assert ver == k.version ==> k'.version == k.version + 1;
    case Rel(ver) => assert k'.version == k.version + 1;
    case _ =>
  }

  lemma StepCounted(variant: Variant, s: LS, s': LS, t: nat)
    requires Exclusive(s) && Counted(s) && StepBy(variant, s, s', t) && s'.k.resets == 0
    ensures Counted(s') && s.k.version <= s'.k.version
  {
    assert LocalOk(s.k, s.pcs[t]) && CountedAt(s.k, s.pcs[t]);
    MoveCounted(variant, s.k, s.pcs[t], s'.k, s'.pcs[t], Out);
    forall u | 0 <= u < |s'.pcs| ensures CountedAt(s'.k, s'.pcs[u]) {
      if u != t {
        assert CountedAt(s.k, s.pcs[u]);
        MoveCounted(variant, s.k, s.pcs[t], s'.k, s'.pcs[t], s.pcs[u]);
      }
    }
  }

  lemma StepInv(variant: Variant, s: LS, s': LS)
    requires Inv(variant, s) && Next(variant, s, s')
    ensures Inv(variant, s')
    ensures s'.k.resets == 0 ==> s.k.resets == 0 && s.k.version <= s'.k.version
    ensures s.k.unlocks <= s'.k.unlocks
  {
    if s' != s {
      var t: nat :| StepBy(variant, s, s', t);
      if variant.ResetReleases? || s'.k.resets == 0 {
        StepExclusive(variant, s, s', t);
      }
      if s'.k.resets == 0 {
        StepCounted(variant, s, s', t);
      } else if s.k.resets == 0 {
        assert LocalOk(s.k, s.pcs[t]) && CountedAt(s.k, s.pcs[t]);
      }
    }
  }

  lemma {:induction false} RunInv(variant: Variant, tr: seq<LS>, i: nat)
    requires Run(variant, tr) && i < |tr|
    ensures Inv(variant, tr[i])
  {
    if i == 0 {
      InitInv(variant, tr[0]);
    } else {
      RunInv(variant, tr, i - 1);
      assert Next(variant, tr[i - 1], tr[i - 1 + 1]);
      StepInv(variant, tr[i - 1], tr[i]);
    }
  }

  // ----- below the reset point -----

  lemma {:induction false} CountsGrow(variant: Variant, tr: seq<LS>, j: nat, i: nat)
    requires Run(variant, tr) && j <= i < |tr|
    ensures tr[j].k.unlocks <= tr[i].k.unlocks
    ensures tr[i].k.resets == 0 ==> tr[j].k.resets == 0 && tr[j].k.version <= tr[i].k.version
  {
    if j < i {
      CountsGrow(variant, tr, j, i - 1);
      RunInv(variant, tr, i - 1);
      assert Next(variant, tr[i - 1], tr[i - 1 + 1]);
      StepInv(variant, tr[i - 1], tr[i]);
    }
  }

  /**
   In every run with fewer than 2^63 - 1 unlocks: the counter is acquisitions plus releases, it never
   decreases, it is odd exactly when exactly one thread owns the lock, and neither assertion can fail.
   */
  lemma BelowReset(tr: seq<LS>, j: nat, i: nat)
    requires Run(AsWritten, tr) && j <= i < |tr| && tr[i].k.unlocks < TWO63 - 1
    ensures tr[i].k.version == tr[i].k.acq + tr[i].k.rel
    ensures tr[j].k.version <= tr[i].k.version
    ensures tr[i].k.version % 2 == 1 <==> exists t :: 0 <= t < |tr[i].pcs| && Holding(tr[i].pcs[t])
    ensures forall t, u | 0 <= t < |tr[i].pcs| && 0 <= u < |tr[i].pcs| ::
              Holding(tr[i].pcs[t]) && Holding(tr[i].pcs[u]) ==> t == u
    ensures forall t :: 0 <= t < |tr[i].pcs| && tr[i].pcs[t].Rel? ==> tr[i].pcs[t].ver % 2 == 1
    ensures forall t :: 0 <= t < |tr[i].pcs| && tr[i].pcs[t].Reading? ==> tr[i].pcs[t].snap <= tr[i].k.version
  {
    RunInv(AsWritten, tr, i);
    CountsGrow(AsWritten, tr, j, i);
    var s := tr[i];
    forall t | 0 <= t < |s.pcs|
      ensures s.pcs[t].Rel? ==> s.pcs[t].ver % 2 == 1
      ensures s.pcs[t].Reading? ==> s.pcs[t].snap <= s.k.version
    {
      assert LocalOk(s.k, s.pcs[t]) && CountedAt(s.k, s.pcs[t]);
    }
  }

  // ----- the overflow branch -----

  /** The (2^63 - 1)-th unlock is the first to take the branch, and always takes it. */
  lemma ResetAtUnlockNumber(variant: Variant, s: LS, t: nat)
    requires Inv(variant, s) && s.k.resets == 0 && t < |s.pcs| && s.pcs[t].Rel?
    ensures s.pcs[t].ver == TOP <==> s.k.unlocks == TWO63 - 1
    ensures s.k.unlocks <= TWO63 - 1
  {
    assert LocalOk(s.k, s.pcs[t]) && CountedAt(s.k, s.pcs[t]);
  }

  /** write_unlock from its load to its end with no other thread in between. */
  function FinishAlone(variant: Variant, k: Lk, ver: u64): Lk {
    var (k', l') := Release(variant, k, ver);
    if l'.Faa? then Increment(k').0 else k'
  }

  /** An uninterrupted unlock leaves the lock free if and only if it is not unlock number 2^63 - 1. */
  lemma UnlockFreesExactly(s: LS, t: nat)
    requires Inv(AsWritten, s) && s.k.resets == 0 && t < |s.pcs| && s.pcs[t].Rel?
    ensures FinishAlone(AsWritten, s.k, s.pcs[t].ver).version % 2 == 0 <==> s.k.unlocks != TWO63 - 1
    ensures s.k.unlocks == TWO63 - 1 ==> FinishAlone(AsWritten, s.k, s.pcs[t].ver).version == 1
    ensures FinishAlone(ResetReleases, s.k, s.pcs[t].ver).version % 2 == 0
  {
    hide FinishAlone;
    ResetAtUnlockNumber(AsWritten, s, t);
    assert LocalOk(s.k, s.pcs[t]) && s.k.version % 2 == 1 && s.k.version <= TOP;
    FinishAloneAt(AsWritten, s.k);
    FinishAloneAt(ResetReleases, s.k);
  }

  lemma FinishAloneAt(variant: Variant, k: Lk)
    requires k.version % 2 == 1 && k.version <= TOP
    ensures k.version < TOP ==> FinishAlone(variant, k, k.version).version == k.version + 1
    ensures k.version == TOP ==> FinishAlone(variant, k, k.version).version == if variant.AsWritten? then 1 else 0
  {}

  /** Odd counter, no owner: nothing can release the lock any more. */
  ghost predicate Orphaned(s: LS) {
    && s.k.version % 2 == 1
    && forall t :: 0 <= t < |s.pcs| ==> !Holding(s.pcs[t]) && (s.pcs[t].Cas? ==> s.pcs[t].ver % 2 == 0)
  }

  lemma {:induction false} OrphanedForever(tr: seq<LS>, j: nat, i: nat)
    requires j <= i < |tr| && Orphaned(tr[j]) && Steps(AsWritten, tr)
    ensures Orphaned(tr[i]) && tr[i].k == tr[j].k
  {
    if j < i {
      OrphanedForever(tr, j, i - 1);
      assert Next(AsWritten, tr[i - 1], tr[i - 1 + 1]);
    }
  }

  ghost predicate Steps(variant: Variant, tr: seq<LS>) {
    |tr| > 0 && forall i :: 0 <= i < |tr| - 1 ==> Next(variant, tr[i], tr[i + 1])
  }

  /** Between its reset and its increment, thread t apart, the other threads still exclude each other. */
  ghost predicate Pending(s: LS, t: nat) {
    t < |s.pcs| && s.pcs[t] == Faa && Exclusive(s.(pcs := s.pcs[t := Out]))
  }

  lemma StepPending(s: LS, s': LS, u: nat, t: nat)
    requires Pending(s, t) && u != t && StepBy(AsWritten, s, s', u) && s'.k.resets == s.k.resets
    ensures Pending(s', t)
  {
    var v, v' := s.(pcs := s.pcs[t := Out]), s'.(pcs := s'.pcs[t := Out]);
    assert v'.pcs == v.pcs[u := v'.pcs[u]];
    hide Exclusive, Move;
    StepExclusive(AsWritten, v, v', u);
  }

  lemma ResetPending(s: LS, s': LS, t: nat)
    requires Exclusive(s) && StepBy(AsWritten, s, s', t) && s'.k.resets != s.k.resets
    ensures Pending(s', t) && forall u :: 0 <= u < |s'.pcs| && s'.pcs[u] == Faa ==> u == t
  {
    assert LocalOk(s.k, s.pcs[t]);
    forall u | 0 <= u < |s.pcs| && u != t ensures !Holding(s.pcs[u]) && LocalOk(s'.k, s.pcs[u]) {
      assert LocalOk(s.k, s.pcs[u]);
    }
  }

  lemma {:induction false} RunPending(tr: seq<LS>, i: nat, t: nat)
    requires Steps(AsWritten, tr) && Inv(AsWritten, tr[0]) && tr[0].k.resets == 0
    requires i < |tr| && tr[i].k.resets == 1 && t < |tr[i].pcs| && tr[i].pcs[t] == Faa
    ensures Pending(tr[i], t)
  {
    hide Exclusive, Counted, Pending;
    var s, s' := tr[i - 1], tr[i];
    assert Next(AsWritten, tr[i - 1], tr[i - 1 + 1]);
    if s == s' {
      RunPending(tr, i - 1, t);
    } else {
      var u: nat :| StepBy(AsWritten, s, s', u);
      if s.k.resets == 1 {
        RunPending(tr, i - 1, t);
        StepPending(s, s', u, t);
      } else {
        StepsInv(tr, i - 1);
        ResetPending(s, s', u);
      }
    }
  }

  lemma {:induction false} StepsInv(tr: seq<LS>, i: nat)
    requires Steps(AsWritten, tr) && Inv(AsWritten, tr[0]) && i < |tr|
    ensures Inv(AsWritten, tr[i])
  {
    hide Inv;
    if i > 0 {
      StepsInv(tr, i - 1);
      assert Next(AsWritten, tr[i - 1], tr[i - 1 + 1]);
      StepInv(AsWritten, tr[i - 1], tr[i]);
    }
  }

  ghost predicate Owned(s: LS) {
    exists t :: 0 <= t < |s.pcs| && Holding(s.pcs[t])
  }

  /** No thread but t is between its winning compare-and-swap and its increment. */
  ghost predicate AloneAt(s: LS, t: nat) {
    forall u :: 0 <= u < |s.pcs| && u != t ==> !Holding(s.pcs[u])
  }

  /**
   As written, whatever the other threads did since the first reset, at the increment that follows it:
   if no other thread owns the lock, it ends odd with no owner, and in no continuation does any thread
   acquire it again; if another thread owns it, it ends even all the same.
   */
  lemma ResetLocksEveryoneOut(tr: seq<LS>, t: nat, i: nat)
    requires Steps(AsWritten, tr) && Inv(AsWritten, tr[0]) && tr[0].k.resets == 0
    requires i + 1 < |tr| && tr[i].k.resets == 1 && t < |tr[i].pcs| && tr[i].pcs[t] == Faa
    requires StepBy(AsWritten, tr[i], tr[i + 1], t)
    ensures AloneAt(tr[i], t) <==> Orphaned(tr[i + 1])
    ensures AloneAt(tr[i], t) ==> forall j :: i < j < |tr| ==> Orphaned(tr[j]) && tr[j].k == tr[i + 1].k
    ensures !AloneAt(tr[i], t) ==> tr[i + 1].k.version % 2 == 0 && Owned(tr[i + 1])
  {
    hide Inv, Next, Steps;
    RunPending(tr, i, t);
    FaaStep(tr[i], tr[i + 1], t);
    if AloneAt(tr[i], t) {
      forall j | i < j < |tr| ensures Orphaned(tr[j]) && tr[j].k == tr[i + 1].k {
        OrphanedForever(tr, i + 1, j);
      }
    }
  }

  lemma FaaStep(s: LS, s': LS, t: nat)
    requires Pending(s, t) && StepBy(AsWritten, s, s', t)
    ensures AloneAt(s, t) <==> Orphaned(s')
    ensures !AloneAt(s, t) ==> s'.k.version % 2 == 0 && Owned(s')
  {
    var v := s.(pcs := s.pcs[t := Out]);
    if AloneAt(s, t) {
      forall u | 0 <= u < |s'.pcs|
        ensures !Holding(s'.pcs[u]) && (s'.pcs[u].Cas? ==> s'.pcs[u].ver % 2 == 0)
      {
        assert LocalOk(v.k, v.pcs[u]);
      }
      assert forall u :: 0 <= u < |v.pcs| ==> !Holding(v.pcs[u]);
    } else {
      var u :| 0 <= u < |s.pcs| && u != t && Holding(s.pcs[u]);
      assert Holding(v.pcs[u]) && Holding(s'.pcs[u]);
    }
  }

  /** In the second case exclusion is gone: every thread outside the lock can own it too, two steps later. */
  lemma SecondOwner(variant: Variant, s: LS, u: nat, w: nat) returns (s1: LS, s2: LS)
    requires u < |s.pcs| && w < |s.pcs| && Holding(s.pcs[u]) && s.pcs[w] == Out && s.k.version % 2 == 0
    ensures StepBy(variant, s, s1, w) && StepBy(variant, s1, s2, w)
    ensures u != w && u < |s2.pcs| && w < |s2.pcs| && Holding(s2.pcs[u]) && Holding(s2.pcs[w])
    ensures s1 == s.(pcs := s.pcs[w := Cas(s.k.version)])
    ensures s2 == LS(s.k.(version := s.k.version + 1, acq := s.k.acq + 1), s1.pcs[w := Held])
  {
    s1 := s.(pcs := s.pcs[w := Cas(s.k.version)]);
    s2 := LS(TryCas(s.k, s.k.version).0, s1.pcs[w := Held]);
  }

  /**
   Readers at the first reset, and at every reset of the other variant: a snapshot taken before it, unless
   it is 0, is ahead of the counter, so that the assertion of read_unlock fails if the reader checks now.
   */
  lemma ResetFailsReaders(variant: Variant, s: LS, s': LS, t: nat, u: nat)
    requires Inv(variant, s) && (variant.ResetReleases? || s.k.resets == 0)
    requires StepBy(variant, s, s', t) && s'.k.resets != s.k.resets
    requires u < |s.pcs| && s.pcs[u].Reading?
    ensures s'.pcs[u] == s.pcs[u] && s'.k.version == 0
    ensures s.pcs[u].snap <= s'.k.version <==> s.pcs[u].snap == 0
    ensures s.pcs[u].snap > 0 ==> forall s'' :: !StepBy(variant, s', s'', u)
  {
    assert LocalOk(s.k, s.pcs[t]);
  }

  /** With the reset made the release, mutual exclusion holds in every run of any length. */
  lemma ResetAsReleaseKeepsExclusion(tr: seq<LS>, i: nat)
    requires Run(ResetReleases, tr) && i < |tr|
    ensures Exclusive(tr[i])
  {
    RunInv(ResetReleases, tr, i);
  }

  function AllOut(n: nat): seq<LPC> { seq(n, _ => Out) }

  /** Adds one step of thread t to a run. */
  lemma Extend(variant: Variant, tr: seq<LS>, s': LS, t: nat) returns (tr': seq<LS>)
    requires Run(variant, tr) && StepBy(variant, tr[|tr| - 1], s', t)
    ensures Run(variant, tr') && tr' == tr + [s']
  {
    tr' := tr + [s'];
    forall i | 0 <= i < |tr'| - 1 ensures Next(variant, tr'[i], tr'[i + 1]) {
      if i + 1 < |tr| {
        assert Next(variant, tr[i], tr[i + 1]);
      }
    }
  }

  /** Thread 0 acquires the lock from a state where every thread is out. */
  lemma ExtendAcquire(tr: seq<LS>, n: nat, k: Lk) returns (tr': seq<LS>)
    requires n > 0 && Run(AsWritten, tr) && tr[|tr| - 1] == LS(k, AllOut(n))
    requires k.version % 2 == 0
    ensures Run(AsWritten, tr')
    ensures tr'[|tr'| - 1] == LS(k.(version := k.version + 1, acq := k.acq + 1, unlocks := k.unlocks + 1),
                                 AllOut(n)[0 := Rel(k.version + 1)])
  {
    var k1 := k.(version := k.version + 1, acq := k.acq + 1);
    var pcs := AllOut(n);
    tr' := Extend(AsWritten, tr, LS(k, pcs[0 := Cas(k.version)]), 0);
    tr' := Extend(AsWritten, tr', LS(k1, pcs[0 := Held]), 0);
    tr' := Extend(AsWritten, tr', LS(k1.(unlocks := k1.unlocks + 1), pcs[0 := Rel(k1.version)]), 0);
  }

  /** Thread 0 can lock and unlock any number of times below 2^63 - 1. */
  lemma {:induction false} ReachRounds(n: nat, rounds: nat) returns (tr: seq<LS>)
    requires n > 0 && rounds < TWO63 - 1
    ensures Run(AsWritten, tr)
    ensures tr[|tr| - 1] == LS(Lk(2 * rounds, rounds, rounds, rounds, 0), AllOut(n))
  {
    if rounds == 0 {
      tr := [LS(Free, AllOut(n))];
    } else {
      tr := ReachRounds(n, rounds - 1);
      tr := ExtendAcquire(tr, n, tr[|tr| - 1].k);
      tr := Extend(AsWritten, tr, LS(Lk(2 * rounds, rounds, rounds, rounds, 0), AllOut(n)), 0);
    }
  }

  /**
   As written, a complete run of three threads, with the fewest unlocks that reach the branch, in which
   thread 1 acquires between the reset and the increment of thread 0: it ends with two owners.
   */
  lemma ResetCanBreakExclusion() returns (tr: seq<LS>)
    ensures Run(AsWritten, tr)
    ensures |tr| > 6 && tr[|tr| - 7].pcs == [Rel(TOP), Out, Out] && tr[|tr| - 7].k.resets == 0
    ensures tr[|tr| - 6].pcs == [Faa, Out, Out] && tr[|tr| - 4].pcs == [Faa, Held, Out]
    ensures tr[|tr| - 3].pcs == [Out, Held, Out] && tr[|tr| - 1].pcs == [Out, Held, Held]
    ensures tr[|tr| - 1].k.unlocks == TWO63 - 1
  {
    var n := TWO63 - 2;
    tr := ReachRounds(3, n);
    tr := ExtendAcquire(tr, 3, tr[|tr| - 1].k);
    assert AllOut(3) == [Out, Out, Out];
    tr := BreaksExclusion(tr, Lk(TOP, n + 1, n, n + 1, 0));
  }

  lemma BreaksExclusion(tr: seq<LS>, k: Lk) returns (tr': seq<LS>)
    requires Run(AsWritten, tr) && tr[|tr| - 1] == LS(k, [Rel(TOP), Out, Out]) && k.version == TOP
    ensures Run(AsWritten, tr') && |tr'| == |tr| + 6 && tr == tr'[..|tr|]
    ensures tr'[|tr'| - 6].pcs == [Faa, Out, Out] && tr'[|tr'| - 4].pcs == [Faa, Held, Out]
    ensures tr'[|tr'| - 3].pcs == [Out, Held, Out] && tr'[|tr'| - 1].pcs == [Out, Held, Held]
    ensures tr'[|tr'| - 1].k.unlocks == k.unlocks
  {
    var k0 := k.(version := 0, resets := k.resets + 1);
    var s0 := LS(k0, [Faa, Out, Out]);
    tr' := Extend(AsWritten, tr, s0, 0);
    var s1 := LS(k0, [Faa, Cas(0), Out]);
    tr' := Extend(AsWritten, tr', s1, 1);
    var k1 := k0.(version := 1, acq := k.acq + 1);
    tr' := Extend(AsWritten, tr', LS(k1, [Faa, Held, Out]), 1);
    var k2 := k1.(version := 2, rel := k.rel + 1);
    tr' := Extend(AsWritten, tr', LS(k2, [Out, Held, Out]), 0);
    hide Run;
    var s2, s3 := SecondOwner(AsWritten, LS(k2, [Out, Held, Out]), 1, 2);
    assert s2 == LS(k2, [Out, Held, Cas(2)]) && s3 == LS(k2.(version := 3, acq := k2.acq + 1), [Out, Held, Held]);
    tr' := Extend(AsWritten, tr', s2, 2);
    tr' := Extend(AsWritten, tr', s3, 2);
  }
}
