/**
 Lookups that a remove overtakes without their ever reading freed memory: such a lookup answers for the
 list as it was when it read head->next, or for the list as it is when it returns.
 */
module VlCrossed {
  import opened Words
  import opened Assoc
  import opened LockMachine
  import opened VlMachine
  import opened VlSafety
  import opened VlTheorems
  import A = AtomicTable

  // ----- where an overtaken lookup can be -----

  /** An answer of the list at the head read, or of the list now. */
  ghost predicate Fits(bk: Bkt, view: seq<KV>, key: u64, v: u64) {
    v == Lookup(view, key) || v == Lookup(Cont(bk), key)
  }

  /** The node curr is followed by the list from position p on, and they hold the right answer. */
  ghost predicate SpotAt(bk: Bkt, view: seq<KV>, curr: nat, key: u64, p: nat) {
    && p <= |bk.chain| && curr in bk.heap && bk.heap[curr].next == Nxt(bk.chain, p)
    && Fits(bk, view, key, Lookup([KVAt(bk.heap, curr)] + Cont(bk)[p..], key))
  }

  /** While curr is not freed, it is a node of the list or the one just unlinked, which still points into it. */
  ghost predicate Spot(bk: Bkt, view: seq<KV>, curr: nat, key: u64) {
    curr in bk.heap ==> exists p: nat :: SpotAt(bk, view, curr, key, p)
  }

  ghost predicate Crossing(bk: Bkt, th: VTh)
    requires th.hist != []
  {
    var key := A.Last(th.hist).key;
    match th.pc
    case GKey(curr) => Spot(bk, th.view, curr, key)
    case GVal(curr) => Spot(bk, th.view, curr, key) && (curr in bk.heap ==> bk.heap[curr].key == key)
    case GNext(curr) => Spot(bk, th.view, curr, key) && (curr in bk.heap ==> bk.heap[curr].key != key)
    case GCheck(val) => Fits(bk, th.view, key, val)
    case _ => true
  }

  /** Reading on along the list. */
  lemma SpotNext(bk: Bkt, view: seq<KV>, curr: nat, key: u64, p: nat)
    requires Linked(bk) && SpotAt(bk, view, curr, key, p) && bk.heap[curr].key != key
    ensures bk.heap[curr].next == 0 ==> Fits(bk, view, key, UINT64_MAX)
    ensures bk.heap[curr].next != 0 ==> Spot(bk, view, bk.heap[curr].next, key)
  {
    var rest := Cont(bk)[p..];
    assert ([KVAt(bk.heap, curr)] + rest)[1..] == rest;
    if p < |bk.chain| {
      assert LinkAt(bk, p);
      var next := bk.chain[p];
      assert [KVAt(bk.heap, next)] + Cont(bk)[p + 1..] == rest;
      assert SpotAt(bk, view, next, key, p + 1);
    } else {
      assert rest == [] && Lookup([KVAt(bk.heap, curr)] + rest, key) == Lookup(rest, key);
    }
  }

  lemma CrossRead(bk: Bkt, th: VTh, th': VTh)
    requires Linked(bk) && th.hist != [] && LookupMove(bk, th, bk, th') && Sampled(th.pc) && Sampled(th'.pc)
    requires Crossing(bk, th) && !th'.wild
    ensures th'.hist == th.hist && Crossing(bk, th')
  {
    hide Linked, Cont;
    var key := A.Last(th.hist).key;
    ContSize(bk);
    if th.pc.GVal? || th.pc.GNext? {
      var p: nat :| SpotAt(bk, th.view, th.pc.curr, key, p);
      if th.pc.GNext? {
        SpotNext(bk, th.view, th.pc.curr, key, p);
      } else {
        assert ([KVAt(bk.heap, th.pc.curr)] + Cont(bk)[p..])[0] == KVAt(bk.heap, th.pc.curr);
      }
    }
  }

  /** A free of another node, or a step of the lock, leaves an overtaken lookup where it is. */
  lemma CrossFree(bk: Bkt, bk': Bkt, u: VTh)
    requires u.hist != [] && Crossing(bk, u) && bk'.chain == bk.chain && Cont(bk') == Cont(bk)
    requires forall a :: a in bk'.heap ==> a in bk.heap && bk'.heap[a] == bk.heap[a]
    ensures Crossing(bk', u)
  {
    hide Cont;
    if (u.pc.GKey? || u.pc.GVal? || u.pc.GNext?) && u.pc.curr in bk'.heap {
      var p: nat :| SpotAt(bk, u.view, u.pc.curr, A.Last(u.hist).key, p);
      assert SpotAt(bk', u.view, u.pc.curr, A.Last(u.hist).key, p);
    }
  }

  // ----- the unlink that overtakes -----

  lemma {:induction false} PassedLookup(s: seq<KV>, n: nat, key: u64)
    requires Passed(s, n, key)
    ensures Lookup(s, key) == Lookup(s[n..], key)
  {
    if n > 0 {
      assert s[1..][n - 1..] == s[n..];
      PassedLookup(s[1..], n - 1, key);
    } else {
      assert s[0..] == s;
    }
  }

  /** A reader at position q of the list when the node at position m is taken out of it. */
  lemma CutSpot(bk: Bkt, bk': Bkt, m: nat, q: nat, key: u64)
    requires Linked(bk) && Linked(bk') && m < |bk.chain| && q < |bk.chain|
    requires bk'.chain == Without(bk.chain, m) && Cont(bk') == Without(Cont(bk), m)
    requires Passed(Cont(bk), q, key)
    requires bk.chain[q] in bk.heap && bk.chain[q] in bk'.heap
    requires KVAt(bk'.heap, bk.chain[q]) == KVAt(bk.heap, bk.chain[q])
    requires q == m ==> bk'.heap[bk.chain[q]].next == bk.heap[bk.chain[q]].next
    ensures Spot(bk', Cont(bk), bk.chain[q], key)
  {
    HeadKey(bk, q);
    WithoutElements(bk.chain, m);
    WithoutElements(Cont(bk), m);
    assert LinkAt(bk, q);
    if q > m {
      assert LinkAt(bk', q - 1);
      hide Linked, Cont, Without;
      SpotBehind(bk, bk', m, q, key);
      assert SpotAt(bk', Cont(bk), bk.chain[q], key, q);
    } else if q == m {
      hide Linked, Cont, Without;
      SpotBehind(bk, bk', m, q, key);
      assert SpotAt(bk', Cont(bk), bk.chain[q], key, m);
    } else {
      assert LinkAt(bk', q);
      hide Linked, Cont, Without;
      SpotAhead(bk, bk', m, q, key);
      assert SpotAt(bk', Cont(bk), bk.chain[q], key, q + 1);
    }
  }

  /** At the node taken out or past it, what lies ahead is what lay ahead before. */
  lemma SpotBehind(bk: Bkt, bk': Bkt, m: nat, q: nat, key: u64)
    requires m <= q < |Cont(bk)| && Cont(bk') == Without(Cont(bk), m) && Passed(Cont(bk), q, key)
    ensures q <= |Cont(bk')| && Fits(bk', Cont(bk), key, Lookup([Cont(bk)[q]] + Cont(bk')[q..], key))
  {
    WithoutElements(Cont(bk), m);
    PassedLookup(Cont(bk), q, key);
    hide Cont, Without, Lookup;
    assert [Cont(bk)[q]] + Cont(bk')[q..] == Cont(bk)[q..];
  }

  /** Before it, what lies ahead is what the new list has there. */
  lemma SpotAhead(bk: Bkt, bk': Bkt, m: nat, q: nat, key: u64)
    requires q < m < |Cont(bk)| && Cont(bk') == Without(Cont(bk), m) && Passed(Cont(bk), q, key)
    ensures q + 1 <= |Cont(bk')| && Fits(bk', Cont(bk), key, Lookup([Cont(bk)[q]] + Cont(bk')[q + 1..], key))
  {
    WithoutElements(Cont(bk), m);
    PassedLookup(Cont(bk'), q, key);
    hide Cont, Without, Lookup;
    assert [Cont(bk)[q]] + Cont(bk')[q + 1..] == Cont(bk')[q..];
  }

  /** What the unlink does to memory: one next field, not that of the node it takes out. */
  lemma UnlinkHeap(bk: Bkt, w: VTh, bk': Bkt, w': VTh)
    requires Linked(bk) && w.hist != [] && WriterOk(bk, w) && WriteMove(bk, w, bk', w') && w.pc.DUnlink?
    ensures w.at < |bk.chain| && bk'.chain == Without(bk.chain, w.at) && Linked(bk')
    ensures Cont(bk') == Without(Cont(bk), w.at)
    ensures forall a :: a in bk.heap ==> a in bk'.heap && KVAt(bk'.heap, a) == KVAt(bk.heap, a)
    ensures bk.chain[w.at] in bk'.heap && bk.chain[w.at] in bk.heap
    ensures bk'.heap[bk.chain[w.at]].next == bk.heap[bk.chain[w.at]].next
  {
    var key := A.Last(w.hist).key;
    assert LinkAt(bk, w.at);
    if w.at > 0 { assert LinkAt(bk, w.at - 1); }
    UnlinkList(bk, w.at, key, bk');
    assert FirstAt(Cont(bk), key, w.at);
    RemoveFirstAt(Cont(bk), key, w.at);
  }

  /** An attempt on track whose view is the list is at position hops of it. */
  lemma AtHops(bk: Bkt, u: VTh)
    requires Linked(bk) && u.hist != [] && Sampled(u.pc) && !u.pc.GCheck? && ReaderOk(bk, u) && u.view == Cont(bk)
    ensures u.hops < |bk.chain| == |Cont(bk)| && u.pc.curr == bk.chain[u.hops]
    ensures Passed(Cont(bk), u.hops, A.Last(u.hist).key)
    ensures u.pc.GVal? ==> Cont(bk)[u.hops].key == A.Last(u.hist).key
    ensures u.pc.GNext? ==> Cont(bk)[u.hops].key != A.Last(u.hist).key
  {
    ContSize(bk);
    hide Linked, Cont;
  }

  lemma CrossCut(bk: Bkt, w: VTh, bk': Bkt, w': VTh, u: VTh)
    requires Linked(bk) && w.hist != [] && WriterOk(bk, w) && WriteMove(bk, w, bk', w') && w.pc.DUnlink?
    requires u.hist != [] && Sampled(u.pc) && ReaderOk(bk, u) && u.view == Cont(bk)
    ensures Crossing(bk', u)
  {
    UnlinkHeap(bk, w, bk', w');
    if u.pc.GCheck? {
      hide Linked, WriteMove, WriterOk, Cont, Spot;
    } else {
      AtHops(bk, u);
      hide Linked, WriteMove, WriterOk, Cont, Spot, ReaderOk, Passed, Without;
      HeadKey(bk, u.hops);
      CutSpot(bk, bk', w.at, u.hops, A.Last(u.hist).key);
    }
  }

  lemma ContSize(bk: Bkt)
    ensures |Cont(bk)| == |bk.chain|
  {}

  lemma HeadKey(bk: Bkt, q: nat)
    requires Linked(bk) && q < |bk.chain|
    ensures |Cont(bk)| == |bk.chain| && bk.chain[q] in bk.heap && Cont(bk)[q] == KVAt(bk.heap, bk.chain[q])
  {
    assert LinkAt(bk, q);
  }

  // ----- every step -----

  /** What is true of an attempt whose snapshot is still the counter. */
  ghost predicate Tracked(s: VS, th: VTh)
    requires th.b < |s.bks|
  {
    Sampled(th.pc) && th.hist != [] && Current(s.bks[th.b], th) ==>
      && (Uncut(s.bks[th.b], th) && !Calm(s, th.b) ==> th.view == Cont(s.bks[th.b]))
      && (!Uncut(s.bks[th.b], th) && !th.wild ==> Crossing(s.bks[th.b], th))
  }

  ghost predicate AllTracked(s: VS) {
    forall u :: 0 <= u < |s.ths| ==> s.ths[u].b < |s.bks| && Tracked(s, s.ths[u])
  }

  /** While the counter stays, no remove comes to own the lock. */
  lemma MoveCalm(bk: Bkt, th: VTh, bk': Bkt, th': VTh, b: nat)
    requires Phase(th) && BucketMove(bk, th, bk', th') && bk'.lk.version == bk.lk.version && Removing(th', b)
    ensures Removing(th, b)
  {}

  lemma StaysCalm(s: VS, s': VS, t: nat, b: nat)
    requires VlSafety.Inv(s) && VlMachine.StepBy(s, s', t) && b < |s.bks| == |s'.bks|
    requires s'.bks[b].lk.version == s.bks[b].lk.version && Calm(s, b)
    ensures Calm(s', b)
  {
    assert Placed(s, s.ths[t]) && ThOk(s.bks[s.ths[t].b], s.ths[t]);
    hide BucketMove, VlSafety.Inv, Phase;
    forall x | 0 <= x < |s'.ths| ensures !Removing(s'.ths[x], b) {
      assert !Removing(s.ths[x], b);
      if x == t && Removing(s'.ths[t], b) && !(s'.bks == s.bks && CallMove(s, s.ths[t], s'.ths[t])) {
        SameCall(s.bks[s.ths[t].b], s.ths[t], s'.bks[s.ths[t].b], s'.ths[t]);
        MoveCalm(s.bks[b], s.ths[t], s'.bks[b], s'.ths[t], b);
      }
    }
  }

  /** The lookup's own step. */
  lemma SelfTracked(s: VS, s': VS, t: nat)
    requires VlSafety.Inv(s) && VlMachine.StepBy(s, s', t) && AllTracked(s) && VlSafety.Inv(s')
    requires Sampled(s'.ths[t].pc)
    ensures Tracked(s', s'.ths[t])
  {
    var th, th' := s.ths[t], s'.ths[t];
    StepSample(s, s', t, t);
    assert Placed(s, th) && Linked(s.bks[th.b]) && Tracked(s, th) && Phase(th) by {
      assert ThOk(s.bks[th.b], th);
    }
    hide VlSafety.Inv, AllTracked, Linked, Cont, Calm, Crossing, LookupMove, LockingMove, WriteMove, CallMove;
    LookupStep(s, s', t);
    if Sampled(th.pc) {
      SampledStep(s.bks[th.b], th, th');
      OthersCalm(s, s', t);
      if Current(s.bks[th.b], th) && !Uncut(s.bks[th.b], th) && !th'.wild {
        CrossRead(s.bks[th.b], th, th');
      }
    }
  }

  /** A thread that reads on in an attempt takes a lookup step in its bucket. */
  lemma LookupStep(s: VS, s': VS, t: nat)
    requires VlMachine.StepBy(s, s', t) && s.ths[t].b < |s.bks| && Sampled(s'.ths[t].pc)
    requires Sampled(s.ths[t].pc) || s.ths[t].pc.GHead?
    ensures s.ths[t].hist != [] && s'.bks == s.bks
    ensures LookupMove(s.bks[s.ths[t].b], s.ths[t], s.bks[s.ths[t].b], s'.ths[t])
  {}

  lemma SampledStep(bk: Bkt, th: VTh, th': VTh)
    requires th.hist != [] && LookupMove(bk, th, bk, th') && Sampled(th.pc) && Sampled(th'.pc)
    ensures th'.l == th.l && th'.b == th.b && (th.wild ==> th'.wild)
  {}

  /** A lookup's step does not change who owns its lock. */
  lemma OthersCalm(s: VS, s': VS, t: nat)
    requires t < |s.ths| == |s'.ths| && s'.ths == s.ths[t := s'.ths[t]] && s'.bks == s.bks
    requires s.ths[t].b < |s.bks| && Phase(s.ths[t]) && Sampled(s.ths[t].pc) && s'.ths[t].l == s.ths[t].l
    ensures Calm(s, s.ths[t].b) ==> Calm(s', s.ths[t].b)
  {
    if Calm(s, s.ths[t].b) {
      forall x | 0 <= x < |s'.ths| ensures !Removing(s'.ths[x], s.ths[t].b) {
        assert !Removing(s.ths[x], s.ths[t].b);
      }
    }
  }

  /** Another thread's step in the same bucket, while the counter stays. */
  lemma OtherTracked(s: VS, s': VS, t: nat, u: nat)
    requires VlSafety.Inv(s) && VlMachine.StepBy(s, s', t) && AllTracked(s) && VlSafety.Inv(s')
    requires u < |s.ths| && u != t
    ensures s'.ths[u].b < |s'.bks| && Tracked(s', s'.ths[u])
  {
    var r, b := s.ths[u], s.ths[u].b;
    assert s'.ths[u] == r && Placed(s, r) && ThOk(s.bks[b], r) && CutOk(s, r) && Tracked(s, r);
    assert Placed(s, s.ths[t]);
    StepLock(s, s', t, b);
    hide BucketMove, CallMove, AllTracked, VlSafety.Inv, Linked, Cont, Calm, Crossing, Phase, WriterOk, ReaderOk;
    if Sampled(r.pc) && r.hist != [] && Current(s'.bks[b], r) {
      assert s'.bks[b].lk.version == s.bks[b].lk.version;
      if Calm(s, b) { StaysCalm(s, s', t, b); }
      if s'.bks[b] != s.bks[b] {
        BucketStep(s, s', t, b);
        BucketTracked(s, s', t, u);
      }
    }
  }

  lemma BucketStep(s: VS, s': VS, t: nat, b: nat)
    requires VlMachine.StepBy(s, s', t) && s.ths[t].b < |s.bks| && b < |s.bks| == |s'.bks| && s'.bks[b] != s.bks[b]
    ensures s.ths[t].b == b && BucketMove(s.bks[b], s.ths[t], s'.bks[b], s'.ths[t])
  {
    hide BucketMove;
  }

  /** The thread that owns the lock is the remove that owns it, if one does, and the one that has unlinked. */
  lemma OnlyOwner(s: VS, t: nat, b: nat)
    requires VlSafety.Inv(s) && t < |s.ths| && s.ths[t].b == b < |s.bks| && Holding(s.ths[t].l)
    ensures Calm(s, b) || Removing(s.ths[t], b)
    ensures HasCutter(s, b) ==> Cutter(s.ths[t], b)
  {
    LockFacts(s, t);
    hide VlSafety.Inv;
  }

  lemma UnlinkerOwns(s: VS, t: nat)
    requires VlSafety.Inv(s) && t < |s.ths| && s.ths[t].pc.DUnlink?
    ensures !Calm(s, s.ths[t].b)
  {
    assert ThOk(s.bks[s.ths[t].b], s.ths[t]);
    assert Removing(s.ths[t], s.ths[t].b);
  }

  /** Another thread rewrites the list. Calm says that this thread is not a remove. */
  lemma RewriteTracked(bk: Bkt, w: VTh, bk': Bkt, w': VTh, r: VTh, calm: bool)
    requires Linked(bk) && w.hist != [] && WriterOk(bk, w) && WriteMove(bk, w, bk', w') && Rewrites(w.pc)
    requires calm || A.Last(w.hist).Del?
    requires w.pc.DUnlink? ==> !calm
    requires Sampled(r.pc) && r.hist != [] && r.seen <= bk.cuts
    requires if Uncut(bk, r) then ReaderOk(bk, r) && (!calm ==> r.view == Cont(bk))
             else w.pc.DFree? && (!r.wild ==> Crossing(bk, r))
    ensures Uncut(bk', r) && !calm ==> r.view == Cont(bk')
    ensures !Uncut(bk', r) && !r.wild ==> Crossing(bk', r)
  {
    hide Linked, Cont, Crossing, WriterOk, ReaderOk, Grown;
    match w.pc
    case IPub(_, _) => PublishMove(bk, w, bk', w');
    case DUnlink(_, _, _) =>
      UnlinkMove(bk, w, bk', w');
      CrossCut(bk, w, bk', w', r);
    case DFree(_) =>
      FreeMove(bk, w, bk', w');
      if !Uncut(bk, r) && !r.wild { CrossFree(bk, bk', r); }
  }

  /** What the attempt and the writer know before a rewrite. */
  lemma RewriteFacts(s: VS, t: nat, u: nat)
    requires VlSafety.Inv(s) && t < |s.ths| && u < |s.ths| && s.ths[u].b == s.ths[t].b < |s.bks|
    requires Rewrites(s.ths[t].pc) && s.ths[t].hist != [] && Holding(s.ths[t].l)
    requires Sampled(s.ths[u].pc) && s.ths[u].hist != [] && Current(s.bks[s.ths[u].b], s.ths[u])
    requires Tracked(s, s.ths[u]) && CutOk(s, s.ths[u])
    ensures var b, w, r := s.ths[t].b, s.ths[t], s.ths[u];
            var bk := s.bks[b];
            && Linked(bk) && WriterOk(bk, w) && r.seen <= bk.cuts
            && (Calm(s, b) || A.Last(w.hist).Del?) && (w.pc.DUnlink? ==> !Calm(s, b))
            && (if Uncut(bk, r) then ReaderOk(bk, r) && (!Calm(s, b) ==> r.view == Cont(bk))
                else w.pc.DFree? && (!r.wild ==> Crossing(bk, r)))
  {
    var b, w, r := s.ths[t].b, s.ths[t], s.ths[u];
    assert ThOk(s.bks[b], w) && ThOk(s.bks[b], r) && Linked(s.bks[b]);
    OnlyOwner(s, t, b);
    if w.pc.DUnlink? { UnlinkerOwns(s, t); }
    hide VlSafety.Inv, Linked, Cont, Crossing, WriterOk, ReaderOk, Calm, HasCutter;
  }

  lemma BucketTracked(s: VS, s': VS, t: nat, u: nat)
    requires VlSafety.Inv(s) && t < |s.ths| == |s'.ths| && u < |s.ths| && u != t
    requires s.ths[u].b == s.ths[t].b < |s.bks| == |s'.bks|
    requires BucketMove(s.bks[s.ths[t].b], s.ths[t], s'.bks[s.ths[t].b], s'.ths[t])
    requires s'.bks[s.ths[t].b].lk.version == s.bks[s.ths[t].b].lk.version
    requires Sampled(s.ths[u].pc) && s.ths[u].hist != [] && Current(s.bks[s.ths[u].b], s.ths[u])
    requires Tracked(s, s.ths[u]) && CutOk(s, s.ths[u])
    ensures var bk', r := s'.bks[s.ths[t].b], s.ths[u];
            && (Uncut(bk', r) && !Calm(s, r.b) ==> r.view == Cont(bk'))
            && (!Uncut(bk', r) && !r.wild ==> Crossing(bk', r))
  {
    var b, w, r := s.ths[t].b, s.ths[t], s.ths[u];
    var bk, bk' := s.bks[b], s'.bks[b];
    assert Linked(bk) && Phase(w) by { assert ThOk(bk, w); }
    hide VlSafety.Inv, Linked, Cont, Crossing, BucketMove, WriteMove, Phase, WriterOk, ReaderOk, Calm, CutOk;
    if Rewrites(w.pc) {
      RewriteIsWrite(bk, w, bk', s'.ths[t]);
      WritePhase(bk, w, bk', s'.ths[t]);
      RewriteFacts(s, t, u);
      hide Tracked;
      RewriteTracked(bk, w, bk', s'.ths[t], r, Calm(s, b));
    } else {
      QuietMove(bk, w, bk', s'.ths[t]);
      SameList(bk, bk');
      if !Uncut(bk, r) && !r.wild { CrossFree(bk, bk', r); }
    }
  }

  lemma StepTracked(s: VS, s': VS, t: nat)
    requires VlSafety.Inv(s) && VlMachine.StepBy(s, s', t) && AllTracked(s) && VlSafety.Inv(s')
    ensures AllTracked(s')
  {
    hide Tracked;
    forall u | 0 <= u < |s'.ths| ensures s'.ths[u].b < |s'.bks| && Tracked(s', s'.ths[u]) {
      assert Placed(s', s'.ths[u]);
      hide VlSafety.Inv, VlMachine.StepBy;
      StepThread(s, s', t);
      if u != t {
        OtherTracked(s, s', t, u);
      } else if Sampled(s'.ths[u].pc) {
        SelfTracked(s, s', t);
      } else {
        NotSampled(s', s'.ths[u]);
      }
    }
  }

  lemma NotSampled(s: VS, th: VTh)
    requires th.b < |s.bks| && !Sampled(th.pc)
    ensures Tracked(s, th)
  {}

  lemma InitTracked(s: VS)
    requires VlMachine.Init(s)
    ensures AllTracked(s)
  {
    hide Tracked;
    forall u | 0 <= u < |s.ths| ensures s.ths[u].b < |s.bks| && Tracked(s, s.ths[u]) {
      NotSampled(s, s.ths[u]);
    }
  }

  lemma {:induction false} RunTracked(tr: seq<VS>, i: nat)
    requires VlMachine.Run(tr) && VlTheorems.BelowReset(tr) && i < |tr|
    ensures AllTracked(tr[i])
  {
    hide VlMachine.StepBy, VlSafety.Inv, AllTracked, VlMachine.Init;
    VlTheorems.RunInv(tr, i);
    if i == 0 {
      InitTracked(tr[0]);
    } else {
      RunTracked(tr, i - 1);
      VlTheorems.RunInv(tr, i - 1);
      var t := Stepper(tr, i - 1);
      StepTracked(tr[i - 1], tr[i], t);
    }
  }

  /**
   Reading freed memory is the only hazard: in any run below the reset point, a lookup whose validated
   attempt read none answers for its bucket's list at an instant j of its own call, which is its last
   read of head->next or its return, whatever removes did in between.
   */
  lemma OnlyFreedReadsErr(tr: seq<VS>, i: nat, t: nat) returns (j: nat)
    requires VlMachine.Run(tr) && VlTheorems.BelowReset(tr) && ReturnsAt(tr, i, t) && !tr[i].ths[t].wild
    ensures j <= i && t < |tr[j].ths| && tr[j].ths[t].hist == tr[i].ths[t].hist != []
    ensures tr[j].ths[t].pc.GHead? || j == i
    ensures forall m :: j < m <= i ==> t < |tr[m].ths| && Sampled(tr[m].ths[t].pc)
    ensures tr[i].ths[t].b < |tr[j].bks|
    ensures tr[i + 1].ths[t].pc.res
         == A.Val(Lookup(Cont(tr[j].bks[tr[i].ths[t].b]), A.Last(tr[i].ths[t].hist).key))
  {
    hide Cont, VlMachine.StepBy, VlSafety.Inv;
    ReturnStep(tr, i, t);
    var th := tr[i].ths[t];
    var bk := tr[i].bks[th.b];
    if Uncut(bk, th) {
      j := UncutLookupLinearizes(tr, i, t);
    } else {
      RunTracked(tr, i);
      assert Tracked(tr[i], th) && Crossing(bk, th);
      if th.pc.val == Lookup(th.view, A.Last(th.hist).key) {
        j := HeadRead(tr, i, t);
      } else {
        j := i;
      }
    }
  }
}
