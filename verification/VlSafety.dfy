/** What every step of the version-locked table keeps, and how each step looks to the atomic table. */
module VlSafety {
  import opened Words
  import opened Assoc
  import opened Hash
  import opened LockMachine
  import opened VlMachine
  import A = AtomicTable

  // ----- the list in memory -----

  function Nxt(chain: seq<nat>, i: nat): nat { if i < |chain| then chain[i] else 0 }

  /** The chain is exactly what following next from head visits: distinct nodes, ending in NULL. */
  ghost predicate Linked(bk: Bkt) {
    && bk.head == Nxt(bk.chain, 0)
    && (forall i :: 0 <= i < |bk.chain| ==> LinkAt(bk, i))
    && (forall i, j :: 0 <= i < j < |bk.chain| ==> bk.chain[i] != bk.chain[j])
  }

  ghost predicate LinkAt(bk: Bkt, i: nat)
    requires i < |bk.chain|
  {
    bk.chain[i] != 0 && bk.chain[i] in bk.heap && bk.heap[bk.chain[i]].next == Nxt(bk.chain, i + 1)
  }

  /** Following next from a spells out exactly the pairs s. */
  ghost predicate Seg(heap: map<nat, Cell>, a: nat, s: seq<KV>)
    decreases |s|
  {
    if s == [] then a == 0
    else a != 0 && a in heap && KVAt(heap, a) == s[0] && Seg(heap, heap[a].next, s[1..])
  }

  lemma {:induction false} LinkedSeg(bk: Bkt, i: nat)
    requires Linked(bk) && i <= |bk.chain|
    ensures Seg(bk.heap, Nxt(bk.chain, i), Cont(bk)[i..])
    decreases |bk.chain| - i
  {
    if i < |bk.chain| {
      assert LinkAt(bk, i);
      LinkedSeg(bk, i + 1);
      assert Cont(bk)[i..][1..] == Cont(bk)[i + 1..];
    }
  }

  /** The memory determines the contents: the history variable chain adds nothing to it. */
  lemma {:induction false} SegUnique(heap: map<nat, Cell>, a: nat, s: seq<KV>, s': seq<KV>)
    requires Seg(heap, a, s) && Seg(heap, a, s')
    ensures s == s'
    decreases |s|
  {
    if s != [] {
      SegUnique(heap, heap[a].next, s[1..], s'[1..]);
      assert s == [s[0]] + s[1..] && s' == [s'[0]] + s'[1..];
    }
  }

  ghost predicate Grows(heap: map<nat, Cell>, heap': map<nat, Cell>) {
    forall a :: a in heap ==> a in heap' && heap'[a] == heap[a]
  }

  lemma {:induction false} SegGrows(heap: map<nat, Cell>, heap': map<nat, Cell>, a: nat, s: seq<KV>)
    requires Seg(heap, a, s) && Grows(heap, heap')
    ensures Seg(heap', a, s)
    decreases |s|
  {
    if s != [] { SegGrows(heap, heap', heap[a].next, s[1..]); }
  }

  // ----- the invariant -----

  ghost function LockView(s: VS, b: nat): LS
    requires b < |s.bks|
  {
    LS(s.bks[b].lk, seq(|s.ths|, t requires 0 <= t < |s.ths| => if s.ths[t].b == b then s.ths[t].l else Out))
  }

  /** Lock phase and operation fit the program counter. */
  ghost predicate Phase(th: VTh) {
    match th.pc
    case Idle(_) => th.l.Out?
    case GSnap => th.l.Out? && th.hist != [] && A.Last(th.hist).Get?
    case GHead | GKey(_) | GVal(_) | GNext(_) | GCheck(_) => th.l.Reading? && th.hist != [] && A.Last(th.hist).Get?
    case WLock => (th.l.Out? || th.l.Cas?) && th.hist != [] && !A.Last(th.hist).Get?
    case IAlloc | INext(_) | IPub(_, _) => th.l.Held? && th.hist != [] && A.Last(th.hist).Ins?
    case WUnlock => Holding(th.l) && th.hist != [] && !A.Last(th.hist).Get?
    case _ => th.l.Held? && th.hist != [] && A.Last(th.hist).Del?
  }

  /** A remove has reached chain[at] == curr, passing no node with its key. */
  ghost predicate WalkAt(bk: Bkt, key: u64, at: nat, curr: nat) {
    && at < |bk.chain| && bk.chain[at] == curr
    && forall j :: 0 <= j < at ==> Cont(bk)[j].key != key
  }

  function PrevOf(bk: Bkt, at: nat): nat { if 0 < at <= |bk.chain| then bk.chain[at - 1] else 0 }

  /** What the owner of the lock knows; in particular it never touches freed memory. */
  ghost predicate WriterOk(bk: Bkt, th: VTh)
    requires th.hist != []
  {
    var key := A.Last(th.hist).key;
    match th.pc
    case INext(a) => a != 0 && a !in bk.heap
    case IPub(a, nx) => a != 0 && a !in bk.heap && nx == bk.head
    case DKey(prev, curr) => WalkAt(bk, key, th.at, curr) && prev == PrevOf(bk, th.at)
    case DNext(curr) => WalkAt(bk, key, th.at, curr) && Cont(bk)[th.at].key != key
    case DLoad(prev, curr) => WalkAt(bk, key, th.at, curr) && prev == PrevOf(bk, th.at) && Cont(bk)[th.at].key == key
    case DUnlink(prev, curr, nx) =>
      && WalkAt(bk, key, th.at, curr) && prev == PrevOf(bk, th.at) && Cont(bk)[th.at].key == key
      && curr in bk.heap && nx == bk.heap[curr].next
    case DFree(curr) => curr in bk.heap && curr !in bk.chain
    case _ => true
  }

  predicate Sampled(pc: PC) { pc.GKey? || pc.GVal? || pc.GNext? || pc.GCheck? }

  /** No unlink has hit the bucket since this attempt read head->next. */
  ghost predicate Uncut(bk: Bkt, th: VTh) { th.seen == bk.cuts }

  /** An attempt on track: it answers for view, and what it has yet to walk is a tail of the current list. */
  ghost predicate ReaderOk(bk: Bkt, th: VTh)
    requires th.hist != []
  {
    var key := A.Last(th.hist).key;
    match th.pc
    case GKey(curr) => !th.wild && Ahead(bk, th, curr, key)
    case GVal(curr) => !th.wild && Ahead(bk, th, curr, key) && th.rest[0].key == key
    case GNext(curr) => !th.wild && Ahead(bk, th, curr, key) && th.rest[0].key != key
    case GCheck(val) => !th.wild && val == Lookup(th.view, key) && th.hops <= |th.view|
    case _ => true
  }

  ghost predicate Ahead(bk: Bkt, th: VTh, curr: nat, key: u64) {
    && th.rest != [] && TailAt(bk, curr, th.rest)
    && Lookup(th.view, key) == Lookup(th.rest, key)
    && Passed(th.view, th.hops, key) && th.rest == th.view[th.hops..]
  }

  /** None of the first n pairs has the key. */
  ghost predicate Passed(s: seq<KV>, n: nat, key: u64) {
    n <= |s| && forall j :: 0 <= j < n ==> s[j].key != key
  }

  /** s is the last part of the bucket's list, and starts at address a. */
  ghost predicate TailAt(bk: Bkt, a: nat, s: seq<KV>) {
    |s| <= |bk.chain| && a == Nxt(bk.chain, |bk.chain| - |s|) && s == Cont(bk)[|bk.chain| - |s|..]
  }

  /** The attempt's snapshot is still the counter. */
  ghost predicate Current(bk: Bkt, th: VTh) { th.l.Reading? && th.l.snap == bk.lk.version }

  /** Retries so far are paid for by changes of the counter. */
  ghost predicate Progress(bk: Bkt, th: VTh) {
    && (th.pc.GSnap? ==> th.first + th.tries <= bk.lk.version)
    && (th.l.Reading? ==> th.first + th.tries <= th.l.snap <= bk.lk.version)
  }

  ghost predicate ThOk(bk: Bkt, th: VTh) {
    && Phase(th) && Progress(bk, th)
    && (th.hist != [] ==> WriterOk(bk, th))
    && (th.pc.GHead? ==> !th.wild)
    && (Sampled(th.pc) ==> th.seen <= bk.cuts)
    && (Sampled(th.pc) && th.hist != [] && Uncut(bk, th) ==> ReaderOk(bk, th))
    && (Sampled(th.pc) && Current(bk, th) && th.l.snap % 2 == 0 ==> th.view == Cont(bk))
  }

  /** A remove of bucket b that has done its unlink still owns the lock. */
  ghost predicate Cutter(th: VTh, b: nat) {
    th.b == b && Holding(th.l) && th.hist != [] && A.Last(th.hist).Del? && (th.pc.DFree? || th.pc.WUnlock?)
  }

  ghost predicate HasCutter(s: VS, b: nat) {
    exists t :: 0 <= t < |s.ths| && Cutter(s.ths[t], b)
  }

  /** An attempt overtaken by an unlink is still current only while that remove owns the lock. */
  ghost predicate CutOk(s: VS, th: VTh)
    requires th.b < |s.bks|
  {
    Sampled(th.pc) && Current(s.bks[th.b], th) && !Uncut(s.bks[th.b], th) ==> HasCutter(s, th.b)
  }

  ghost predicate Placed(s: VS, th: VTh) {
    th.b < |s.bks| && (th.hist != [] ==> |s.bks| < TWO64 && th.b == BucketOf(A.Last(th.hist).key, |s.bks|))
  }

  ghost predicate Below(s: VS) {
    forall b :: 0 <= b < |s.bks| ==> s.bks[b].lk.unlocks < TWO63 - 1
  }

  ghost predicate Inv(s: VS) {
    && Below(s)
    && (forall b :: 0 <= b < |s.bks| ==> Linked(s.bks[b]) && LockMachine.Inv(AsWritten, LockView(s, b)))
    && (forall t :: 0 <= t < |s.ths| ==> Placed(s, s.ths[t]))
    && (forall t :: 0 <= t < |s.ths| ==> ThOk(s.bks[s.ths[t].b], s.ths[t]))
    && (forall t :: 0 <= t < |s.ths| ==> CutOk(s, s.ths[t]))
  }

  // ----- one step: the lock -----

  /** A step inside a bucket moves its lock as the lock allows, or leaves it alone. */
  lemma LockMove(bk: Bkt, th: VTh, bk': Bkt, th': VTh)
    requires Phase(th) && BucketMove(bk, th, bk', th')
    ensures LockMachine.Move(AsWritten, bk.lk, th.l, bk'.lk, th'.l) || (bk'.lk == bk.lk && th'.l == th.l)
    ensures th'.b == th.b && th'.hist == th.hist
  {}

  lemma StepView(s: VS, s': VS, t: nat, b: nat)
    requires VlMachine.StepBy(s, s', t) && b < |s.bks|
    requires Phase(s.ths[t]) && s.ths[t].b < |s.bks|
    ensures LockMachine.Next(AsWritten, LockView(s, b), LockView(s', b))
  {
    var v, v' := LockView(s, b), LockView(s', b);
    var th, th' := s.ths[t], s'.ths[t];
    assert v'.pcs == v.pcs[t := v'.pcs[t]];
    if s'.bks == s.bks && CallMove(s, th, th') {
      assert v'.pcs == v.pcs;
    } else {
      LockMove(s.bks[th.b], th, s'.bks[th.b], th');
      if b == th.b && (v'.k != v.k || v'.pcs[t] != v.pcs[t]) {
        assert LockMachine.StepBy(AsWritten, v, v', t);
      } else {
        assert v'.pcs == v.pcs;
      }
    }
  }

  /** A step of the table is at most one step of each bucket's lock. */
  lemma StepLock(s: VS, s': VS, t: nat, b: nat)
    requires Inv(s) && VlMachine.StepBy(s, s', t) && b < |s.bks|
    ensures LockMachine.Inv(AsWritten, LockView(s', b))
    ensures s'.bks[b].lk.unlocks < TWO63 - 1 ==> s.bks[b].lk.version <= s'.bks[b].lk.version
  {
    assert Placed(s, s.ths[t]) && ThOk(s.bks[s.ths[t].b], s.ths[t]);
    StepView(s, s', t, b);
    LockMachine.StepInv(AsWritten, LockView(s, b), LockView(s', b));
  }

  /** The facts about the lock that the list proofs use. */
  lemma LockFacts(s: VS, t: nat)
    requires Inv(s) && t < |s.ths|
    ensures var lk, l := s.bks[s.ths[t].b].lk, s.ths[t].l;
            (Holding(l) ==> lk.version % 2 == 1) && (l.Reading? ==> l.snap <= lk.version)
    ensures forall u :: 0 <= u < |s.ths| && u != t && s.ths[u].b == s.ths[t].b && Holding(s.ths[t].l) ==>
              !Holding(s.ths[u].l)
  {
    var v := LockView(s, s.ths[t].b);
    assert v.k.resets == 0;
    assert v.pcs[t] == s.ths[t].l && LocalOk(v.k, v.pcs[t]) && CountedAt(v.k, v.pcs[t]);
    forall u | 0 <= u < |s.ths| && u != t && s.ths[u].b == s.ths[t].b && Holding(s.ths[t].l)
      ensures !Holding(s.ths[u].l)
    {
      assert v.pcs[u] == s.ths[u].l;
    }
  }

  // ----- one step: the list -----

  /** Nothing has left the list: it is as it was, or longer in front. */
  ghost predicate Grown(bk: Bkt, bk': Bkt) {
    && |bk.chain| <= |bk'.chain|
    && bk.chain == bk'.chain[|bk'.chain| - |bk.chain|..]
    && Cont(bk) == Cont(bk')[|bk'.chain| - |bk.chain|..]
  }

  lemma GrownTail(bk: Bkt, bk': Bkt, a: nat, s: seq<KV>)
    requires Grown(bk, bk') && TailAt(bk, a, s)
    ensures TailAt(bk', a, s)
  {
    var d := |bk'.chain| - |bk.chain|;
    var p := |bk.chain| - |s|;
    assert Cont(bk')[d..][p..] == Cont(bk')[d + p..];
  }

  lemma PublishList(bk: Bkt, a: nat, c: Cell, bk': Bkt)
    requires Linked(bk) && a != 0 && a !in bk.heap && c.next == bk.head
    requires bk' == bk.(heap := bk.heap[a := c], head := a, chain := [a] + bk.chain)
    ensures Linked(bk') && Grown(bk, bk')
    ensures Cont(bk') == [KV(c.key, c.val)] + Cont(bk)
  {
    forall i | 0 <= i < |bk'.chain| ensures LinkAt(bk', i) {
      if i > 0 { assert LinkAt(bk, i - 1); }
    }
    forall i, j | 0 <= i < j < |bk'.chain| ensures bk'.chain[i] != bk'.chain[j] {
      assert LinkAt(bk, j - 1);
    }
    forall i | 0 <= i < |Cont(bk')| ensures Cont(bk')[i] == ([KV(c.key, c.val)] + Cont(bk))[i] {
      if i > 0 { assert LinkAt(bk, i - 1); }
    }
  }

  /** Only the next field of the node before position at may change, and it skips that position. */
  ghost predicate Skips(bk: Bkt, at: nat, bk': Bkt)
    requires at < |bk.chain|
  {
    && bk.chain[at] in bk.heap && bk'.chain == Without(bk.chain, at)
    && var nx := bk.heap[bk.chain[at]].next;
       var prev := PrevOf(bk, at);
       if prev == 0 then bk'.heap == bk.heap && bk'.head == nx
       else prev in bk.heap && bk'.heap == bk.heap[prev := bk.heap[prev].(next := nx)] && bk'.head == bk.head
  }

  lemma SkipLink(bk: Bkt, at: nat, bk': Bkt, i: nat)
    requires Linked(bk) && at < |bk.chain| && Skips(bk, at, bk') && i < |bk.chain| - 1
    ensures |bk'.chain| == |bk.chain| - 1 && LinkAt(bk', i)
    ensures bk'.chain[i] == bk.chain[if i < at then i else i + 1]
    ensures Cont(bk')[i] == Cont(bk)[if i < at then i else i + 1]
  {
    WithoutElements(bk.chain, at);
    hide Without, Cont;
    assert LinkAt(bk, at);
    if at > 0 { assert LinkAt(bk, at - 1); }
    if i < at { assert LinkAt(bk, i); } else { assert LinkAt(bk, i + 1); }
    ContAt(bk, if i < at then i else i + 1);
    ContAt(bk', i);
  }

  lemma ContAt(bk: Bkt, i: nat)
    requires i < |bk.chain|
    ensures |Cont(bk)| == |bk.chain| && Cont(bk)[i] == KVAt(bk.heap, bk.chain[i])
  {}

  lemma SkipList(bk: Bkt, at: nat, bk': Bkt)
    requires Linked(bk) && at < |bk.chain| && Skips(bk, at, bk')
    ensures Linked(bk') && Cont(bk') == Without(Cont(bk), at)
    ensures bk.chain[at] in bk'.heap && bk.chain[at] !in bk'.chain
  {
    WithoutElements(bk.chain, at);
    WithoutElements(Cont(bk), at);
    SkipHead(bk, at, bk');
    hide Without, Skips, LinkAt;
    forall i | 0 <= i < |bk.chain| - 1
      ensures LinkAt(bk', i) && bk'.chain[i] == bk.chain[if i < at then i else i + 1]
      ensures Cont(bk')[i] == Cont(bk)[if i < at then i else i + 1]
    {
      SkipLink(bk, at, bk', i);
    }
    assert Cont(bk') == Without(Cont(bk), at);
  }

  lemma SkipHead(bk: Bkt, at: nat, bk': Bkt)
    requires Linked(bk) && at < |bk.chain| && Skips(bk, at, bk')
    ensures |bk'.chain| == |bk.chain| - 1 && bk'.chain == Without(bk.chain, at)
    ensures bk'.head == Nxt(bk'.chain, 0) && bk.chain[at] in bk'.heap
  {
    WithoutElements(bk.chain, at);
    hide Without;
    assert LinkAt(bk, at);
    if at > 0 { assert LinkAt(bk, at - 1); }
  }

  lemma UnlinkList(bk: Bkt, at: nat, key: u64, bk': Bkt)
    requires Linked(bk) && at < |bk.chain| && WalkAt(bk, key, at, bk.chain[at]) && Cont(bk)[at].key == key
    requires Skips(bk, at, bk')
    ensures Linked(bk') && Cont(bk') == RemoveFirst(Cont(bk), key)
    ensures bk.chain[at] in bk'.heap && bk.chain[at] !in bk'.chain
  {
    SkipList(bk, at, bk');
    hide Linked, Skips;
    assert FirstAt(Cont(bk), key, at);
    RemoveFirstAt(Cont(bk), key, at);
  }

  lemma FreeList(bk: Bkt, a: nat, bk': Bkt)
    requires Linked(bk) && a !in bk.chain && bk' == bk.(heap := bk.heap - {a})
    ensures Linked(bk') && Cont(bk') == Cont(bk) && Grown(bk, bk')
  {
    forall i | 0 <= i < |bk'.chain| ensures LinkAt(bk', i) {
      assert LinkAt(bk, i);
    }
    forall i | 0 <= i < |bk.chain| ensures Cont(bk')[i] == Cont(bk)[i] {
      assert LinkAt(bk, i);
    }
  }

  lemma SameList(bk: Bkt, bk': Bkt)
    requires Linked(bk) && bk' == bk.(lk := bk'.lk)
    ensures Linked(bk') && Cont(bk') == Cont(bk) && Grown(bk, bk')
  {
    forall i | 0 <= i < |bk'.chain| ensures LinkAt(bk', i) {
      assert LinkAt(bk, i);
    }
  }

  /** What a write step does to the contents of its bucket. */
  ghost function Written(bk: Bkt, th: VTh): seq<KV>
    requires th.hist != []
  {
    var op := A.Last(th.hist);
    if th.pc.IPub? && op.Ins? then [KV(op.key, op.val)] + Cont(bk)
    else if th.pc.DUnlink? then RemoveFirst(Cont(bk), op.key)
    else Cont(bk)
  }

  predicate Rewrites(pc: PC) { pc.IPub? || pc.DUnlink? || pc.DFree? }

  /** Every other step leaves the bucket's list alone. */
  lemma QuietMove(bk: Bkt, th: VTh, bk': Bkt, th': VTh)
    requires BucketMove(bk, th, bk', th') && !Rewrites(th.pc)
    ensures bk' == bk.(lk := bk'.lk)
  {}

  lemma PublishMove(bk: Bkt, th: VTh, bk': Bkt, th': VTh)
    requires Linked(bk) && th.hist != [] && WriterOk(bk, th) && WriteMove(bk, th, bk', th') && th.pc.IPub?
    ensures Linked(bk') && Cont(bk') == Written(bk, th) && bk'.cuts == bk.cuts && Grown(bk, bk')
  {
    hide Linked, Grown, Cont;
    var op := A.Last(th.hist);
    PublishList(bk, th.pc.a, Cell(op.key, op.val, th.pc.nx), bk');
  }

  lemma UnlinkMove(bk: Bkt, th: VTh, bk': Bkt, th': VTh)
    requires Linked(bk) && th.hist != [] && WriterOk(bk, th) && WriteMove(bk, th, bk', th') && th.pc.DUnlink?
    ensures Linked(bk') && Cont(bk') == Written(bk, th) && bk'.cuts == bk.cuts + 1
  {
    hide Linked, Without, RemoveFirst, HasKey;
    UnlinkList(bk, th.at, A.Last(th.hist).key, bk');
  }

  lemma FreeMove(bk: Bkt, th: VTh, bk': Bkt, th': VTh)
    requires Linked(bk) && th.hist != [] && WriterOk(bk, th) && WriteMove(bk, th, bk', th') && th.pc.DFree?
    ensures Linked(bk') && Cont(bk') == Written(bk, th) && bk'.cuts == bk.cuts && Grown(bk, bk')
  {
    hide Linked, Grown, Cont;
    FreeList(bk, th.pc.curr, bk');
  }

  lemma RewriteIsWrite(bk: Bkt, th: VTh, bk': Bkt, th': VTh)
    requires BucketMove(bk, th, bk', th') && Rewrites(th.pc)
    ensures th.hist != [] && WriteMove(bk, th, bk', th')
  {
    hide WriteMove;
  }

  lemma StepList(bk: Bkt, th: VTh, bk': Bkt, th': VTh)
    requires Linked(bk) && ThOk(bk, th) && BucketMove(bk, th, bk', th')
    ensures Linked(bk') && Cont(bk') == Written(bk, th)
    ensures bk' == bk.(lk := bk'.lk) || (Holding(th.l) && bk'.lk == bk.lk)
    ensures if th.pc.DUnlink? then bk'.cuts == bk.cuts + 1 else bk'.cuts == bk.cuts && Grown(bk, bk')
  {
    hide Linked, Grown, Cont, LookupMove, LockingMove, WriteMove, Phase, WriterOk, ReaderOk;
    if Rewrites(th.pc) {
      RewriteIsWrite(bk, th, bk', th');
      WritePhase(bk, th, bk', th');
      match th.pc
      case IPub(_, _) => PublishMove(bk, th, bk', th');
      case DUnlink(_, _, _) => UnlinkMove(bk, th, bk', th');
      case DFree(_) => FreeMove(bk, th, bk', th');
    } else {
      QuietMove(bk, th, bk', th');
      SameList(bk, bk');
    }
  }

  // ----- one step: the thread that takes it -----

  /** A lookup step in an attempt that is on track stays on track. */
  lemma ReaderStep(bk: Bkt, th: VTh, th': VTh)
    requires Linked(bk) && th.hist != [] && LookupMove(bk, th, bk, th')
    requires if th.pc.GHead? then !th.wild else Sampled(th.pc) && ReaderOk(bk, th)
    ensures ReaderOk(bk, th')
  {
    match th.pc
    case GHead =>
      assert Cont(bk)[0..] == Cont(bk);
      assert |bk.chain| > 0 ==> LinkAt(bk, 0) && TailAt(bk, bk.head, th'.rest);
    case GKey(curr) => assert LinkAt(bk, |bk.chain| - |th.rest|);
    case GVal(curr) => assert LinkAt(bk, |bk.chain| - |th.rest|);
    case GNext(curr) => NextTail(bk, th, th');
    case _ =>
  }

  lemma NextTail(bk: Bkt, th: VTh, th': VTh)
    requires Linked(bk) && th.hist != [] && th.pc.GNext? && ReaderOk(bk, th) && LookupMove(bk, th, bk, th')
    ensures ReaderOk(bk, th')
  {
    var p := |bk.chain| - |th.rest|;
    assert LinkAt(bk, p);
    assert th'.rest == Cont(bk)[p..][1..] == Cont(bk)[p + 1..];
    assert Lookup(th.rest, A.Last(th.hist).key) == Lookup(th'.rest, A.Last(th.hist).key);
    if p + 1 < |bk.chain| {
      assert LinkAt(bk, p + 1);
      assert TailAt(bk, bk.chain[p + 1], th'.rest);
    } else {
      assert th'.rest == [];
    }
  }

  lemma LookupSelf(bk: Bkt, th: VTh, th': VTh)
    requires Linked(bk) && ThOk(bk, th) && th.hist != [] && LookupMove(bk, th, bk, th')
    ensures ThOk(bk, th')
  {
    hide Linked, Ahead, TailAt;
    if th.pc.GHead? || (Sampled(th.pc) && Uncut(bk, th)) {
      ReaderStep(bk, th, th');
    }
  }

  lemma WriteSelf(bk: Bkt, th: VTh, bk': Bkt, th': VTh)
    requires Linked(bk) && ThOk(bk, th) && th.hist != [] && WriteMove(bk, th, bk', th')
    ensures ThOk(bk', th')
  {
    WritePhase(bk, th, bk', th');
    hide WriteMove, Linked, WriterOk, Phase;
    WriterStep(bk, th, bk', th');
  }

  /** A write step is taken by the owner of the lock and leaves the lock alone. */
  lemma WritePhase(bk: Bkt, th: VTh, bk': Bkt, th': VTh)
    requires Phase(th) && th.hist != [] && WriteMove(bk, th, bk', th')
    ensures Phase(th') && th'.l == th.l == Held && bk'.lk == bk.lk && th'.hist == th.hist
    ensures !th'.pc.GSnap?
  {}

  lemma WriterStep(bk: Bkt, th: VTh, bk': Bkt, th': VTh)
    requires Linked(bk) && Phase(th) && th.hist != [] && WriterOk(bk, th) && WriteMove(bk, th, bk', th')
    requires th'.hist == th.hist
    ensures WriterOk(bk', th')
  {
    match th.pc
    case DHead => if bk.head != 0 { assert WalkAt(bk, A.Last(th.hist).key, 0, bk.head); }
    case DKey(prev, curr) => assert LinkAt(bk, th.at);
    case DNext(curr) =>
      assert LinkAt(bk, th.at);
      if th'.pc.DKey? { assert WalkAt(bk, A.Last(th.hist).key, th'.at, th'.pc.curr); }
    case DLoad(prev, curr) => assert LinkAt(bk, th.at);
    case DUnlink(prev, curr, nx) => UnlinkList(bk, th.at, A.Last(th.hist).key, bk');
    case _ =>
  }

  lemma StepSelf(bk: Bkt, th: VTh, bk': Bkt, th': VTh)
    requires Linked(bk) && ThOk(bk, th) && BucketMove(bk, th, bk', th')
    ensures ThOk(bk', th')
  {
    hide WriteMove, Linked;
    if LookupMove(bk, th, bk', th') {
      LookupSelf(bk, th, th');
    } else if WriteMove(bk, th, bk', th') {
      WriteSelf(bk, th, bk', th');
    } else {
      assert LockingMove(bk, th, bk', th');
    }
  }

  // ----- one step: every other thread in the bucket -----

  /**
   A reader or waiting writer survives another thread's step: either the list did not change, or a
   writer changed it, and then the counter is odd and the list has grown or lost a node.
   */
  lemma StepOther(bk: Bkt, bk': Bkt, u: VTh)
    requires ThOk(bk, u) && bk.lk.version <= bk'.lk.version
    requires
      || bk' == bk.(lk := bk'.lk)
      || (!Holding(u.l) && bk.lk == bk'.lk && bk.lk.version % 2 == 1 &&
          (bk'.cuts == bk.cuts + 1 || (bk'.cuts == bk.cuts && Grown(bk, bk'))))
    ensures ThOk(bk', u)
  {
    if bk' == bk.(lk := bk'.lk) {
      assert Cont(bk') == Cont(bk);
    } else if u.hist != [] && Uncut(bk', u) && (u.pc.GKey? || u.pc.GVal? || u.pc.GNext?) {
      hide Cont, Nxt;
      assert Ahead(bk, u, u.pc.curr, A.Last(u.hist).key);
      GrownTail(bk, bk', u.pc.curr, u.rest);
      hide TailAt, Passed, Grown;
    } else {
      hide Cont, Ahead, Grown;
    }
  }

  lemma SameCall(bk: Bkt, th: VTh, bk': Bkt, th': VTh)
    requires BucketMove(bk, th, bk', th')
    ensures th'.b == th.b && th'.hist == th.hist != []
  {}

  lemma CallInv(s: VS, s': VS, t: nat)
    requires Inv(s) && VlMachine.StepBy(s, s', t)
    requires s'.bks == s.bks && CallMove(s, s.ths[t], s'.ths[t])
    ensures forall u :: 0 <= u < |s'.ths| ==> Placed(s', s'.ths[u]) && ThOk(s'.bks[s'.ths[u].b], s'.ths[u])
  {
    forall u | 0 <= u < |s'.ths|
      ensures Placed(s', s'.ths[u]) && ThOk(s'.bks[s'.ths[u].b], s'.ths[u])
    {
      if u != t { assert s'.ths[u] == s.ths[u] && Placed(s, s.ths[u]); }
    }
  }

  lemma MoveInv(s: VS, s': VS, t: nat)
    requires Inv(s) && VlMachine.StepBy(s, s', t) && Below(s')
    requires s'.bks == s.bks[s.ths[t].b := s'.bks[s.ths[t].b]]
    requires BucketMove(s.bks[s.ths[t].b], s.ths[t], s'.bks[s.ths[t].b], s'.ths[t])
    ensures forall u :: 0 <= u < |s'.ths| ==> Placed(s', s'.ths[u]) && ThOk(s'.bks[s'.ths[u].b], s'.ths[u])
    ensures forall b :: 0 <= b < |s'.bks| ==> Linked(s'.bks[b])
  {
    hide LookupMove, LockingMove, WriteMove, CallMove, ThOk, Linked, Grows, LockMachine.Inv;
    var th, th' := s.ths[t], s'.ths[t];
    var bk, bk' := s.bks[th.b], s'.bks[th.b];
    SameCall(bk, th, bk', th');
    assert Placed(s, th) && ThOk(bk, th);
    StepList(bk, th, bk', th');
    StepSelf(bk, th, bk', th');
    StepLock(s, s', t, th.b);
    LockFacts(s, t);
    forall u | 0 <= u < |s'.ths|
      ensures Placed(s', s'.ths[u]) && ThOk(s'.bks[s'.ths[u].b], s'.ths[u])
    {
      assert Placed(s, s.ths[u]) && ThOk(s.bks[s.ths[u].b], s.ths[u]);
      if u != t && s.ths[u].b == th.b {
        StepOther(bk, bk', s.ths[u]);
      }
    }
  }

  // ----- one step: attempts overtaken by an unlink -----

  /** What a thread in write_unlock knows below the reset point. */
  lemma ReleaseFacts(s: VS, t: nat)
    requires Inv(s) && t < |s.ths|
    ensures var lk, l := s.bks[s.ths[t].b].lk, s.ths[t].l;
            !l.Faa? && (l.Rel? ==> l.ver == lk.version < TOP)
  {
    hide ThOk, Linked, CutOk;
    assert Placed(s, s.ths[t]);
    var v := LockView(s, s.ths[t].b);
    assert v.k.resets == 0 && v.pcs[t] == s.ths[t].l;
    assert LocalOk(v.k, v.pcs[t]) && CountedAt(v.k, v.pcs[t]);
  }

  /** The remove that has unlinked keeps the lock until it moves the counter. */
  lemma CutterMove(bk: Bkt, th: VTh, bk': Bkt, th': VTh, b: nat)
    requires BucketMove(bk, th, bk', th') && Cutter(th, b)
    requires !th.l.Faa? && (th.l.Rel? ==> th.l.ver == bk.lk.version < TOP)
    ensures Cutter(th', b) || bk'.lk.version > bk.lk.version
  {}

  lemma StepCutter(s: VS, s': VS, t: nat, b: nat)
    requires Inv(s) && VlMachine.StepBy(s, s', t) && b < |s.bks| && HasCutter(s, b)
    ensures |s'.bks| == |s.bks| && (HasCutter(s', b) || s'.bks[b].lk.version > s.bks[b].lk.version)
  {
    hide BucketMove, CallMove, Inv;
    var h :| 0 <= h < |s.ths| && Cutter(s.ths[h], b);
    if h == t {
      OwnerMoves(s, s', t);
      ReleaseFacts(s, t);
      CutterMove(s.bks[b], s.ths[t], s'.bks[b], s'.ths[t], b);
    }
    if Cutter(s'.ths[h], b) {
      assert HasCutter(s', b);
    }
  }

  /** A thread that owns a lock is inside a call. */
  lemma OwnerMoves(s: VS, s': VS, t: nat)
    requires Inv(s) && VlMachine.StepBy(s, s', t) && Holding(s.ths[t].l)
    ensures s.ths[t].b < |s.bks| == |s'.bks| && s'.bks == s.bks[s.ths[t].b := s'.bks[s.ths[t].b]]
    ensures BucketMove(s.bks[s.ths[t].b], s.ths[t], s'.bks[s.ths[t].b], s'.ths[t])
  {
    hide BucketMove;
    assert ThOk(s.bks[s.ths[t].b], s.ths[t]) && Phase(s.ths[t]);
  }

  /** A lookup that goes on in its attempt was uncut before the step, or reads head->next in it. */
  lemma CutSelf(bk: Bkt, th: VTh, bk': Bkt, th': VTh)
    requires BucketMove(bk, th, bk', th') && Sampled(th'.pc) && !Uncut(bk', th')
    ensures bk' == bk && th'.b == th.b && th'.l == th.l && Sampled(th.pc) && !Uncut(bk, th)
  {}

  /** The unlink itself makes its thread the cutter. */
  lemma CutMade(bk: Bkt, th: VTh, bk': Bkt, th': VTh)
    requires Phase(th) && BucketMove(bk, th, bk', th')
    ensures bk'.cuts != bk.cuts ==> Cutter(th', th.b)
    ensures th'.b == th.b
  {}

  lemma CutOther(s: VS, s': VS, t: nat, u: nat)
    requires Inv(s) && VlMachine.StepBy(s, s', t) && Below(s') && u < |s.ths| && u != t
    ensures CutOk(s', s'.ths[u])
  {
    hide BucketMove, CallMove;
    var r, b := s.ths[u], s.ths[u].b;
    assert s'.ths[u] == r && Placed(s, r) && ThOk(s.bks[b], r) && CutOk(s, r);
    assert Placed(s, s.ths[t]) && ThOk(s.bks[s.ths[t].b], s.ths[t]);
    StepLock(s, s', t, b);
    hide Inv;
    if s'.bks == s.bks && CallMove(s, s.ths[t], s'.ths[t]) {
    } else if s.ths[t].b == b {
      CutMade(s.bks[b], s.ths[t], s'.bks[b], s'.ths[t]);
    }
    if HasCutter(s, b) {
      StepCutter(s, s', t, b);
    }
  }

  lemma StepCut(s: VS, s': VS, t: nat, u: nat)
    requires Inv(s) && VlMachine.StepBy(s, s', t) && Below(s') && u < |s.ths|
    requires s'.ths[u].b < |s'.bks| == |s.bks|
    ensures CutOk(s', s'.ths[u])
  {
    hide BucketMove;
    var b := s'.ths[u].b;
    if u != t {
      CutOther(s, s', t, u);
    } else if Sampled(s'.ths[u].pc) && !Uncut(s'.bks[b], s'.ths[u]) &&
              !(s'.bks == s.bks && CallMove(s, s.ths[t], s'.ths[t])) {
      var th := s.ths[u];
      hide CallMove;
      SameCall(s.bks[th.b], th, s'.bks[th.b], s'.ths[u]);
      CutSelf(s.bks[th.b], th, s'.bks[th.b], s'.ths[u]);
      assert CutOk(s, th);
      if HasCutter(s, b) {
        StepCutter(s, s', t, b);
      }
    }
  }

  lemma StepInv(s: VS, s': VS, t: nat)
    requires Inv(s) && VlMachine.StepBy(s, s', t) && Below(s')
    ensures Inv(s')
  {
    forall b | 0 <= b < |s.bks| ensures LockMachine.Inv(AsWritten, LockView(s', b)) {
      StepLock(s, s', t, b);
    }
    if s'.bks == s.bks && CallMove(s, s.ths[t], s'.ths[t]) {
      CallInv(s, s', t);
    } else {
      MoveInv(s, s', t);
    }
    forall u | 0 <= u < |s'.ths| ensures CutOk(s', s'.ths[u]) {
      StepCut(s, s', t, u);
    }
  }
}
