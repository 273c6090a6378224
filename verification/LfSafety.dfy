/** What every step of the lock-free table keeps. */
module LfSafety {
  import opened Words
  import opened Assoc
  import opened Hash
  import opened Sums
  import opened VlMachine
  import opened VlSafety
  import opened LfMachine
  import A = AtomicTable

  /** a is what b was before some inserts. */
  ghost predicate Suffix(a: seq<KV>, b: seq<KV>) {
    |a| <= |b| && b[|b| - |a|..] == a
  }

  lemma SuffixTrans(a: seq<KV>, b: seq<KV>, c: seq<KV>)
    requires Suffix(a, b) && Suffix(b, c)
    ensures Suffix(a, c)
  {
    assert c[|c| - |a|..] == c[|c| - |b|..][|b| - |a|..];
  }

  predicate Inserting(pc: LPc) { pc.STag? || pc.SNext? || pc.SCas? }

  predicate Walking(pc: LPc) { pc.LKey? || pc.LVal? || pc.LNext? || pc.LCheck? }

  ghost predicate PhaseLf(th: LTh) {
    && (Inserting(th.pc) || th.pc.SAlloc? || th.pc.SRet? ==> th.hist != [] && A.Last(th.hist).Ins?)
    && (Walking(th.pc) || th.pc.LTag? || th.pc.LHead? || th.pc.LRet? ==> th.hist != [] && A.Last(th.hist).Get?)
  }

  /**
   An inserter owns its unpublished node, and on each list its failures and commits together are no more
   than the nodes of the list: every failure is paid for by another thread's commit to that list.
   */
  ghost predicate InserterOk(s: LS, th: LTh)
    requires th.b < |s.bks|
  {
    var bk := s.bks[th.b];
    && (Inserting(th.pc) ==> th.node in s.alloc && th.node !in s.heap && th.node != 0)
    && |th.fails| == |th.own| == |s.bks|
    && (forall b :: 0 <= b < |s.bks| ==> th.fails[b] + th.own[b] <= |s.bks[b].cont|)
    && (th.pc.SNext? || th.pc.SCas? ==>
          && th.fails[th.b] + th.own[th.b] <= th.len <= |bk.cont|
          && (|bk.cont| == th.len ==> bk.tag == th.pc.tag && (th.pc.SCas? ==> bk.next == th.pc.nx)))
  }

  ghost predicate AheadLf(heap: map<nat, Cell>, th: LTh, curr: nat, key: u64) {
    && th.rest != [] && Seg(heap, curr, th.rest)
    && Lookup(th.view, key) == Lookup(th.rest, key)
    && (HasKey(th.view, key) ==> HasKey(th.rest, key))
    && Passed(th.view, th.hops, key) && th.rest == th.view[th.hops..]
  }

  /** A lookup answers for view, the contents at its last read of head->next. */
  ghost predicate ReaderOkLf(heap: map<nat, Cell>, th: LTh)
    requires th.hist != []
  {
    var key := A.Last(th.hist).key;
    match th.pc
    case LKey(curr) => AheadLf(heap, th, curr, key)
    case LVal(curr) => AheadLf(heap, th, curr, key) && th.rest[0].key == key
    case LNext(curr) => AheadLf(heap, th, curr, key) && th.rest[0].key != key
    case LCheck => th.hops <= |th.view| && th.lin && !HasKey(th.view, key) && Lookup(th.view, key) == UINT64_MAX
    case LRet(val) => th.hops <= |th.view| && val == Lookup(th.view, key)
    case _ => true
  }

  /** The list only grows in front of what a lookup has seen. */
  ghost predicate ViewsOk(bk: Head, th: LTh) {
    && (Walking(th.pc) ==> Suffix(th.view, bk.cont))
    && (th.lin && (th.pc.LHead? || Walking(th.pc)) ==> Suffix(th.mark, bk.cont) && th.init == |th.mark| % TWO64)
    && (th.lin && Walking(th.pc) ==> Suffix(th.mark, th.view))
  }

  ghost predicate ThreadOkLf(s: LS, th: LTh) {
    && th.b < |s.bks| && (th.hist != [] ==> |s.bks| < TWO64 && th.b == BucketOf(A.Last(th.hist).key, |s.bks|))
    && (!th.pc.Ready? ==> th.hist != [])
    && PhaseLf(th) && InserterOk(s, th) && ViewsOk(s.bks[th.b], th)
    && (th.hist != [] ==> ReaderOkLf(s.heap, th))
  }

  /** The list in memory is exactly the commits, newest first, and the tag counts them modulo 2^64. */
  ghost predicate ListOk(heap: map<nat, Cell>, bk: Head) {
    Seg(heap, bk.next, bk.cont) && bk.tag == |bk.cont| % TWO64
  }

  function At(counts: seq<nat>, b: nat): int { if b < |counts| then counts[b] else 0 }

  /** Every thread's commits to list b. */
  ghost function Owns(ths: seq<LTh>, b: nat): seq<int> {
    seq(|ths|, t requires 0 <= t < |ths| => At(ths[t].own, b))
  }

  /** Every thread's failures on list b. */
  ghost function Fails(ths: seq<LTh>, b: nat): seq<int> {
    seq(|ths|, t requires 0 <= t < |ths| => At(ths[t].fails, b))
  }

  ghost predicate Inv(s: LS) {
    && s.heap.Keys <= s.alloc
    && (forall b :: 0 <= b < |s.bks| ==> ListOk(s.heap, s.bks[b]) && |s.bks[b].cont| == Sum(Owns(s.ths, b)))
    && (forall t :: 0 <= t < |s.ths| ==> ThreadOkLf(s, s.ths[t]))
    && (forall t, u :: 0 <= t < u < |s.ths| && Inserting(s.ths[t].pc) && Inserting(s.ths[u].pc) ==>
          s.ths[t].node != s.ths[u].node)
  }

  // ----- one step -----

  /** What a step may do to the shared state: nothing, allocate, or commit one insert. */
  ghost predicate Commits(s: LS, th: LTh, s': LS) {
    && th.hist != [] && th.b < |s.bks| && A.Last(th.hist).Ins? && th.pc.SCas?
    && s.bks[th.b].tag == th.pc.tag && s.bks[th.b].next == th.pc.nx
    && s'.heap == s.heap[th.node := Cell(A.Last(th.hist).key, A.Last(th.hist).val, th.pc.nx)]
    && s'.alloc == s.alloc
    && s'.bks == s.bks[th.b := Head((th.pc.tag + 1) % TWO64, th.node,
                                    [KV(A.Last(th.hist).key, A.Last(th.hist).val)] + s.bks[th.b].cont)]
  }

  ghost predicate Silent(s: LS, s': LS) {
    s'.heap == s.heap && s'.bks == s.bks && s.alloc <= s'.alloc
  }

  /** A compare-and-swap that wins. */
  predicate Wins(th: LTh, th': LTh) { th.pc.SCas? && th'.pc.SRet? }

  lemma StepKinds(s: LS, s': LS, t: nat)
    requires LfMachine.StepBy(s, s', t)
    ensures var th, th' := s.ths[t], s'.ths[t];
            if Wins(th, th') then Commits(s, th, s') && th'.own == Bump(th.own, th.b)
            else Silent(s, s') && th'.own == th.own
    ensures |s'.bks| == |s.bks|
  {}

  lemma CommitLists(s: LS, s': LS, t: nat, b: nat)
    requires Inv(s) && t < |s.ths| && Commits(s, s.ths[t], s') && b < |s.bks|
    ensures ListOk(s'.heap, s'.bks[b]) && Grows(s.heap, s'.heap) && Suffix(s.bks[b].cont, s'.bks[b].cont)
  {
    var th := s.ths[t];
    assert ThreadOkLf(s, th) && ListOk(s.heap, s.bks[b]);
    SegGrows(s.heap, s'.heap, s.bks[b].next, s.bks[b].cont);
    if b == th.b {
      var cont' := s'.bks[b].cont;
      assert cont'[1..] == s.bks[b].cont;
      assert Seg(s'.heap, th.node, cont');
      TagNext(|s.bks[b].cont|);
    }
  }

  lemma TagNext(n: nat)
    ensures (n % TWO64 + 1) % TWO64 == (n + 1) % TWO64
  {}

  lemma CommitInserter(s: LS, th: LTh, s': LS, o: LTh)
    requires Commits(s, th, s') && o.b < |s.bks| && InserterOk(s, o)
    requires Inserting(o.pc) ==> o.node != th.node
    ensures InserterOk(s', o)
  {
    forall b | 0 <= b < |s.bks| ensures |s.bks[b].cont| <= |s'.bks[b].cont| {}
  }

  /** Any other thread survives a commit. */
  lemma CommitOther(s: LS, s': LS, t: nat, u: nat)
    requires Inv(s) && t < |s.ths| && u < |s.ths| && u != t && Commits(s, s.ths[t], s')
    ensures ThreadOkLf(s', s.ths[u])
  {
    var th, o := s.ths[t], s.ths[u];
    assert ThreadOkLf(s, th) && ThreadOkLf(s, o);
    assert |s'.bks| == |s.bks| && (Inserting(o.pc) ==> o.node != th.node);
    CommitLists(s, s', t, o.b);
    CommitInserter(s, th, s', o);
    hide Inv, Commits, InserterOk, ViewsOk, ReaderOkLf, ListOk, Grows, Suffix, BucketOf;
    CommitReader(s.heap, s'.heap, s.bks[o.b], s'.bks[o.b], o);
  }

  lemma CommitReader(heap: map<nat, Cell>, heap': map<nat, Cell>, bk: Head, bk': Head, o: LTh)
    requires Grows(heap, heap') && Suffix(bk.cont, bk'.cont) && ViewsOk(bk, o)
    requires o.hist != [] ==> ReaderOkLf(heap, o)
    ensures ViewsOk(bk', o) && (o.hist != [] ==> ReaderOkLf(heap', o))
  {
    if o.pc.LKey? || o.pc.LVal? || o.pc.LNext? {
      if o.hist != [] { SegGrows(heap, heap', o.pc.curr, o.rest); }
    }
    if Walking(o.pc) { SuffixTrans(o.view, bk.cont, bk'.cont); }
    if o.lin && (o.pc.LHead? || Walking(o.pc)) { SuffixTrans(o.mark, bk.cont, bk'.cont); }
  }

  lemma InsertLocal(s: LS, th: LTh, s': LS, th': LTh)
    requires ThreadOkLf(s, th) && th.hist != [] && InsertMove(s, th, s', th') && s.heap.Keys <= s.alloc
    ensures InserterOk(s', th') && PhaseLf(th') && ViewsOk(s'.bks[th'.b], th')
    ensures th'.hist == th.hist && th'.b == th.b && |s'.bks| == |s.bks|
    ensures ReaderOkLf(s'.heap, th')
  {}

  lemma InsertSelf(s: LS, s': LS, t: nat)
    requires Inv(s) && LfMachine.StepBy(s, s', t)
    requires s.ths[t].hist != [] && InsertMove(s, s.ths[t], s', s'.ths[t])
    ensures ThreadOkLf(s', s'.ths[t])
  {
    assert ThreadOkLf(s, s.ths[t]);
    hide InsertMove, LookupMoveLf, LfMachine.CallMove, InserterOk, PhaseLf, ViewsOk, ReaderOkLf, BucketOf;
    InsertLocal(s, s.ths[t], s', s'.ths[t]);
  }

  /** Reading on: the key of the node just passed is not the one sought. */
  lemma PassNode(view: seq<KV>, rest: seq<KV>, key: u64)
    requires rest != [] && rest[0].key != key && Lookup(view, key) == Lookup(rest, key)
    requires HasKey(view, key) ==> HasKey(rest, key)
    ensures Lookup(view, key) == Lookup(Tail(rest), key)
    ensures HasKey(view, key) ==> HasKey(Tail(rest), key)
  {
    if HasKey(view, key) {
      var i :| 0 <= i < |rest| && rest[i].key == key;
      assert Tail(rest)[i - 1].key == key;
    }
  }

  lemma ReaderStepLf(s: LS, th: LTh, s': LS, th': LTh)
    requires th.hist != [] && th.b < |s.bks| && ReaderOkLf(s.heap, th) && ViewsOk(s.bks[th.b], th)
    requires ListOk(s.heap, s.bks[th.b]) && LookupMoveLf(s, th, s', th') && A.Last(th.hist).Get?
    ensures th'.hist == th.hist && th'.b == th.b && ReaderOkLf(s.heap, th') && ViewsOk(s.bks[th.b], th')
  {
    hide ReaderOkLf, ViewsOk, ListOk, LookupMoveLf;
    if th.pc.LNext? {
      ReaderNext(s, th, s', th');
    } else if th.pc.LHead? {
      ReaderHead(s, th, s', th');
    } else {
      ReaderRest(s, th, s', th');
    }
  }

  lemma ReaderRest(s: LS, th: LTh, s': LS, th': LTh)
    requires th.hist != [] && th.b < |s.bks| && ReaderOkLf(s.heap, th) && ViewsOk(s.bks[th.b], th)
    requires LookupMoveLf(s, th, s', th') && !th.pc.LNext? && !th.pc.LHead?
    requires ListOk(s.heap, s.bks[th.b])
    ensures th'.hist == th.hist && th'.b == th.b && ReaderOkLf(s.heap, th') && ViewsOk(s.bks[th.b], th')
  {
    if th.pc.LTag? {
      ReaderTag(s, th, s', th');
    } else {
      ReaderViews(s, th, s', th');
      ReaderNode(s, th, s', th');
    }
  }

  lemma ReaderViews(s: LS, th: LTh, s': LS, th': LTh)
    requires th.hist != [] && th.b < |s.bks| && ViewsOk(s.bks[th.b], th) && LookupMoveLf(s, th, s', th')
    requires !th.pc.LNext? && !th.pc.LHead? && !th.pc.LTag?
    ensures th'.hist == th.hist && th'.b == th.b && ViewsOk(s.bks[th.b], th')
  {
    hide Suffix;
  }

  lemma ReaderNode(s: LS, th: LTh, s': LS, th': LTh)
    requires th.hist != [] && th.b < |s.bks| && ReaderOkLf(s.heap, th) && LookupMoveLf(s, th, s', th')
    requires !th.pc.LNext? && !th.pc.LHead? && !th.pc.LTag?
    ensures th'.hist == th.hist && ReaderOkLf(s.heap, th')
  {
    if th.pc.LKey? || th.pc.LVal? {
      SegFirst(s.heap, th.pc.curr, th.rest);
    }
    hide Seg, HasKey;
  }

  lemma ReaderTag(s: LS, th: LTh, s': LS, th': LTh)
    requires th.hist != [] && th.b < |s.bks| && th.pc.LTag? && LookupMoveLf(s, th, s', th')
    requires ListOk(s.heap, s.bks[th.b])
    ensures th'.hist == th.hist && th'.b == th.b && ReaderOkLf(s.heap, th') && ViewsOk(s.bks[th.b], th')
  {
    hide Seg;
    var cont := s.bks[th.b].cont;
    assert cont[|cont| - |cont|..] == cont;
  }

  lemma SegFirst(heap: map<nat, Cell>, a: nat, s: seq<KV>)
    requires s != [] && Seg(heap, a, s)
    ensures a in heap && s[0] == KV(heap[a].key, heap[a].val)
  {}

  lemma ReaderHead(s: LS, th: LTh, s': LS, th': LTh)
    requires th.hist != [] && th.b < |s.bks| && th.pc.LHead? && LookupMoveLf(s, th, s', th')
    requires ListOk(s.heap, s.bks[th.b]) && ViewsOk(s.bks[th.b], th)
    ensures th'.hist == th.hist && th'.b == th.b && ReaderOkLf(s.heap, th') && ViewsOk(s.bks[th.b], th')
  {
    var cont := s.bks[th.b].cont;
    assert cont[0..] == cont && cont[|cont| - |cont|..] == cont;
    assert cont == [] <==> s.bks[th.b].next == 0;
    hide Seg, Lookup, HasKey;
  }

  lemma ReaderNext(s: LS, th: LTh, s': LS, th': LTh)
    requires th.hist != [] && th.b < |s.bks| && th.pc.LNext? && LookupMoveLf(s, th, s', th')
    requires ReaderOkLf(s.heap, th) && ViewsOk(s.bks[th.b], th)
    ensures th'.hist == th.hist && th'.b == th.b && ReaderOkLf(s.heap, th') && ViewsOk(s.bks[th.b], th')
  {
    PassNode(th.view, th.rest, A.Last(th.hist).key);
    assert Seg(s.heap, s.heap[th.pc.curr].next, th'.rest);
    assert th'.rest == th.view[th.hops..][1..] == th.view[th.hops + 1..];
  }

  lemma LookupKeeps(s: LS, th: LTh, s': LS, th': LTh)
    requires th.hist != [] && th.b < |s.bks| && PhaseLf(th) && InserterOk(s, th) && LookupMoveLf(s, th, s', th')
    ensures th'.b == th.b && th'.hist == th.hist && s'.bks == s.bks && s'.heap == s.heap
    ensures PhaseLf(th') && InserterOk(s', th')
  {}

  lemma LookupSelfLf(s: LS, s': LS, t: nat)
    requires Inv(s) && LfMachine.StepBy(s, s', t)
    requires s.ths[t].hist != [] && LookupMoveLf(s, s.ths[t], s', s'.ths[t])
    ensures ThreadOkLf(s', s'.ths[t])
  {
    assert ThreadOkLf(s, s.ths[t]);
    hide InsertMove, LfMachine.CallMove, InserterOk, ReaderOkLf, ViewsOk, ListOk, BucketOf;
    LookupKeeps(s, s.ths[t], s', s'.ths[t]);
    ReaderStepLf(s, s.ths[t], s', s'.ths[t]);
  }

  lemma StepNode(s: LS, s': LS, t: nat)
    requires LfMachine.StepBy(s, s', t)
    requires s.heap.Keys <= s.alloc && (Inserting(s.ths[t].pc) ==> s.ths[t].node in s.alloc)
    ensures s'.heap.Keys <= s'.alloc && s.alloc <= s'.alloc
    ensures Inserting(s'.ths[t].pc) ==>
              s'.ths[t].node !in s.alloc || (Inserting(s.ths[t].pc) && s'.ths[t].node == s.ths[t].node)
  {}

  /** Nodes of inserters stay distinct: a new one is fresh from every allocation so far. */
  lemma StepNodes(s: LS, s': LS, t: nat)
    requires Inv(s) && LfMachine.StepBy(s, s', t)
    ensures s'.heap.Keys <= s'.alloc
    ensures forall u, w :: 0 <= u < w < |s'.ths| && Inserting(s'.ths[u].pc) && Inserting(s'.ths[w].pc) ==>
              s'.ths[u].node != s'.ths[w].node
  {
    hide LfMachine.InsertMove, LfMachine.LookupMoveLf, LfMachine.CallMove;
    assert ThreadOkLf(s, s.ths[t]);
    StepNode(s, s', t);
    forall u, w | 0 <= u < w < |s'.ths| && Inserting(s'.ths[u].pc) && Inserting(s'.ths[w].pc)
      ensures s'.ths[u].node != s'.ths[w].node
    {
      assert ThreadOkLf(s, s.ths[u]) && ThreadOkLf(s, s.ths[w]);
    }
  }

  lemma CallSelf(s: LS, s': LS, t: nat)
    requires Inv(s) && LfMachine.StepBy(s, s', t) && LfMachine.CallMove(s, s.ths[t], s', s'.ths[t])
    ensures ThreadOkLf(s', s'.ths[t])
  {
    assert ThreadOkLf(s, s.ths[t]);
  }

  lemma StepThread(s: LS, s': LS, t: nat, u: nat)
    requires Inv(s) && LfMachine.StepBy(s, s', t) && u < |s.ths|
    ensures ThreadOkLf(s', s'.ths[u])
  {
    hide LfMachine.InsertMove, LfMachine.LookupMoveLf, LfMachine.CallMove;
    if u == t {
      hide ThreadOkLf;
      if LfMachine.CallMove(s, s.ths[t], s', s'.ths[t]) {
        CallSelf(s, s', t);
      } else if InsertMove(s, s.ths[t], s', s'.ths[t]) {
        InsertSelf(s, s', t);
      } else {
        LookupSelfLf(s, s', t);
      }
    } else {
      StepKinds(s, s', t);
      assert ThreadOkLf(s, s.ths[u]) && s'.ths[u] == s.ths[u];
      if Wins(s.ths[t], s'.ths[t]) {
        CommitOther(s, s', t, u);
      }
    }
  }

  lemma StepLists(s: LS, s': LS, t: nat, b: nat)
    requires Inv(s) && LfMachine.StepBy(s, s', t) && b < |s.bks|
    ensures |s'.bks| == |s.bks| && |s'.bks[b].cont| == Sum(Owns(s'.ths, b))
    ensures ListOk(s'.heap, s'.bks[b]) && Suffix(s.bks[b].cont, s'.bks[b].cont)
  {
    hide LfMachine.InsertMove, LfMachine.LookupMoveLf, LfMachine.CallMove, ViewsOk, ReaderOkLf, PhaseLf;
    StepKinds(s, s', t);
    assert ThreadOkLf(s, s.ths[t]);
    SumUpdate(Owns(s.ths, b), t, At(s'.ths[t].own, b));
    assert Owns(s'.ths, b) == Owns(s.ths, b)[t := At(s'.ths[t].own, b)];
    if Wins(s.ths[t], s'.ths[t]) {
      CommitLists(s, s', t, b);
    }
  }

  lemma StepInv(s: LS, s': LS, t: nat)
    requires Inv(s) && LfMachine.StepBy(s, s', t)
    ensures Inv(s') && |s'.bks| == |s.bks|
    ensures forall b :: 0 <= b < |s.bks| ==> Suffix(s.bks[b].cont, s'.bks[b].cont)
  {
    hide LfMachine.InsertMove, LfMachine.LookupMoveLf, LfMachine.CallMove, ThreadOkLf, ListOk, Suffix;
    hide Inserting, Commits, Silent;
    StepKinds(s, s', t);
    forall b | 0 <= b < |s.bks|
      ensures |s'.bks| == |s.bks| && |s'.bks[b].cont| == Sum(Owns(s'.ths, b))
      ensures ListOk(s'.heap, s'.bks[b]) && Suffix(s.bks[b].cont, s'.bks[b].cont)
    {
      StepLists(s, s', t, b);
    }
    StepNodes(s, s', t);
    forall u | 0 <= u < |s'.ths| ensures ThreadOkLf(s', s'.ths[u]) {
      StepThread(s, s', t, u);
    }
  }
}
