/**
 Exactly when a lookup of the version-locked table can answer wrongly: a remove that will still unlink
 owns its bucket's lock. From every such state some run makes an idle thread's lookup return any
 value at all; from every other state no lookup that starts can be wrong while the counter stays.
 */
module VlRace {
  import opened Words
  import opened Assoc
  import opened Hash
  import opened LockMachine
  import opened VlMachine
  import opened VlSafety
  import opened VlTheorems
  import A = AtomicTable

  /** A run that goes on from s, below the reset point. */
  ghost predicate Continues(s: VS, tr: seq<VS>) {
    && |tr| > 0 && tr[0] == s
    && (forall i :: 0 <= i < |tr| - 1 ==> VlMachine.Next(tr[i], tr[i + 1]))
    && (forall i :: 0 <= i < |tr| ==> Below(tr[i]))
  }

  // ----- building runs: a remove and a lookup take turns -----

  /** From s, threads t and u move inside bucket b, and its list never answers v for key. */
  datatype Setting = Setting(s: VS, t: nat, u: nat, b: nat, key: u64, v: u64)

  ghost predicate NoAnswer(s: VS, b: nat, key: u64, v: u64) {
    b < |s.bks| && Lookup(Cont(s.bks[b]), key) != v
  }

  ghost predicate Apt(c: Setting) {
    c.b < |c.s.bks| && c.t < |c.s.ths| && c.u < |c.s.ths| && c.t != c.u
  }

  function At(c: Setting, bk: Bkt, w: VTh, r: VTh): VS
    requires c.b < |c.s.bks| && c.t < |c.s.ths| && c.u < |c.s.ths|
  {
    VS(c.s.bks[c.b := bk], c.s.ths[c.t := w][c.u := r])
  }

  /** The run so far has brought bucket b to bk, thread t to w and thread u to r. */
  ghost predicate Race(c: Setting, tr: seq<VS>, bk: Bkt, w: VTh, r: VTh) {
    && Apt(c) && Continues(c.s, tr) && tr[|tr| - 1] == At(c, bk, w, r)
    && (forall j :: 0 <= j < |tr| ==> NoAnswer(tr[j], c.b, c.key, c.v))
  }

  lemma Start(c: Setting)
    requires Apt(c) && Below(c.s) && NoAnswer(c.s, c.b, c.key, c.v)
    ensures Race(c, [c.s], c.s.bks[c.b], c.s.ths[c.t], c.s.ths[c.u])
  {
    assert c.s.bks[c.b := c.s.bks[c.b]] == c.s.bks;
    assert c.s.ths[c.t := c.s.ths[c.t]][c.u := c.s.ths[c.u]] == c.s.ths;
  }

  lemma Extend(c: Setting, tr: seq<VS>, bk: Bkt, w: VTh, r: VTh, x: nat, bk': Bkt, w': VTh, r': VTh)
    requires Race(c, tr, bk, w, r) && VlMachine.StepBy(tr[|tr| - 1], At(c, bk', w', r'), x)
    requires bk'.lk.unlocks < TWO63 - 1 && Lookup(Cont(bk'), c.key) != c.v
    ensures Race(c, tr + [At(c, bk', w', r')], bk', w', r')
  {
    hide VlMachine.StepBy;
    var s' := At(c, bk', w', r');
    var tr' := tr + [s'];
    forall b | 0 <= b < |s'.bks| ensures s'.bks[b].lk.unlocks < TWO63 - 1 {
      assert Below(tr[|tr| - 1]);
      assert b != c.b ==> s'.bks[b] == tr[|tr| - 1].bks[b];
    }
    forall i | 0 <= i < |tr'| - 1 ensures VlMachine.Next(tr'[i], tr'[i + 1]) {
      if i + 1 < |tr| {
        assert VlMachine.Next(tr[i], tr[i + 1]);
      }
    }
    forall j | 0 <= j < |tr'| ensures Below(tr'[j]) && NoAnswer(tr'[j], c.b, c.key, c.v) {
      assert j < |tr| ==> Below(tr[j]) && NoAnswer(tr[j], c.b, c.key, c.v);
    }
  }

  /** A step of thread t. */
  lemma WriterMoves(c: Setting, tr: seq<VS>, bk: Bkt, w: VTh, r: VTh, bk': Bkt, w': VTh) returns (tr': seq<VS>)
    requires Race(c, tr, bk, w, r) && w.b == c.b && BucketMove(bk, w, bk', w')
    requires bk'.lk.unlocks < TWO63 - 1 && Lookup(Cont(bk'), c.key) != c.v
    ensures Race(c, tr', bk', w', r) && tr' == tr + [At(c, bk', w', r)]
  {
    hide BucketMove, Continues, NoAnswer, Cont;
    var s, s' := At(c, bk, w, r), At(c, bk', w', r);
    assert s'.ths == s.ths[c.t := w'] && s'.bks == s.bks[c.b := bk'];
    Extend(c, tr, bk, w, r, c.t, bk', w', r);
    tr' := tr + [s'];
  }

  /** A step of thread u. */
  lemma ReaderMoves(c: Setting, tr: seq<VS>, bk: Bkt, w: VTh, r: VTh, r': VTh) returns (tr': seq<VS>)
    requires Race(c, tr, bk, w, r) && r.b == c.b && BucketMove(bk, r, bk, r')
    ensures Race(c, tr', bk, w, r') && tr' == tr + [At(c, bk, w, r')]
  {
    hide BucketMove, Cont;
    var s, s' := At(c, bk, w, r), At(c, bk, w, r');
    assert Below(tr[|tr| - 1]) && NoAnswer(tr[|tr| - 1], c.b, c.key, c.v) && s.bks[c.b] == bk;
    hide Continues, NoAnswer;
    assert s'.ths == s.ths[c.u := r'] && s'.bks == s.bks[c.b := bk];
    Extend(c, tr, bk, w, r, c.u, bk, w, r');
    tr' := tr + [s'];
  }

  // ----- the lookup's part -----

  /** The lookup is in an attempt for the setting's key, on snapshot snap. */
  ghost predicate Seeks(c: Setting, r: VTh, snap: u64) {
    r.b == c.b && r.hist != [] && A.Last(r.hist) == A.Get(c.key) && r.l == Reading(snap)
  }

  /** Thread u calls lookup, takes its snapshot and reads head->next. */
  lemma ReaderStarts(c: Setting, tr: seq<VS>, bk: Bkt, w: VTh, r: VTh) returns (tr': seq<VS>, r': VTh)
    requires Race(c, tr, bk, w, r) && r.pc.Idle?
    requires |c.s.bks| < TWO64 && c.b == BucketOf(c.key, |c.s.bks|) && bk.head != 0
    ensures Race(c, tr', bk, w, r') && Seeks(c, r', bk.lk.version)
    ensures r'.pc == GKey(bk.head) && r'.hist == r.hist + [A.Get(c.key)]
  {
    hide BucketOf, Cont;
    var r0 := VTh(r.hist + [A.Get(c.key)], c.b, Out, GSnap, [], [], 0, false, bk.lk.version, 0, 0, 0);
    tr' := ReaderCalls(c, tr, bk, w, r, r0);
    var r1 := r0.(l := Reading(bk.lk.version), pc := GHead);
    hide Race;
    tr' := ReaderMoves(c, tr', bk, w, r0, r1);
    r' := r1.(pc := GKey(bk.head), view := Cont(bk), rest := Cont(bk), seen := bk.cuts);
    tr' := ReaderMoves(c, tr', bk, w, r1, r');
  }

  lemma ReaderCalls(c: Setting, tr: seq<VS>, bk: Bkt, w: VTh, r: VTh, r0: VTh) returns (tr': seq<VS>)
    requires Race(c, tr, bk, w, r) && r.pc.Idle?
    requires |c.s.bks| < TWO64 && c.b == BucketOf(c.key, |c.s.bks|)
    requires r0 == VTh(r.hist + [A.Get(c.key)], c.b, Out, GSnap, [], [], 0, false, bk.lk.version, 0, 0, 0)
    ensures Race(c, tr', bk, w, r0)
  {
    hide BucketOf, Cont;
    var s, s' := At(c, bk, w, r), At(c, bk, w, r0);
    assert Below(tr[|tr| - 1]) && NoAnswer(tr[|tr| - 1], c.b, c.key, c.v) && s.bks[c.b] == bk;
    hide Continues, NoAnswer;
    assert s'.ths == s.ths[c.u := r0];
    assert CallMove(s, r, r0);
    Extend(c, tr, bk, w, r, c.u, bk, w, r0);
    tr' := tr + [s'];
  }

  /** The lookup walks to the node of its match, and stops before reading the key. */
  lemma {:induction false} ReaderWalks(c: Setting, tr: seq<VS>, bk: Bkt, w: VTh, r: VTh, i: nat, m: nat)
    returns (tr': seq<VS>, r': VTh)
    requires Race(c, tr, bk, w, r) && Seeks(c, r, bk.lk.version)
    requires Linked(bk) && FirstAt(Cont(bk), c.key, m) && i <= m && r.pc == GKey(bk.chain[i])
    ensures Race(c, tr', bk, w, r') && Seeks(c, r', bk.lk.version)
    ensures r'.pc == GKey(bk.chain[m]) && r'.hist == r.hist
    decreases m - i
  {
    hide Race;
    if i == m {
      tr', r' := tr, r;
    } else {
      assert LinkAt(bk, i) && LinkAt(bk, i + 1) && Cont(bk)[i].key != c.key;
      var r1 := r.(pc := GNext(bk.chain[i]));
      tr' := ReaderMoves(c, tr, bk, w, r, r1);
      var r2 := r1.(pc := GKey(bk.chain[i + 1]), hops := r1.hops + 1, rest := Tail(r1.rest));
      tr' := ReaderMoves(c, tr', bk, w, r1, r2);
      tr', r' := ReaderWalks(c, tr', bk, w, r2, i + 1, m);
    }
  }

  /** The lookup reads a freed node, which may hold anything, and validates. */
  lemma ReaderReturns(c: Setting, tr: seq<VS>, bk: Bkt, w: VTh, r: VTh) returns (tr': seq<VS>, i: nat)
    requires Race(c, tr, bk, w, r) && Seeks(c, r, bk.lk.version) && r.pc.GKey? && r.pc.curr !in bk.heap
    ensures Continues(c.s, tr') && (forall j :: 0 <= j < |tr'| ==> NoAnswer(tr'[j], c.b, c.key, c.v))
    ensures ReturnsAt(tr', i, c.u) && |tr'| == i + 2
    ensures Seeks(c, tr'[i].ths[c.u], bk.lk.version) && tr'[i].ths[c.u].hist == r.hist
    ensures tr'[i + 1].ths[c.u].pc.res == A.Val(c.v)
  {
    var r1 := r.(pc := GVal(r.pc.curr), wild := true);
    var r2 := r1.(pc := GCheck(c.v));
    var r3 := r2.(l := Out, pc := Idle(A.Val(c.v)));
    hide Race;
    tr' := ReaderMoves(c, tr, bk, w, r, r1);
    tr' := ReaderMoves(c, tr', bk, w, r1, r2);
    i := |tr'| - 1;
    ghost var last := tr';
    tr' := ReaderMoves(c, tr', bk, w, r2, r3);
    ReturnFactsOf(c, last, tr', bk, w, r2, r3);
  }

  lemma ReturnFactsOf(c: Setting, tr: seq<VS>, tr': seq<VS>, bk: Bkt, w: VTh, r: VTh, r': VTh)
    requires Race(c, tr, bk, w, r) && Race(c, tr', bk, w, r') && tr' == tr + [At(c, bk, w, r')]
    requires r.pc.GCheck? && r'.pc.Idle? && r.b == c.b
    ensures Continues(c.s, tr') && (forall j :: 0 <= j < |tr'| ==> NoAnswer(tr'[j], c.b, c.key, c.v))
    ensures |tr| > 0 && ReturnsAt(tr', |tr| - 1, c.u)
    ensures tr'[|tr| - 1].ths[c.u] == r && tr'[|tr|].ths[c.u] == r'
  {
    assert |tr| > 0;
    hide Continues, NoAnswer;
    assert tr'[|tr| - 1] == At(c, bk, w, r);
  }

  // ----- the remove's part -----

  /** A remove that owns the lock and has its unlink ahead of it. */
  predicate BeforeUnlink(pc: PC) { pc.DHead? || pc.DKey? || pc.DNext? || pc.DLoad? || pc.DUnlink? }

  /** The remove is about to be where it can be: consistent with the bucket, its key first at m. */
  ghost predicate Hunts(c: Setting, bk: Bkt, w: VTh, m: nat) {
    && Linked(bk) && ThOk(bk, w) && BeforeUnlink(w.pc) && w.b == c.b
    && w.hist != [] && A.Last(w.hist) == A.Del(c.key) && FirstAt(Cont(bk), c.key, m)
  }

  /** One read of the walk. */
  lemma RemoverReads(c: Setting, tr: seq<VS>, bk: Bkt, w: VTh, r: VTh, m: nat, w': VTh) returns (tr': seq<VS>)
    requires Race(c, tr, bk, w, r) && Hunts(c, bk, w, m) && WriteMove(bk, w, bk, w') && BeforeUnlink(w'.pc)
    ensures Race(c, tr', bk, w', r) && Hunts(c, bk, w', m)
  {
    WriteSelf(bk, w, bk, w');
    WritePhase(bk, w, bk, w');
    assert w'.b == w.b;
    assert Below(tr[|tr| - 1]) && NoAnswer(tr[|tr| - 1], c.b, c.key, c.v) && At(c, bk, w, r).bks[c.b] == bk;
    hide WriteMove, ThOk, Linked, Race, Cont;
    tr' := WriterMoves(c, tr, bk, w, r, bk, w');
  }

  /** A remove whose key is present walks to its first node. */
  lemma {:induction false} RemoverWalks(c: Setting, tr: seq<VS>, bk: Bkt, w: VTh, r: VTh, m: nat)
    returns (tr': seq<VS>, w': VTh)
    requires Race(c, tr, bk, w, r) && Hunts(c, bk, w, m)
    ensures Race(c, tr', bk, w', r) && Hunts(c, bk, w', m) && w'.pc.DUnlink?
    decreases if w.pc.DHead? then 1 else 0, if w.pc.DHead? then 0 else m - w.at, Rank(w.pc)
  {
    var op := A.Last(w.hist);
    WalkFacts(c, bk, w, m);
    hide Race, Hunts, ThOk, Linked;
    match w.pc
    case DHead =>
      tr' := RemoverReads(c, tr, bk, w, r, m, w.(at := 0, pc := DKey(0, bk.head)));
      tr', w' := RemoverWalks(c, tr', bk, w.(at := 0, pc := DKey(0, bk.head)), r, m);
    case DKey(prev, curr) =>
      w' := w.(pc := if bk.heap[curr].key == op.key then DLoad(prev, curr) else DNext(curr));
      tr' := RemoverReads(c, tr, bk, w, r, m, w');
      tr', w' := RemoverWalks(c, tr', bk, w', r, m);
    case DNext(curr) =>
      w' := w.(at := w.at + 1, pc := DKey(curr, bk.heap[curr].next));
      tr' := RemoverReads(c, tr, bk, w, r, m, w');
      tr', w' := RemoverWalks(c, tr', bk, w', r, m);
    case DLoad(prev, curr) =>
      w' := w.(pc := DUnlink(prev, curr, bk.heap[curr].next));
      tr' := RemoverReads(c, tr, bk, w, r, m, w');
    case DUnlink(prev, curr, nx) => tr', w' := tr, w;
  }

  function Rank(pc: PC): nat {
    match pc
    case DKey(_, _) => 2
    case DNext(_) => 1
    case DLoad(_, _) => 1
    case _ => 0
  }

  lemma WalkFacts(c: Setting, bk: Bkt, w: VTh, m: nat)
    requires Hunts(c, bk, w, m)
    ensures !w.pc.DHead? ==> w.at <= m && w.pc.curr in bk.heap
    ensures w.pc.DNext? ==> w.at < m && bk.heap[w.pc.curr].next != 0
    ensures w.pc.DUnlink? ==> w.at == m && w.pc.curr == bk.chain[m]
    ensures m < |bk.chain| && bk.head == bk.chain[0] != 0
  {
    assert LinkAt(bk, 0) && LinkAt(bk, m);
    if !w.pc.DHead? {
      assert WalkAt(bk, c.key, w.at, w.pc.curr);
      assert LinkAt(bk, w.at);
      if w.pc.DNext? { assert LinkAt(bk, w.at + 1); }
    }
  }

  /** The bucket as the unlink leaves it. */
  function Unlinked(bk: Bkt, w: VTh): Bkt
    requires w.pc.DUnlink? && (w.pc.prev == 0 || w.pc.prev in bk.heap)
  {
    var prev, nx := w.pc.prev, w.pc.nx;
    bk.(heap := if prev == 0 then bk.heap else bk.heap[prev := bk.heap[prev].(next := nx)],
        head := if prev == 0 then nx else bk.head, chain := Without(bk.chain, w.at), cuts := bk.cuts + 1)
  }

  lemma UnlinkFacts(c: Setting, bk: Bkt, w: VTh, m: nat)
    requires Hunts(c, bk, w, m) && w.pc.DUnlink?
    ensures m < |bk.chain| && w.pc.curr == bk.chain[m] && (w.pc.prev == 0 || w.pc.prev in bk.heap)
    ensures var w1 := w.(pc := DFree(w.pc.curr));
            var bk1 := Unlinked(bk, w);
            && WriteMove(bk, w, bk1, w1) && Cont(bk1) == RemoveFirst(Cont(bk), c.key)
            && Linked(bk1) && ThOk(bk1, w1)
  {
    WalkFacts(c, bk, w, m);
    if w.at > 0 { assert LinkAt(bk, w.at - 1); }
    var bk1, w1 := Unlinked(bk, w), w.(pc := DFree(w.pc.curr));
    assert WriteMove(bk, w, bk1, w1);
    hide WriteMove, Linked, ThOk, Hunts;
    assert Linked(bk) && ThOk(bk, w) by { HuntsOk(c, bk, w, m); }
    StepList(bk, w, bk1, w1);
    StepSelf(bk, w, bk1, w1);
  }

  lemma HuntsOk(c: Setting, bk: Bkt, w: VTh, m: nat)
    requires Hunts(c, bk, w, m)
    ensures Linked(bk) && ThOk(bk, w)
  {}

  /** The remove unlinks its node and frees it, still holding the lock. */
  lemma RemoverFrees(c: Setting, tr: seq<VS>, bk: Bkt, w: VTh, r: VTh, m: nat)
    returns (tr': seq<VS>, bk': Bkt, w': VTh)
    requires Race(c, tr, bk, w, r) && Hunts(c, bk, w, m) && w.pc.DUnlink?
    requires Lookup(RemoveFirst(Cont(bk), c.key), c.key) != c.v
    ensures Race(c, tr', bk', w', r) && bk'.lk == bk.lk && m < |bk.chain| && bk.chain[m] !in bk'.heap
  {
    assert bk.lk.unlocks < TWO63 - 1 by { assert Below(tr[|tr| - 1]) && At(c, bk, w, r).bks[c.b] == bk; }
    UnlinkFacts(c, bk, w, m);
    assert w.b == c.b;
    hide Race, Hunts, Linked, ThOk, Cont;
    var bk1, w1 := Unlinked(bk, w), w.(pc := DFree(w.pc.curr));
    tr' := WriterMoves(c, tr, bk, w, r, bk1, w1);
    bk', w' := bk1.(heap := bk1.heap - {w.pc.curr}), w.(pc := WUnlock);
    FreeFacts(bk1, w1);
    tr' := WriterMoves(c, tr', bk1, w1, r, bk', w');
  }

  lemma FreeFacts(bk: Bkt, w: VTh)
    requires Linked(bk) && ThOk(bk, w) && w.pc.DFree? && w.hist != []
    ensures var bk' := bk.(heap := bk.heap - {w.pc.curr});
            WriteMove(bk, w, bk', w.(pc := WUnlock)) && Cont(bk') == Cont(bk)
  {
    FreeList(bk, w.pc.curr, bk.(heap := bk.heap - {w.pc.curr}));
  }

  // ----- a lookup beside such a remove can return anything -----

  /** Thread t is a remove that owns the lock of bucket b and will still take a node out of its list. */
  ghost predicate Armed(s: VS, t: nat, b: nat) {
    && b < |s.bks| && t < |s.ths| && s.ths[t].b == b && BeforeUnlink(s.ths[t].pc)
    && s.ths[t].hist != [] && HasKey(Cont(s.bks[b]), A.Last(s.ths[t].hist).key)
  }

  /**
   In the run tr from s, a lookup that u calls after s validates s's counter with an answer that the list
   gave at no instant of the call.
   */
  ghost predicate Wrong(s: VS, tr: seq<VS>, i: nat, b: nat, u: nat) {
    && Continues(s, tr) && ReturnsAt(tr, i, u) && b < |s.bks| && u < |s.ths| && tr[i].ths[u].b == b
    && |tr[i].ths[u].hist| > |s.ths[u].hist| && tr[i].ths[u].l == Reading(s.bks[b].lk.version)
    && forall j | 0 <= j <= i && u < |tr[j].ths| && tr[j].ths[u].hist == tr[i].ths[u].hist ::
         !Answered(tr, j, i, b, u)
  }

  /** What u returns at i is what the list of bucket b answers at j. */
  ghost predicate Answered(tr: seq<VS>, j: nat, i: nat, b: nat, u: nat) {
    && j < |tr| && b < |tr[j].bks| && i + 1 < |tr| && u < |tr[i].ths| && u < |tr[i + 1].ths|
    && tr[i].ths[u].hist != [] && tr[i + 1].ths[u].pc.Idle?
    && tr[i + 1].ths[u].pc.res == A.Val(Lookup(Cont(tr[j].bks[b]), A.Last(tr[i].ths[u].hist).key))
  }

  /**
   From any state in which a remove owns the lock and has its match still to unlink, any idle thread and
   any value v that neither the list before nor the list after the remove answers: some run has that
   thread look the key up, validate, and return v.
   */
  lemma AnyAnswer(s: VS, t: nat, b: nat, u: nat, v: u64) returns (tr: seq<VS>, i: nat)
    requires VlSafety.Inv(s) && Armed(s, t, b) && u < |s.ths| && s.ths[u].pc.Idle?
    requires var k := A.Last(s.ths[t].hist).key;
             v != Lookup(Cont(s.bks[b]), k) && v != Lookup(RemoveFirst(Cont(s.bks[b]), k), k)
    ensures Wrong(s, tr, i, b, u) && |tr| == i + 2
    ensures A.Last(tr[i].ths[u].hist) == A.Get(A.Last(s.ths[t].hist).key)
    ensures tr[i + 1].ths[u].pc.res == A.Val(v)
    ensures forall j :: 0 <= j < |tr| ==> NoAnswer(tr[j], b, A.Last(s.ths[t].hist).key, v)
  {
    hide BucketOf;
    var bk, w, r := s.bks[b], s.ths[t], s.ths[u];
    var c := Setting(s, t, u, b, A.Last(w.hist).key, v);
    assert Placed(s, w) && ThOk(bk, w);
    var m := FirstExists(Cont(bk), c.key);
    Start(c);
    assert Hunts(c, bk, w, m);
    WalkFacts(c, bk, w, m);
    hide VlSafety.Inv, ThOk, Race, Continues, Below, NoAnswer;
    var r', w', bk';
    tr, r' := ReaderStarts(c, [s], bk, w, r);
    tr, r' := ReaderWalks(c, tr, bk, w, r', 0, m);
    hide Linked;
    tr, w' := RemoverWalks(c, tr, bk, w, r', m);
    tr, bk', w' := RemoverFrees(c, tr, bk, w', r', m);
    tr, i := ReaderReturns(c, tr, bk', w', r');
    WrongBy(c, tr, i);
  }

  lemma WrongBy(c: Setting, tr: seq<VS>, i: nat)
    requires Apt(c) && Continues(c.s, tr) && ReturnsAt(tr, i, c.u)
    requires forall j :: 0 <= j < |tr| ==> NoAnswer(tr[j], c.b, c.key, c.v)
    requires Seeks(c, tr[i].ths[c.u], c.s.bks[c.b].lk.version) && |tr[i].ths[c.u].hist| > |c.s.ths[c.u].hist|
    requires tr[i + 1].ths[c.u].pc.res == A.Val(c.v)
    ensures Wrong(c.s, tr, i, c.b, c.u)
  {
    hide Continues;
    forall j | 0 <= j <= i && c.u < |tr[j].ths| && tr[j].ths[c.u].hist == tr[i].ths[c.u].hist
      ensures !Answered(tr, j, i, c.b, c.u)
    {
      assert NoAnswer(tr[j], c.b, c.key, c.v);
    }
  }

  // ----- without such a remove no lookup is wrong -----

  ghost predicate Unarmed(s: VS, b: nat) {
    forall t: nat :: !Armed(s, t, b)
  }

  lemma MoveUnarmed(bk: Bkt, th: VTh, bk': Bkt, th': VTh)
    requires ThOk(bk, th) && BucketMove(bk, th, bk', th') && bk'.lk.version == bk.lk.version
    requires !(BeforeUnlink(th.pc) && th.hist != [] && HasKey(Cont(bk), A.Last(th.hist).key))
    ensures bk'.cuts == bk.cuts && th'.b == th.b
    ensures !(BeforeUnlink(th'.pc) && th'.hist != [] && HasKey(Cont(bk'), A.Last(th'.hist).key))
  {
    hide Cont;
    if th.pc.DUnlink? && th.hist != [] {
      MatchFound(bk, th);
    }
  }

  lemma OtherUnarmed(s: VS, s': VS, t: nat, x: nat, b: nat)
    requires VlSafety.Inv(s) && VlMachine.StepBy(s, s', t) && x != t && Armed(s', x, b)
    ensures Armed(s, x, b)
  {
    assert ThOk(s.bks[s.ths[t].b], s.ths[t]) && Placed(s, s.ths[t]);
    assert ThOk(s.bks[b], s.ths[x]) && s.ths[x] == s'.ths[x];
    LockFacts(s, x);
    if s.ths[t].b == b && !(s'.bks == s.bks && CallMove(s, s.ths[t], s'.ths[t])) {
      StepList(s.bks[b], s.ths[t], s'.bks[b], s'.ths[t]);
      if s'.bks[b] == s.bks[b].(lk := s'.bks[b].lk) {
        SameList(s.bks[b], s'.bks[b]);
      }
    }
  }

  lemma SelfUnarmed(s: VS, s': VS, t: nat, b: nat)
    requires VlSafety.Inv(s) && VlMachine.StepBy(s, s', t) && b < |s.bks| == |s'.bks| && !Armed(s, t, b)
    requires s'.bks[b].lk.version == s.bks[b].lk.version
    ensures !Armed(s', t, b) && s'.bks[b].cuts == s.bks[b].cuts
  {
    hide BucketMove, ThOk, LockMachine.Inv, Linked, Cont;
    var th, th' := s.ths[t], s'.ths[t];
    assert ThOk(s.bks[th.b], th) && Placed(s, th);
    if s'.bks == s.bks && CallMove(s, th, th') {
    } else {
      SameCall(s.bks[th.b], th, s'.bks[th.b], th');
      if th.b == b {
        MoveUnarmed(s.bks[b], th, s'.bks[b], th');
      }
    }
  }

  /** While the counter stays, no remove becomes armed and nothing is unlinked. */
  lemma StepUnarmed(s: VS, s': VS, t: nat, b: nat)
    requires VlSafety.Inv(s) && VlMachine.StepBy(s, s', t) && b < |s.bks| == |s'.bks| && Unarmed(s, b)
    requires s'.bks[b].lk.version == s.bks[b].lk.version
    ensures Unarmed(s', b) && s'.bks[b].cuts == s.bks[b].cuts
  {
    hide VlSafety.Inv, VlMachine.StepBy, Armed;
    SelfUnarmed(s, s', t, b);
    forall x: nat ensures !Armed(s', x, b) {
      if x != t && Armed(s', x, b) { OtherUnarmed(s, s', t, x, b); }
    }
  }

  lemma {:induction false} ContinuesInv(s: VS, tr: seq<VS>, i: nat, b: nat)
    requires VlSafety.Inv(s) && Continues(s, tr) && i < |tr| && b < |s.bks|
    ensures VlSafety.Inv(tr[i]) && |tr[i].bks| == |s.bks| && |tr[i].ths| == |s.ths|
    ensures i > 0 ==> |tr[i - 1].bks| == |s.bks| && tr[i - 1].bks[b].lk.version <= tr[i].bks[b].lk.version
  {
    hide VlMachine.StepBy, VlSafety.Inv;
    if i > 0 {
      ContinuesInv(s, tr, i - 1, b);
      var t := StepperOf(s, tr, i - 1);
      assert Below(tr[i]);
      VlSafety.StepInv(tr[i - 1], tr[i], t);
      StepSizes(tr[i - 1], tr[i], t, b);
    }
  }

  lemma StepperOf(s: VS, tr: seq<VS>, i: nat) returns (t: nat)
    requires Continues(s, tr) && i + 1 < |tr|
    ensures VlMachine.StepBy(tr[i], tr[i + 1], t)
  {
    assert VlMachine.Next(tr[i], tr[i + 1]);
    t :| VlMachine.StepBy(tr[i], tr[i + 1], t);
  }

  lemma StepSizes(s: VS, s': VS, t: nat, b: nat)
    requires VlSafety.Inv(s) && VlMachine.StepBy(s, s', t) && b < |s.bks| && Below(s')
    ensures |s'.bks| == |s.bks| && |s'.ths| == |s.ths| && s.bks[b].lk.version <= s'.bks[b].lk.version
  {
    StepThread(s, s', t);
    StepLock(s, s', t, b);
  }

  lemma {:induction false} VersionsUpTo(s: VS, tr: seq<VS>, j: nat, i: nat, b: nat)
    requires VlSafety.Inv(s) && Continues(s, tr) && j <= i < |tr| && b < |s.bks|
    ensures |tr[j].bks| == |tr[i].bks| == |s.bks| && tr[j].bks[b].lk.version <= tr[i].bks[b].lk.version
  {
    hide VlSafety.Inv, Continues;
    ContinuesInv(s, tr, i, b);
    if j < i { VersionsUpTo(s, tr, j, i - 1, b); }
  }

  lemma {:induction false} StaysUnarmed(s: VS, tr: seq<VS>, j: nat, i: nat, b: nat)
    requires VlSafety.Inv(s) && Continues(s, tr) && j <= i < |tr| && b < |s.bks| && Unarmed(s, b)
    requires |tr[i].bks| == |s.bks| && tr[i].bks[b].lk.version == s.bks[b].lk.version
    ensures |tr[j].bks| == |s.bks| && Unarmed(tr[i], b)
    ensures tr[j].bks[b].cuts == tr[i].bks[b].cuts
    decreases i
  {
    hide VlSafety.Inv, Armed, VlMachine.StepBy, Unarmed;
    if i > 0 {
      VersionsUpTo(s, tr, 0, i - 1, b);
      VersionsUpTo(s, tr, i - 1, i, b);
      StaysUnarmed(s, tr, if j < i then j else i - 1, i - 1, b);
      ContinuesInv(s, tr, i - 1, b);
      var t := StepperOf(s, tr, i - 1);
      StepUnarmed(tr[i - 1], tr[i], t, b);
    }
  }

  /** The instant at which a lookup called after s read head->next. */
  lemma {:induction false} SampledAt(s: VS, tr: seq<VS>, i: nat, b: nat, u: nat) returns (j: nat)
    requires VlSafety.Inv(s) && Continues(s, tr) && i < |tr| && b < |s.bks| && u < |s.ths| && |tr[i].ths| == |s.ths|
    requires Sampled(tr[i].ths[u].pc) && tr[i].ths[u].b == b && |tr[i].ths[u].hist| > |s.ths[u].hist|
    ensures j < i && |tr[j].bks| == |s.bks| && u < |tr[j].ths|
    ensures tr[j].ths[u].pc.GHead? && tr[j].ths[u].hist == tr[i].ths[u].hist
    ensures tr[i].ths[u].view == Cont(tr[j].bks[b]) && tr[i].ths[u].seen == tr[j].bks[b].cuts
    decreases i
  {
    hide VlSafety.Inv, Armed, VlMachine.StepBy;
    ContinuesInv(s, tr, i - 1, b);
    var t := StepperOf(s, tr, i - 1);
    StepSample(tr[i - 1], tr[i], t, u);
    if Sampled(tr[i - 1].ths[u].pc) {
      j := SampledAt(s, tr, i - 1, b, u);
    } else {
      j := i - 1;
    }
  }

  /** A lookup that validates its snapshot without an unlink since its head read answers for that read. */
  lemma UncutAnswer(s: VS, tr: seq<VS>, i: nat, u: nat)
    requires Continues(s, tr) && ReturnsAt(tr, i, u) && VlSafety.Inv(tr[i])
    requires Uncut(tr[i].bks[tr[i].ths[u].b], tr[i].ths[u])
    ensures tr[i].ths[u].hist != [] && Current(tr[i].bks[tr[i].ths[u].b], tr[i].ths[u])
    ensures tr[i + 1].ths[u].pc.res == A.Val(Lookup(tr[i].ths[u].view, A.Last(tr[i].ths[u].hist).key))
  {
    var t := StepperOf(s, tr, i);
    assert t == u;
    assert ThOk(tr[i].bks[tr[i].ths[t].b], tr[i].ths[t]);
  }

  lemma ReturnCurrent(s: VS, tr: seq<VS>, i: nat, u: nat)
    requires Continues(s, tr) && ReturnsAt(tr, i, u)
    ensures Current(tr[i].bks[tr[i].ths[u].b], tr[i].ths[u])
  {
    var t := StepperOf(s, tr, i);
    assert t == u;
  }

  /**
   With no such remove in s, a lookup called after s that validates s's counter returns what the list
   answered at instant j of the same call, its read of head->next.
   */
  lemma UnarmedIsSafe(s: VS, tr: seq<VS>, i: nat, b: nat, u: nat) returns (j: nat)
    requires VlSafety.Inv(s) && Unarmed(s, b) && Continues(s, tr)
    requires ReturnsAt(tr, i, u) && b < |s.bks| && u < |s.ths| && tr[i].ths[u].b == b
    requires |tr[i].ths[u].hist| > |s.ths[u].hist| && tr[i].ths[u].l == Reading(s.bks[b].lk.version)
    ensures j < i && Answered(tr, j, i, b, u) && u < |tr[j].ths|
    ensures tr[j].ths[u].pc.GHead? && tr[j].ths[u].hist == tr[i].ths[u].hist
  {
    hide VlSafety.Inv, Armed, Unarmed;
    ContinuesInv(s, tr, i, b);
    ReturnCurrent(s, tr, i, u);
    j := SampledAt(s, tr, i, b, u);
    StaysUnarmed(s, tr, j, i, b);
    UncutAnswer(s, tr, i, u);
  }

  /** Some run from s lets a lookup that u starts after s validate s's counter with a wrong answer. */
  ghost predicate AtRisk(s: VS, b: nat, u: nat) {
    exists tr: seq<VS>, i: nat :: Wrong(s, tr, i, b, u)
  }

  /**
   The exact condition: lookups of bucket b by an idle thread are at risk in s if and only if some remove
   owns the lock with its match still to unlink. Its holder being an insert, or a remove past its
   unlink, or the snapshot merely being odd, does no harm.
   */
  lemma RiskExactly(s: VS, b: nat, u: nat)
    requires VlSafety.Inv(s) && b < |s.bks| && u < |s.ths| && s.ths[u].pc.Idle?
    ensures AtRisk(s, b, u) <==> exists t: nat :: Armed(s, t, b)
  {
    hide VlSafety.Inv, Armed, Wrong;
    if t: nat :| Armed(s, t, b) {
      var v := OtherValue(s, t, b);
      var tr, i := AnyAnswer(s, t, b, u, v);
    } else {
      forall tr: seq<VS>, i: nat ensures !Wrong(s, tr, i, b, u) {
        NotWrong(s, tr, i, b, u);
      }
    }
  }

  lemma NotWrong(s: VS, tr: seq<VS>, i: nat, b: nat, u: nat)
    requires VlSafety.Inv(s) && Unarmed(s, b)
    ensures !Wrong(s, tr, i, b, u)
  {
    hide VlSafety.Inv, Armed, Unarmed, Continues, ReturnsAt, Answered;
    if Wrong(s, tr, i, b, u) {
      var j := UnarmedIsSafe(s, tr, i, b, u);
    }
  }

  lemma OtherValue(s: VS, t: nat, b: nat) returns (v: u64)
    requires Armed(s, t, b)
    ensures var k := A.Last(s.ths[t].hist).key;
            v != Lookup(Cont(s.bks[b]), k) && v != Lookup(RemoveFirst(Cont(s.bks[b]), k), k)
  {
    var k := A.Last(s.ths[t].hist).key;
    v :| v in {0, 1, 2} && v != Lookup(Cont(s.bks[b]), k) && v != Lookup(RemoveFirst(Cont(s.bks[b]), k), k);
  }
}
