/** A run in which one insert, of another key, keeps a linearizable lookup from ever reporting its miss. */
module LfWitness {
  import opened Words
  import opened Assoc
  import opened Hash
  import opened VlMachine
  import opened LfMachine
  import A = AtomicTable

  /** Thread 0 looks key up in a table of n buckets, thread 1 inserts another key of the same bucket. */
  datatype Scene = Scene(n: nat, key: u64, other: u64)

  ghost predicate SameBucket(c: Scene) {
    && 0 < c.n < TWO64 && c.key != c.other
    && BucketOf(c.key, c.n) == BucketOf(c.other, c.n) < c.n
  }

  function B(c: Scene): nat
    requires c.n > 0 && c.n < TWO64
  {
    BucketOf(c.key, c.n)
  }

  ghost function State(c: Scene, bk: Head, heap: map<nat, Cell>, alloc: set<nat>, r: LTh, w: LTh): LS
    requires SameBucket(c)
  {
    LS(seq(c.n, _ => Head(0, 0, []))[B(c) := bk], heap, alloc, [r, w])
  }

  /** A run that reaches s, and never has a pair with the key looked up. */
  ghost predicate Reaches(c: Scene, tr: seq<LS>, s: LS) {
    && SameBucket(c) && LfMachine.Run(tr) && tr[|tr| - 1] == s
    && forall j :: 0 <= j < |tr| ==> |tr[j].ths| == 2 && |tr[j].bks| == c.n && !HasKey(tr[j].bks[B(c)].cont, c.key)
  }

  lemma Extend(c: Scene, tr: seq<LS>, s: LS, s': LS, t: nat)
    requires Reaches(c, tr, s) && LfMachine.StepBy(s, s', t)
    requires |s'.ths| == 2 && |s'.bks| == c.n && !HasKey(s'.bks[B(c)].cont, c.key)
    ensures Reaches(c, tr + [s'], s')
  {
    hide LfMachine.StepBy, BucketOf, LfMachine.Init;
    var tr' := tr + [s'];
    forall i | 0 <= i < |tr'| - 1 ensures LfMachine.Next(tr'[i], tr'[i + 1]) {
      if i + 1 < |tr| {
        assert LfMachine.Next(tr[i], tr[i + 1]);
      }
    }
  }

  /** A step of the lookup. */
  lemma Looks(c: Scene, tr: seq<LS>, bk: Head, heap: map<nat, Cell>, alloc: set<nat>, r: LTh, w: LTh, r': LTh)
    returns (tr': seq<LS>)
    requires SameBucket(c) && Reaches(c, tr, State(c, bk, heap, alloc, r, w)) && r.hist != [] && r.b == B(c)
    requires LookupMoveLf(State(c, bk, heap, alloc, r, w), r, State(c, bk, heap, alloc, r', w), r')
    ensures Reaches(c, tr', State(c, bk, heap, alloc, r', w)) && tr' == tr + [State(c, bk, heap, alloc, r', w)]
  {
    var s, s' := State(c, bk, heap, alloc, r, w), State(c, bk, heap, alloc, r', w);
    assert !HasKey(tr[|tr| - 1].bks[B(c)].cont, c.key);
    hide LookupMoveLf, InsertMove, LfMachine.CallMove, LfMachine.Run, BucketOf;
    assert s'.ths == s.ths[0 := r'] && s'.bks == s.bks;
    Extend(c, tr, s, s', 0);
    tr' := tr + [s'];
  }

  /** A step of the insert. */
  lemma Inserts(c: Scene, tr: seq<LS>, bk: Head, heap: map<nat, Cell>, alloc: set<nat>, r: LTh, w: LTh,
                bk': Head, heap': map<nat, Cell>, alloc': set<nat>, w': LTh) returns (tr': seq<LS>)
    requires SameBucket(c) && Reaches(c, tr, State(c, bk, heap, alloc, r, w)) && w.hist != [] && w.b == B(c)
    requires InsertMove(State(c, bk, heap, alloc, r, w), w, State(c, bk', heap', alloc', r, w'), w')
    requires !HasKey(bk'.cont, c.key)
    ensures Reaches(c, tr', State(c, bk', heap', alloc', r, w'))
    ensures tr' == tr + [State(c, bk', heap', alloc', r, w')]
  {
    hide LookupMoveLf, InsertMove, LfMachine.CallMove, LfMachine.Run, BucketOf;
    var s, s' := State(c, bk, heap, alloc, r, w), State(c, bk', heap', alloc', r, w');
    assert s'.ths == s.ths[1 := w'] && s'.bks[B(c)] == bk';
    Extend(c, tr, s, s', 1);
    tr' := tr + [s'];
  }

  const Nil: Head := Head(0, 0, [])

  /** A thread in its first call. */
  function Caller(c: Scene, op: A.Op, lin: bool, pc: LPc, node: nat): LTh
    requires 0 < c.n < TWO64
  {
    NewLTh(c.n).(hist := [op], b := B(c), lin := lin, pc := pc, node := node)
  }

  lemma Begin(c: Scene) returns (tr: seq<LS>)
    requires SameBucket(c)
    ensures |tr| == 3
    ensures Reaches(c, tr, State(c, Nil, map[], {}, Caller(c, A.Get(c.key), true, LTag, 0),
                                 Caller(c, A.Ins(c.other, 0), false, SAlloc, 0)))
  {
    hide BucketOf;
    var nobody := NewLTh(c.n);
    var s0 := State(c, Nil, map[], {}, nobody, nobody);
    var r, w := Caller(c, A.Get(c.key), true, LTag, 0), Caller(c, A.Ins(c.other, 0), false, SAlloc, 0);
    var s1 := State(c, Nil, map[], {}, r, nobody);
    var s2 := State(c, Nil, map[], {}, r, w);
    assert LfMachine.Init(s0);
    assert Reaches(c, [s0], s0);
    assert s1.ths == s0.ths[0 := r] && s2.ths == s1.ths[1 := w];
    assert [A.Get(c.key)] == [] + [A.Get(c.key)] && [A.Ins(c.other, 0)] == [] + [A.Ins(c.other, 0)];
    assert LfMachine.CallMove(s0, nobody, s1, r);
    assert LfMachine.CallMove(s1, nobody, s2, w);
    hide Reaches, LfMachine.Init, LfMachine.CallMove;
    Extend(c, [s0], s0, s1, 0);
    Extend(c, [s0] + [s1], s1, s2, 1);
    tr := [s0] + [s1] + [s2];
  }

  /** The bucket after the insert. */
  function Grown(c: Scene): Head { Head(1, 1, [KV(c.other, 0)]) }

  /** The lookup reads init_tag; then the insert runs to its winning compare-and-swap. */
  lemma Overtake(c: Scene) returns (tr: seq<LS>, r: LTh, w: LTh)
    requires SameBucket(c)
    ensures Reaches(c, tr, State(c, Grown(c), map[1 := Cell(c.other, 0, 0)], {1}, r, w))
    ensures r == Caller(c, A.Get(c.key), true, LHead, 0)
  {
    tr := Begin(c);
    hide BucketOf, Reaches;
    r, w := Caller(c, A.Get(c.key), true, LTag, 0), Caller(c, A.Ins(c.other, 0), false, SAlloc, 0);
    tr := Looks(c, tr, Nil, map[], {}, r, w, r.(pc := LHead));
    r := r.(pc := LHead);
    assert {} + {1} == {1};
    tr := Inserts(c, tr, Nil, map[], {}, r, w, Nil, map[], {1}, w.(node := 1, pc := STag));
    w := w.(node := 1, pc := STag);
    tr := Inserts(c, tr, Nil, map[], {1}, r, w, Nil, map[], {1}, w.(pc := SNext(0)));
    w := w.(pc := SNext(0));
    tr := Inserts(c, tr, Nil, map[], {1}, r, w, Nil, map[], {1}, w.(pc := SCas(0, 0)));
    w := w.(pc := SCas(0, 0));
    tr := Commit(c, tr, r, w);
    w := w.(pc := SRet, own := Bump(w.own, w.b));
  }

  lemma Commit(c: Scene, tr: seq<LS>, r: LTh, w: LTh) returns (tr': seq<LS>)
    requires SameBucket(c) && Reaches(c, tr, State(c, Nil, map[], {1}, r, w))
    requires w == Caller(c, A.Ins(c.other, 0), false, SCas(0, 0), 1)
    ensures Reaches(c, tr', State(c, Grown(c), map[1 := Cell(c.other, 0, 0)], {1}, r,
                                  w.(pc := SRet, own := Bump(w.own, w.b))))
  {
    hide BucketOf, Reaches;
    var heap := map[1 := Cell(c.other, 0, 0)];
    var w' := w.(pc := SRet, own := Bump(w.own, w.b));
    var s, s' := State(c, Nil, map[], {1}, r, w), State(c, Grown(c), heap, {1}, r, w');
    assert [KV(c.other, 0)] + Nil.cont == Grown(c).cont;
    assert map[][1 := Cell(c.other, 0, 0)] == heap;
    assert s'.bks == s.bks[B(c) := Grown(c)];
    assert s.bks[B(c)] == Nil;
    tr' := Inserts(c, tr, Nil, map[], {1}, r, w, Grown(c), heap, {1}, w');
  }

  /**
   For any two different keys of one bucket: a run in which thread 0 looks one of them up, the other is
   inserted meanwhile, and the check at i sends the lookup round again, although no list of the run ever
   had its key. MovedTagNeverMatches says every later check will do the same.
   */
  lemma OneInsertBlocksTheMiss(c: Scene) returns (tr: seq<LS>, i: nat)
    requires SameBucket(c)
    ensures LfMachine.Run(tr) && i + 2 == |tr| && |tr[i].ths| == |tr[i + 1].ths| == 2
    ensures tr[i].ths[0].hist == tr[i + 1].ths[0].hist == [A.Get(c.key)] && tr[i].ths[0].lin
    ensures tr[i].ths[0].pc == LCheck && tr[i + 1].ths[0].pc == LHead
    ensures |tr[i].bks| == |tr[i + 1].bks| == c.n
    ensures tr[i + 1].bks[B(c)].cont == [KV(c.other, 0)] && tr[i + 1].bks[B(c)].tag != tr[i + 1].ths[0].init
    ensures forall j :: 0 <= j < |tr| ==> |tr[j].bks| == c.n && !HasKey(tr[j].bks[B(c)].cont, c.key)
  {
    var r, w;
    tr, r, w := Overtake(c);
    hide BucketOf, Reaches;
    var bk, heap := Grown(c), map[1 := Cell(c.other, 0, 0)];
    var r1 := r.(pc := LKey(1), view := bk.cont, rest := bk.cont);
    tr := Looks(c, tr, bk, heap, {1}, r, w, r1);
    tr := Looks(c, tr, bk, heap, {1}, r1, w, r1.(pc := LNext(1)));
    var r2 := r1.(pc := LCheck, rest := Tail(r1.rest), hops := 1);
    tr := Looks(c, tr, bk, heap, {1}, r1.(pc := LNext(1)), w, r2);
    ghost var before := tr;
    tr := Looks(c, tr, bk, heap, {1}, r2, w, r2.(pc := LHead));
    i := |tr| - 2;
    Ends(c, before, tr, State(c, bk, heap, {1}, r2, w), State(c, bk, heap, {1}, r2.(pc := LHead), w));
  }

  lemma Ends(c: Scene, before: seq<LS>, tr: seq<LS>, s: LS, s': LS)
    requires Reaches(c, before, s) && Reaches(c, tr, s') && tr == before + [s']
    ensures LfMachine.Run(tr) && |tr| >= 2 && tr[|tr| - 2] == s && tr[|tr| - 1] == s'
    ensures forall j :: 0 <= j < |tr| ==> |tr[j].bks| == c.n && !HasKey(tr[j].bks[B(c)].cont, c.key)
  {
    hide LfMachine.Next, LfMachine.Init;
  }

  /** Such keys exist: in a table of one bucket, those mixed to 0 and to 2. */
  lemma SceneExists()
    ensures SameBucket(Scene(1, Unmix(0), Unmix(2)))
  {
    MixIsBijective(0);
    MixIsBijective(2);
  }
}
