/**
 lf_hash_table (lfht.hpp) over the lock-free list (list.hpp), run by any number of threads: every
 read of a tag, of head->next and of a node field, and every double-word compare-and-swap, is one
 step of one thread. Nodes are never freed.
 */
module LfMachine {
  import opened Words
  import opened Assoc
  import opened VlMachine
  import A = AtomicTable

  /** A list head: tag and next, the pair the compare-and-swap covers. cont is history: the inserts, newest first. */
  datatype Head = Head(tag: u64, next: nat, cont: seq<KV>)

  datatype LPc =
    | Ready(res: A.Res)
    // lf_insert
    | SAlloc | STag | SNext(tag: u64) | SCas(tag: u64, nx: nat) | SRet
    // lf_lookup_snapshot, and with lin set lf_lookup_linearizable
    | LTag | LHead | LKey(curr: nat) | LVal(curr: nat) | LNext(curr: nat) | LCheck | LRet(val: u64)

  /** A thread. The fields after init are history. */
  datatype LTh = LTh(
    hist: seq<A.Op>, b: nat, lin: bool, pc: LPc, node: nat, init: u64,
    view: seq<KV>,   // contents at the last read of head->next
    rest: seq<KV>,   // the part of view not yet passed
    hops: nat,       // advances since that read
    mark: seq<KV>,   // contents when init was read
    fails: seq<nat>, // per list, failed compare-and-swaps of this thread over all its calls
    own: seq<nat>,   // per list, its successful ones
    len: nat)        // length of the list when this attempt read the tag

  datatype LS = LS(bks: seq<Head>, heap: map<nat, Cell>, alloc: set<nat>, ths: seq<LTh>)

  function Bump(counts: seq<nat>, b: nat): seq<nat> {
    if b < |counts| then counts[b := counts[b] + 1] else counts
  }

  // ----- steps -----

  function VisitLf(lin: bool, p: nat): LPc {
    if p != 0 then LKey(p) else if lin then LCheck else LRet(UINT64_MAX)
  }

  /** A call of insert or of either lookup. */
  ghost predicate CallMove(s: LS, th: LTh, s': LS, th': LTh) {
    && th.pc.Ready? && |s.bks| < TWO64 && s' == s.(ths := s'.ths)
    && A.Call(|s.bks|, th.hist, th.b, th'.hist, th'.b)
    && !A.Last(th'.hist).Del?
    && th' == th.(hist := th'.hist, b := th'.b, lin := th'.lin,
                  pc := if A.Last(th'.hist).Ins? then SAlloc else if th'.lin then LTag else LHead)
  }

  ghost predicate InsertMove(s: LS, th: LTh, s': LS, th': LTh)
    requires th.hist != [] && th.b < |s.bks|
  {
    var op := A.Last(th.hist);
    var bk := s.bks[th.b];
    op.Ins? &&
    match th.pc
    case SAlloc =>
      && th'.node != 0 && th'.node !in s.alloc
      && s' == s.(alloc := s.alloc + {th'.node}, ths := s'.ths)
      && th' == th.(node := th'.node, pc := STag)
    case STag => s' == s.(ths := s'.ths) && th' == th.(pc := SNext(bk.tag), len := |bk.cont|)
    case SNext(tag) => s' == s.(ths := s'.ths) && th' == th.(pc := SCas(tag, bk.next))
    case SCas(tag, nx) =>
      if bk.tag == tag && bk.next == nx then
        && s' == s.(heap := s.heap[th.node := Cell(op.key, op.val, nx)], ths := s'.ths,
                    bks := s.bks[th.b := Head((tag + 1) % TWO64, th.node, [KV(op.key, op.val)] + bk.cont)])
        && th' == th.(pc := SRet, own := Bump(th.own, th.b))
      else s' == s.(ths := s'.ths) && th' == th.(pc := STag, fails := Bump(th.fails, th.b))
    case SRet => s' == s.(ths := s'.ths) && th' == th.(pc := Ready(A.Done))
    case _ => false
  }

  ghost predicate LookupMoveLf(s: LS, th: LTh, s': LS, th': LTh)
    requires th.hist != [] && th.b < |s.bks|
  {
    var key := A.Last(th.hist).key;
    var bk := s.bks[th.b];
    s' == s.(ths := s'.ths) &&
    match th.pc
    case LTag => th' == th.(init := bk.tag, mark := bk.cont, pc := LHead)
    case LHead => th' == th.(pc := VisitLf(th.lin, bk.next), view := bk.cont, rest := bk.cont, hops := 0)
    case LKey(curr) =>
      curr in s.heap && th' == th.(pc := if s.heap[curr].key == key then LVal(curr) else LNext(curr))
    case LVal(curr) => curr in s.heap && th' == th.(pc := LRet(s.heap[curr].val))
    case LNext(curr) =>
      curr in s.heap && th' == th.(pc := VisitLf(th.lin, s.heap[curr].next), rest := Tail(th.rest), hops := th.hops + 1)
    case LCheck => th' == th.(pc := if bk.tag != th.init then LHead else LRet(UINT64_MAX))
    case LRet(val) => th' == th.(pc := Ready(A.Val(val)))
    case _ => false
  }

  ghost predicate StepBy(s: LS, s': LS, t: nat) {
    && t < |s.ths| == |s'.ths| && s'.ths == s.ths[t := s'.ths[t]]
    && var th, th' := s.ths[t], s'.ths[t];
       || CallMove(s, th, s', th')
       || (th.hist != [] && th.b < |s.bks| && (InsertMove(s, th, s', th') || LookupMoveLf(s, th, s', th')))
  }

  ghost predicate Next(s: LS, s': LS) {
    exists t: nat :: StepBy(s, s', t)
  }

  function NewLTh(n: nat): LTh {
    LTh([], 0, false, Ready(A.None), 0, 0, [], [], 0, [], seq(n, _ => 0), seq(n, _ => 0), 0)
  }

  ghost predicate Init(s: LS) {
    && |s.bks| > 0 && s.heap == map[] && s.alloc == {}
    && (forall b :: 0 <= b < |s.bks| ==> s.bks[b] == Head(0, 0, []))
    && forall t :: 0 <= t < |s.ths| ==>
         s.ths[t] == NewLTh(|s.bks|)
  }

  ghost predicate Run(tr: seq<LS>) {
    |tr| > 0 && Init(tr[0]) && forall i :: 0 <= i < |tr| - 1 ==> Next(tr[i], tr[i + 1])
  }
}
