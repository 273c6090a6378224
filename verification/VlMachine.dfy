/**
 vl_hash_table (vlht.hpp) run by any number of threads: every read and write of a counter, of
 head->next and of a node field is one step of one thread, interleaved freely. Memory freed by a
 remove may be reused at once, and reading an address that is not a node of the bucket returns
 anything at all.
 */
module VlMachine {
  import opened Words
  import opened Assoc
  import opened LockMachine
  import A = AtomicTable

  datatype Cell = Cell(key: u64, val: u64, next: nat)

  /**
   A bucket: its lock, its node memory, and head->next (0 is NULL). The rest is history: chain, the
   addresses the list runs through, which Linked ties to the memory; and cuts, the unlinks so far.
   */
  datatype Bkt = Bkt(lk: Lk, heap: map<nat, Cell>, head: nat, chain: seq<nat>, cuts: nat)

  datatype PC =
    | Idle(res: A.Res)
    // lookup
    | GSnap                                    // read_lock_no_wait
    | GHead                                    // read head->next
    | GKey(curr: nat)                          // read curr->key
    | GVal(curr: nat)                          // read curr->val
    | GNext(curr: nat)                         // read curr->next
    | GCheck(val: u64)                         // read_unlock
    // insert and remove
    | WLock                                    // write_lock
    | IAlloc                                   // alloc_node
    | INext(a: nat)                            // read head->next into the new node
    | IPub(a: nat, nx: nat)                    // write head->next
    | DHead                                    // read head->next
    | DKey(prev: nat, curr: nat)               // read curr->key; prev is 0 for the sentinel
    | DNext(curr: nat)                         // read curr->next
    | DLoad(prev: nat, curr: nat)              // read curr->next of the match
    | DUnlink(prev: nat, curr: nat, nx: nat)   // write prev->next
    | DFree(curr: nat)                         // delete curr
    | WUnlock                                  // write_unlock
    | Failed                                   // assert(ret) in remove

  /** A thread. The fields after pc are history: they never influence a step. */
  datatype VTh = VTh(
    hist: seq<A.Op>, b: nat, l: LPC, pc: PC,
    view: seq<KV>,   // the bucket's contents when this attempt read head->next
    rest: seq<KV>,   // the part of view not yet passed
    hops: nat,       // advances in this attempt
    wild: bool,      // this attempt has read an address that is not a node
    first: nat,      // the counter when the call began
    tries: nat,      // failed validations in this call
    at: nat,         // position of a remove's walk
    seen: nat)       // the bucket's unlinks when this attempt read head->next

  datatype VS = VS(bks: seq<Bkt>, ths: seq<VTh>)

  // ----- steps -----

  function Visit(p: nat): PC { if p == 0 then GCheck(UINT64_MAX) else GKey(p) }

  function Tail(s: seq<KV>): seq<KV> { if s == [] then [] else s[1..] }

  function KVAt(heap: map<nat, Cell>, a: nat): KV { if a in heap then KV(heap[a].key, heap[a].val) else KV(0, 0) }

  function Cont(bk: Bkt): seq<KV> { seq(|bk.chain|, i requires 0 <= i < |bk.chain| => KVAt(bk.heap, bk.chain[i])) }

  ghost predicate LookupMove(bk: Bkt, th: VTh, bk': Bkt, th': VTh)
    requires th.hist != []
  {
    var key := A.Last(th.hist).key;
    bk' == bk &&
    match th.pc
    case GSnap => th' == th.(l := Reading(bk.lk.version), pc := GHead, wild := false)
    case GHead => th' == th.(pc := Visit(bk.head), view := Cont(bk), rest := Cont(bk), hops := 0, seen := bk.cuts)
    case GKey(curr) =>
      && th' == th.(pc := th'.pc, wild := th.wild || curr !in bk.heap)
      && (th'.pc == GVal(curr) || th'.pc == GNext(curr))
      && (curr in bk.heap ==> th'.pc == if bk.heap[curr].key == key then GVal(curr) else GNext(curr))
    case GVal(curr) =>
      && th' == th.(pc := th'.pc, wild := th.wild || curr !in bk.heap)
      && th'.pc.GCheck? && (curr in bk.heap ==> th'.pc.val == bk.heap[curr].val)
    case GNext(curr) =>
      && th' == th.(pc := th'.pc, wild := th.wild || curr !in bk.heap, hops := th.hops + 1, rest := Tail(th.rest))
      && (th'.pc == GCheck(UINT64_MAX) || (th'.pc.GKey? && th'.pc.curr != 0))
      && (curr in bk.heap ==> th'.pc == Visit(bk.heap[curr].next))
    case GCheck(val) =>
      && th.l.Reading? && th.l.snap <= bk.lk.version
      && th' == if th.l.snap == bk.lk.version then th.(l := Out, pc := Idle(A.Val(val)))
                else th.(l := Out, pc := GSnap, tries := th.tries + 1)
    case _ => false
  }

  ghost predicate LockingMove(bk: Bkt, th: VTh, bk': Bkt, th': VTh)
    requires th.hist != []
  {
    match th.pc
    case WLock =>
      if th.l.Cas? then
        var (k', l') := TryCas(bk.lk, th.l.ver);
        var body := if A.Last(th.hist).Ins? then IAlloc else DHead;
        bk' == bk.(lk := k') && th' == th.(l := l', pc := if l'.Held? then body else WLock)
      else bk' == bk && th' == th.(l := LoadForWrite(bk.lk))
    case WUnlock => (
      match th.l
      case Held => var (k', l') := LoadForRelease(bk.lk); bk' == bk.(lk := k') && th' == th.(l := l')
      case Rel(ver) =>
        var (k', l') := Release(AsWritten, bk.lk, ver);
        ver % 2 == 1 && bk' == bk.(lk := k') && th' == th.(l := l', pc := if l'.Out? then Idle(A.Done) else WUnlock)
      case Faa => bk' == bk.(lk := Increment(bk.lk).0) && th' == th.(l := Out, pc := Idle(A.Done))
      case _ => false)
    case _ => false
  }

  ghost predicate WriteMove(bk: Bkt, th: VTh, bk': Bkt, th': VTh)
    requires th.hist != []
  {
    var op := A.Last(th.hist);
    match th.pc
    case IAlloc => bk' == bk && th' == th.(pc := th'.pc) && th'.pc.INext? && th'.pc.a != 0 && th'.pc.a !in bk.heap
    case INext(a) => bk' == bk && th' == th.(pc := IPub(a, bk.head))
    case IPub(a, nx) =>
      && op.Ins? && bk' == bk.(heap := bk.heap[a := Cell(op.key, op.val, nx)], head := a, chain := [a] + bk.chain)
      && th' == th.(pc := WUnlock)
    case DHead => bk' == bk && th' == th.(at := 0, pc := if bk.head == 0 then Failed else DKey(0, bk.head))
    case DKey(prev, curr) =>
      && bk' == bk && curr in bk.heap
      && th' == th.(pc := if bk.heap[curr].key == op.key then DLoad(prev, curr) else DNext(curr))
    case DNext(curr) =>
      && bk' == bk && curr in bk.heap
      && var p := bk.heap[curr].next;
         th' == th.(at := th.at + 1, pc := if p == 0 then Failed else DKey(curr, p))
    case DLoad(prev, curr) =>
      bk' == bk && curr in bk.heap && th' == th.(pc := DUnlink(prev, curr, bk.heap[curr].next))
    case DUnlink(prev, curr, nx) =>
      && (if prev == 0 then bk'.heap == bk.heap && bk'.head == nx
          else prev in bk.heap && bk'.heap == bk.heap[prev := bk.heap[prev].(next := nx)] && bk'.head == bk.head)
      && bk'.lk == bk.lk && bk'.chain == Without(bk.chain, th.at) && bk'.cuts == bk.cuts + 1
      && th' == th.(pc := DFree(curr))
    case DFree(curr) => curr in bk.heap && bk' == bk.(heap := bk.heap - {curr}) && th' == th.(pc := WUnlock)
    case _ => false
  }

  /** A call enters lookup or write_lock; the key must hash to a bucket of the table. */
  ghost predicate CallMove(s: VS, th: VTh, th': VTh) {
    && th.pc.Idle? && |s.bks| < TWO64
    && A.Call(|s.bks|, th.hist, th.b, th'.hist, th'.b)
    && th' == VTh(th'.hist, th'.b, Out, if A.Last(th'.hist).Get? then GSnap else WLock,
                  [], [], 0, false, s.bks[th'.b].lk.version, 0, 0, 0)
  }

  ghost predicate BucketMove(bk: Bkt, th: VTh, bk': Bkt, th': VTh) {
    th.hist != [] &&
    (LookupMove(bk, th, bk', th') || LockingMove(bk, th, bk', th') || WriteMove(bk, th, bk', th'))
  }

  ghost predicate StepBy(s: VS, s': VS, t: nat) {
    && t < |s.ths| == |s'.ths| && s'.ths == s.ths[t := s'.ths[t]]
    && var th, th' := s.ths[t], s'.ths[t];
       || (s'.bks == s.bks && CallMove(s, th, th'))
       || (th.b < |s.bks| == |s'.bks| && s'.bks == s.bks[th.b := s'.bks[th.b]] &&
           BucketMove(s.bks[th.b], th, s'.bks[th.b], th'))
  }

  ghost predicate Next(s: VS, s': VS) {
    exists t: nat :: StepBy(s, s', t)
  }

  ghost predicate Init(s: VS) {
    && |s.bks| > 0
    && (forall b :: 0 <= b < |s.bks| ==> s.bks[b] == Bkt(Free, map[], 0, [], 0))
    && forall t :: 0 <= t < |s.ths| ==> s.ths[t] == VTh([], 0, Out, Idle(A.None), [], [], 0, false, 0, 0, 0, 0)
  }

  ghost predicate Run(tr: seq<VS>) {
    |tr| > 0 && Init(tr[0]) && forall i :: 0 <= i < |tr| - 1 ==> Next(tr[i], tr[i + 1])
  }
}
