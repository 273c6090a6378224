/**
 The atomic table run by one thread at a time is the table function Apply: the specification of the
 interleaved machines and that of the table objects are the same.
 */
module Sequential {
  import opened Assoc
  import opened Hash
  import opened FlatTable
  import A = AtomicTable

  /** Where an operation with answer r leaves its thread once it is in effect. */
  function InEffect(op: A.Op, r: A.Res): A.APC {
    if op.Get? && r.Val? then A.Got(r.v) else if r.None? then A.Failed else A.Committed
  }

  /** A call takes effect in the atomic table exactly as Apply has it. */
  lemma EffectIsApply(tab: seq<seq<KV>>, th: A.ATh, tab': seq<seq<KV>>, th': A.ATh)
    requires th.hist != [] && InRange(|tab|, A.Last(th.hist)) && th.b == BucketOf(A.Last(th.hist).key, |tab|)
    ensures A.Effect(tab, th, tab', th')
       <==> tab' == Apply(tab, A.Last(th.hist)).0 &&
            th' == th.(pc := InEffect(A.Last(th.hist), Apply(tab, A.Last(th.hist)).1))
  {
    hide BucketOf;
    var op := A.Last(th.hist);
    if op.Del? && !HasKey(tab[th.b], op.key) {
      RemoveFirstAbsent(tab[th.b], op.key);
      assert tab[th.b := tab[th.b]] == tab;
    }
  }

  /** How far a call of op that found the table tab0 has got, when nobody else has changed the table since. */
  ghost predicate Outcome(tab0: seq<seq<KV>>, op: A.Op, tab: seq<seq<KV>>, pc: A.APC)
    requires InRange(|tab0|, op)
  {
    match pc
    case Pend => tab == tab0
    case Idle(r) => (tab, r) == Apply(tab0, op) && !r.None?
    case _ => tab == Apply(tab0, op).0 && pc == InEffect(op, Apply(tab0, op).1)
  }

  lemma OutcomeStep(a: A.AS, a': A.AS, t: nat, tab0: seq<seq<KV>>)
    requires A.StepBy(true, a, a', t) && !a.ths[t].pc.Idle?
    requires a.ths[t].hist != [] && |a.tab| == |tab0| && InRange(|tab0|, A.Last(a.ths[t].hist))
    requires a.ths[t].b == BucketOf(A.Last(a.ths[t].hist).key, |tab0|)
    requires Outcome(tab0, A.Last(a.ths[t].hist), a.tab, a.ths[t].pc)
    ensures Outcome(tab0, A.Last(a.ths[t].hist), a'.tab, a'.ths[t].pc)
  {
    hide BucketOf;
    if a.ths[t].pc.Pend? {
      EffectIsApply(a.tab, a.ths[t], a'.tab, a'.ths[t]);
      hide A.Effect;
    } else {
      GetKeepsTable(tab0, A.Last(a.ths[t].hist));
      hide A.Effect;
    }
  }

  /** A lookup may sample again, since it has changed nothing. */
  lemma GetKeepsTable(tab0: seq<seq<KV>>, op: A.Op)
    requires InRange(|tab0|, op)
    ensures InEffect(op, Apply(tab0, op).1).Got? ==> Apply(tab0, op).0 == tab0
    ensures op.Get? <==> Apply(tab0, op).1.Val?
  {}
}
