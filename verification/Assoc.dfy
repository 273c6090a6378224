/** What a bucket means: a sequence of key/value pairs, newest first. */
module Assoc {
  import opened Words

  datatype KV = KV(key: u64, val: u64)

  /** The value of the newest pair with this key, or the source's miss value UINT64_MAX. */
  function Lookup(s: seq<KV>, k: u64): u64 {
    if s == [] then UINT64_MAX
    else if s[0].key == k then s[0].val
    else Lookup(s[1..], k)
  }

  predicate HasKey(s: seq<KV>, k: u64) {
    exists i :: 0 <= i < |s| && s[i].key == k
  }

  /** Drops the newest pair with this key. */
  function RemoveFirst(s: seq<KV>, k: u64): seq<KV> {
    if s == [] then []
    else if s[0].key == k then s[1..]
    else [s[0]] + RemoveFirst(s[1..], k)
  }

  /** The sequence with position i taken out, if it has one. */
  function Without<T>(s: seq<T>, i: nat): seq<T> { if i < |s| then s[..i] + s[i + 1..] else s }

  lemma WithoutElements<T>(s: seq<T>, i: nat)
    requires i < |s|
    ensures |Without(s, i)| == |s| - 1
    ensures forall j :: 0 <= j < i ==> Without(s, i)[j] == s[j]
    ensures forall j :: i <= j < |s| - 1 ==> Without(s, i)[j] == s[j + 1]
  {}

  /** Position i holds the newest pair with key k. */
  ghost predicate FirstAt(s: seq<KV>, k: u64, i: nat) {
    i < |s| && s[i].key == k && forall j :: 0 <= j < i ==> s[j].key != k
  }

  lemma {:induction false} LookupFirst(s: seq<KV>, k: u64, i: nat)
    requires FirstAt(s, k, i)
    ensures Lookup(s, k) == s[i].val
  {
    if i > 0 {
      assert FirstAt(s[1..], k, i - 1);
      LookupFirst(s[1..], k, i - 1);
    }
  }

  lemma {:induction false} LookupMiss(s: seq<KV>, k: u64)
    requires !HasKey(s, k)
    ensures Lookup(s, k) == UINT64_MAX
  {
    if s != [] {
      assert s[0].key != k;
      forall i | 0 <= i < |s[1..]| ensures s[1..][i].key != k {
        assert s[i + 1].key != k;
      }
      LookupMiss(s[1..], k);
    }
  }

  lemma {:induction false} FirstExists(s: seq<KV>, k: u64) returns (i: nat)
    requires HasKey(s, k)
    ensures FirstAt(s, k, i)
  {
    i := 0;
    while s[i].key != k
      invariant i < |s|
      invariant forall j :: 0 <= j < i ==> s[j].key != k
      decreases |s| - i
    {
      if i + 1 == |s| {
        assert forall j :: 0 <= j < |s| ==> s[j].key != k;
        assert false;
      }
      i := i + 1;
    }
  }

  lemma {:induction false} RemoveFirstAt(s: seq<KV>, k: u64, i: nat)
    requires FirstAt(s, k, i)
    ensures RemoveFirst(s, k) == s[..i] + s[i + 1..]
  {
    if i > 0 {
      assert FirstAt(s[1..], k, i - 1);
      RemoveFirstAt(s[1..], k, i - 1);
      assert s[..i] == [s[0]] + s[1..][..i - 1];
      assert s[1..][i..] == s[i + 1..];
    } else {
      assert s[..0] + s[1..] == s[1..];
    }
  }

  lemma {:induction false} RemoveFirstAbsent(s: seq<KV>, k: u64)
    requires !HasKey(s, k)
    ensures RemoveFirst(s, k) == s
  {
    if s != [] {
      assert s[0].key != k;
      forall i | 0 <= i < |s[1..]| ensures s[1..][i].key != k {
        assert s[i + 1].key != k;
      }
      RemoveFirstAbsent(s[1..], k);
    }
  }

  /**
   What one insert and one remove do to every later lookup: the pair inserted last wins,
   other keys are untouched, and removing a key uncovers exactly what its newest pair hid.
   */
  lemma {:induction false} InsertThenRemoveRestores(s: seq<KV>, k: u64, v: u64, other: u64)
    ensures Lookup([KV(k, v)] + s, k) == v
    ensures RemoveFirst([KV(k, v)] + s, k) == s
    ensures other != k ==> Lookup([KV(k, v)] + s, other) == Lookup(s, other)
    ensures other != k ==> Lookup(RemoveFirst(s, k), other) == Lookup(s, other)
  {
    assert ([KV(k, v)] + s)[1..] == s;
    if other != k {
      RemoveKeepsOthers(s, k, other);
    }
  }

  lemma {:induction false} RemoveKeepsOthers(s: seq<KV>, k: u64, other: u64)
    requires other != k
    ensures Lookup(RemoveFirst(s, k), other) == Lookup(s, other)
  {
    if s != [] && s[0].key != k {
      RemoveKeepsOthers(s[1..], k, other);
    }
  }
}
