/** The bucket list of list.hpp and node.hpp: nodes linked through `next` behind a sentinel. */
module BucketList {
  import opened Words
  import opened Assoc

  class Node {
    var key: u64
    var val: u64
    var tag: u64
    var next: Node?

    constructor (key: u64, val: u64)
      ensures this.key == key && this.val == val && tag == 0 && next == null
    {
      this.key, this.val, tag, next := key, val, 0, null;
    }
  }

  class List {
    const head: Node              // the sentinel
    ghost var spine: seq<Node>    // the nodes behind it, in order
    ghost var items: seq<KV>      // what they hold
    ghost var repr: set<object>   // every object in use

    ghost function NodeAt(i: nat): Node?
      reads this
    {
      if i < |spine| then spine[i] else null
    }

    ghost predicate Valid()
      reads this, repr
      ensures Valid() ==> this in repr && head in repr && |items| == |spine|
    {
      && this in repr && head in repr && head !in spine && |items| == |spine|
      && head.next == NodeAt(0)
      && (forall i :: 0 <= i < |spine| ==> spine[i] in repr && Holds(spine[i], i))
      && (forall i, j :: 0 <= i < j < |spine| ==> spine[i] != spine[j])
    }

    ghost predicate Holds(n: Node, i: nat)
      requires i < |items|
      reads this, n
    {
      n.next == NodeAt(i + 1) && items[i] == KV(n.key, n.val)
    }

    constructor ()
      ensures Valid() && items == [] && fresh(repr) && head.tag == 0
    {
      head := new Node(UINT64_MAX, UINT64_MAX);
      spine, items := [], [];
      repr := {this, head};
    }

    method Insert(key: u64, val: u64) returns (ok: bool)
      requires Valid()
      modifies this, head
      ensures Valid() && ok && fresh(repr - old(repr))
      ensures items == [KV(key, val)] + old(items)
      ensures |spine| > 0 && spine == [spine[0]] + old(spine) && fresh(spine[0])
      ensures head.tag == old(head.tag)
    {
      var newNode := new Node(key, val);
      newNode.next := head.next;
      head.next := newNode;
      PushFront(newNode);
      return true;
    }

    /** Brings the specification state up to date with a new first node. */
    ghost method PushFront(n: Node)
      requires this in repr && head in repr && head !in spine && |items| == |spine|
      requires n !in repr && n.next == NodeAt(0) && head.next == n
      requires forall i :: 0 <= i < |spine| ==> spine[i] in repr && Holds(spine[i], i)
      requires forall i, j :: 0 <= i < j < |spine| ==> spine[i] != spine[j]
      modifies this
      ensures Valid() && spine == [n] + old(spine) && items == [KV(n.key, n.val)] + old(items)
      ensures repr == old(repr) + {n}
    {
      spine, items, repr := [n] + spine, [KV(n.key, n.val)] + items, repr + {n};
    }

    method Lookup(target: u64) returns (val: u64)
      requires Valid()
      ensures val == Assoc.Lookup(items, target)
    {
      var curr := head.next;
      ghost var i := 0;
      assert items[0..] == items;
      while curr != null
        invariant i <= |spine| && curr == NodeAt(i)
        invariant Assoc.Lookup(items, target) == Assoc.Lookup(items[i..], target)
        decreases |spine| - i
      {
        assert Holds(spine[i], i);
        if curr.key == target { return curr.val; }
        assert items[i..][1..] == items[i + 1..];
        curr := curr.next;
        i := i + 1;
      }
      return UINT64_MAX;
    }

    /** `prev->next = curr->next`: takes the node at position i out of the list. */
    method Unlink(prev: Node, curr: Node, ghost i: nat)
      requires Valid() && i < |spine| && curr == spine[i]
      requires prev == if i == 0 then head else spine[i - 1]
      modifies this, prev
      ensures Valid() && repr == old(repr)
      ensures spine == Without(old(spine), i) && items == Without(old(items), i)
      ensures head.tag == old(head.tag)
    {
      assert forall j :: 0 <= j < |spine| ==> Holds(spine[j], j);
      prev.next := curr.next;
      DropAt(i);
    }

    /** Brings the specification state up to date after position i has been bypassed. */
    ghost method DropAt(i: nat)
      requires this in repr && head in repr && head !in spine && |items| == |spine| && i < |spine|
      requires head.next == if i == 0 then NodeAt(1) else NodeAt(0)
      requires forall j :: 0 <= j < |spine| && j != i ==> Bypasses(spine[j], j, i)
      requires forall j, k :: 0 <= j < k < |spine| ==> spine[j] != spine[k]
      modifies this
      ensures Valid() && repr == old(repr)
      ensures spine == Without(old(spine), i) && items == Without(old(items), i)
    {
      WithoutElements(spine, i);
      WithoutElements(items, i);
      hide Without;
      spine, items := Without(spine, i), Without(items, i);
      forall j | 0 <= j < |spine| ensures spine[j] in repr && Holds(spine[j], j) {
        assert old(Bypasses(spine[if j < i then j else j + 1], if j < i then j else j + 1, i));
      }
    }

    ghost predicate Bypasses(n: Node, j: nat, i: nat)
      requires j < |items|
      reads this, n
    {
      n in repr && items[j] == KV(n.key, n.val) && n.next == if j + 1 == i then NodeAt(i + 1) else NodeAt(j + 1)
    }

    /** Unlinks the first node with the key, if there is one; every other node stays, in order. */
    method Remove(target: u64) returns (found: bool)
      requires Valid()
      modifies repr
      ensures Valid() && repr == old(repr)
      ensures found <==> HasKey(old(items), target)
      ensures items == RemoveFirst(old(items), target)
      ensures !found ==> spine == old(spine)
      ensures found ==> exists i :: 0 <= i < |old(spine)| && FirstAt(old(items), target, i) &&
                                    spine == Without(old(spine), i)
      ensures head.tag == old(head.tag)
    {
      var prev, curr := head, head.next;
      ghost var i := 0;
      while curr != null
        invariant i <= |spine| && curr == NodeAt(i)
        invariant prev == if i == 0 then head else spine[i - 1]
        invariant forall j :: 0 <= j < i ==> items[j].key != target
        decreases |spine| - i
      {
        assert Holds(spine[i], i);
        if curr.key == target {
          assert FirstAt(items, target, i);
          RemoveFirstAt(items, target, i);
          Unlink(prev, curr, i);
          return true;
        }
        prev := curr;
        curr := curr.next;
        i := i + 1;
      }
      assert !HasKey(items, target);
      RemoveFirstAbsent(items, target);
      return false;
    }

    /** The count is a C int: the list must not be longer than that can say. */
    method GetListSize() returns (n: int32)
      requires Valid() && |items| <= INT_MAX
      ensures n as int == |items|
    {
      var curr := head.next;
      n := 0;
      while curr != null
        invariant 0 <= n as int <= |spine| && curr == NodeAt(n as int)
        decreases |spine| - n as int
      {
        assert Holds(spine[n as int], n as int);
        curr := curr.next;
        n := n + 1;
      }
    }

    /** The store of a winning double-word compare-and-swap. */
    method Publish(n: Node, tag: u64)
      requires Valid() && n !in repr && n.next == head.next
      modifies this, head
      ensures Valid() && repr == old(repr) + {n} && head.tag == tag
      ensures items == [KV(n.key, n.val)] + old(items) && spine == [n] + old(spine)
    {
      head.tag, head.next := tag, n;
      PushFront(n);
    }

    /** lf_insert with no other thread between its reads and its double-word compare-and-swap. */
    method LfInsert(key: u64, val: u64) returns (ok: bool)
      requires Valid()
      modifies this, head
      ensures Valid() && ok && fresh(repr - old(repr))
      ensures items == [KV(key, val)] + old(items)
      ensures |spine| > 0 && spine == [spine[0]] + old(spine) && fresh(spine[0])
      ensures head.tag == (old(head.tag) + 1) % TWO64
    {
      hide Valid, NodeAt;
      var newNode := new Node(key, val);
      ok := false;
      while !ok
        invariant fresh(newNode) && newNode.key == key && newNode.val == val
        invariant !ok ==> unchanged(this) && unchanged(head) && Valid() && newNode !in repr
        invariant ok ==> Valid() && fresh(repr - old(repr)) && items == [KV(key, val)] + old(items)
        invariant ok ==> spine == [newNode] + old(spine) && head.tag == (old(head.tag) + 1) % TWO64
        decreases !ok
      {
        var currTag: int := head.tag;
        var currNext := head.next;
        newNode.next := currNext;
        if head.tag == currTag && head.next == currNext {
          Publish(newNode, (currTag + 1) % 0x1_0000_0000_0000_0000);
          ok := true;
        }
      }
    }

    /** lf_lookup_linearizable with no insert during the call. */
    method LfLookupLinearizable(target: u64) returns (val: u64)
      requires Valid()
      ensures val == Assoc.Lookup(items, target)
    {
      var initTag := head.tag;
      var again := true;
      while again
        invariant !again ==> Assoc.Lookup(items, target) == UINT64_MAX
        decreases again
      {
        var curr := head.next;
        ghost var i := 0;
        assert items[0..] == items;
        while curr != null
          invariant i <= |spine| && curr == NodeAt(i)
          invariant Assoc.Lookup(items, target) == Assoc.Lookup(items[i..], target)
          decreases |spine| - i
        {
          assert Holds(spine[i], i);
          if curr.key == target { return curr.val; }
          assert items[i..][1..] == items[i + 1..];
          curr := curr.next;
          i := i + 1;
        }
        again := head.tag != initTag;
      }
      return UINT64_MAX;
    }
  }

  /** Against any list: insert and then remove of the same key restore the exact earlier nodes. */
  method InsertThenRemove(l: List, key: u64, val: u64)
    requires l.Valid()
    modifies l.repr
    ensures l.Valid() && l.spine == old(l.spine) && l.items == old(l.items)
  {
    var _ := l.Insert(key, val);
    InsertThenRemoveRestores(old(l.items), key, val, key);
    assert l.items[0].key == key;
    var found := l.Remove(key);
    assert found;
  }
}
