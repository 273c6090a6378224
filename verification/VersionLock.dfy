/**
 version_lock.hpp as an object. The spinning calls take the values the other threads leave in the
 counter: env[i] is what this thread finds at its i-th access. Every other call runs uninterrupted.
 */
module VersionLock {
  import opened Words
  import opened LockMachine

  /**
   The access at which write_lock acquires under the interference env: its first successful
   compare-and-swap; |env| while it is still spinning after all of env.
   */
  function AcquiresAt(env: seq<u64>, i: nat): (at: nat)
    requires i <= |env|
    ensures at < |env| ==> i < at && env[at - 1] == env[at] && env[at] % 2 == 0
    decreases |env| - i
  {
    if i == |env| then |env|
    else if env[i] % 2 == 1 then AcquiresAt(env, i + 1)
    else if i + 1 == |env| then |env|
    else if env[i + 1] == env[i] then i + 1
    else AcquiresAt(env, i + 2)
  }

  /** One access of write_lock that finds v in the counter, as the lock's atomic steps have it. */
  function Spun(v: u64, l: LPC): LPC {
    match l
    case Out => LoadForWrite(Free.(version := v))
    case Cas(ver) => TryCas(Free.(version := v), ver).1
    case _ => l
  }

  /** The thread's phase after n accesses of write_lock. */
  function Spinning(env: seq<u64>, n: nat): LPC
    requires n <= |env|
  {
    if n == 0 then Out else Spun(env[n - 1], Spinning(env, n - 1))
  }

  /** Spun is the lock's own step, whatever the history of the lock. */
  lemma SpunIsMove(k: Lk, l: LPC)
    requires l.Out? || l.Cas?
    ensures Move(AsWritten, k, l, if l.Cas? then TryCas(k, l.ver).0 else k, Spun(k.version, l))
  {}

  lemma {:induction false} HeldStays(env: seq<u64>, m: nat, n: nat)
    requires m <= n <= |env| && Spinning(env, m).Held?
    ensures Spinning(env, n).Held?
    decreases n - m
  {
    if m < n { HeldStays(env, m + 1, n); }
  }

  /** write_lock, taken access by access through the lock's steps, owns the lock after exactly the accesses past at. */
  lemma {:induction false} AcquiresExactly(env: seq<u64>, i: nat, n: nat)
    requires i <= n <= |env| && Spinning(env, i) == Out
    ensures Spinning(env, n).Held? <==> AcquiresAt(env, i) < n
    decreases |env| - i
  {
    if i < |env| && i < n {
      if env[i] % 2 == 1 {
        AcquiresExactly(env, i + 1, n);
      } else {
        assert Spinning(env, i + 1) == Cas(env[i]);
        if i + 1 < n {
          if env[i + 1] == env[i] {
            HeldStays(env, i + 2, n);
          } else {
            AcquiresExactly(env, i + 2, n);
          }
        }
      }
    }
  }

  /** The object's write_lock acquires at the first access after which the lock's steps have it own the lock. */
  lemma AcquiresFirst(env: seq<u64>, n: nat)
    requires n <= |env|
    ensures Spinning(env, n).Held? <==> AcquiresAt(env, 0) < n
  {
    AcquiresExactly(env, 0, n);
  }

  /** An even counter that nobody touches for two accesses from the start of an attempt is always acquired. */
  lemma {:induction false} AcquiresWhenQuiet(env: seq<u64>, i: nat, q: nat)
    requires i <= q && q + 2 < |env|
    requires env[q] == env[q + 1] == env[q + 2] && env[q] % 2 == 0
    ensures AcquiresAt(env, i) <= q + 2
    decreases q - i
  {
    if env[i] % 2 == 1 {
      AcquiresWhenQuiet(env, i + 1, q);
    } else if env[i + 1] != env[i] && i + 2 <= q {
      AcquiresWhenQuiet(env, i + 2, q);
    }
  }

  /** The counter after an undisturbed write_unlock. */
  function AfterUnlock(v: u64): u64 {
    if v == TOP then 1 else (v + 1) % 0x1_0000_0000_0000_0000
  }

  /** The counter after an undisturbed write_lock and write_unlock on a free lock. */
  function AfterWriter(v: u64): (r: u64)
    requires v % 2 == 0
    ensures r % 2 == 0 <==> v + 1 != TOP
    ensures v + 1 < TOP ==> r == v + 2
  {
    AfterUnlock(v + 1)
  }

  /** The object's unlock is the interleaved one with nothing in between. */
  lemma AfterUnlockIsFinishAlone(k: Lk)
    ensures FinishAlone(AsWritten, k, k.version).version == AfterUnlock(k.version)
  {}

  predicate FirstEven(env: seq<u64>, i: int) {
    0 <= i < |env| && env[i] % 2 == 0 && forall j :: 0 <= j < i ==> env[j] % 2 == 1
  }

  class VersionLock {
    var versionNumber: u64

    constructor ()
      ensures versionNumber == 0
    {
      versionNumber := 0;
    }

    method WriteLock(env: seq<u64>) returns (acquired: bool, at: nat)
      modifies this
      ensures at == AcquiresAt(env, 0) && acquired == (at < |env|)
      ensures acquired <==> Spinning(env, |env|).Held?
      ensures acquired ==> !Spinning(env, at).Held? && Spinning(env, at + 1).Held?
      ensures acquired ==> versionNumber == env[at] + 1 && versionNumber % 2 == 1
      ensures !acquired && |env| > 0 ==> versionNumber == env[|env| - 1]
      ensures env == [] ==> versionNumber == old(versionNumber)
    {
      AcquiresFirst(env, |env|);
      if AcquiresAt(env, 0) < |env| {
        AcquiresFirst(env, AcquiresAt(env, 0));
        AcquiresFirst(env, AcquiresAt(env, 0) + 1);
      }
      at := 0;
      acquired := false;
      while at < |env|
        invariant at <= |env|
        invariant AcquiresAt(env, at) == AcquiresAt(env, 0)
        invariant at > 0 ==> versionNumber == env[at - 1]
        invariant at == 0 ==> versionNumber == old(versionNumber)
      {
        versionNumber := env[at];
        var version := versionNumber;
        at := at + 1;
        if version % 2 == 0 {
          if at == |env| { return; }
          versionNumber := env[at];
          if versionNumber == version {
            versionNumber := version + 1;
            acquired := true;
            return;
          }
          at := at + 1;
        }
      }
    }

    method TryWriteLock() returns (acquired: bool)
      modifies this
      ensures acquired == (old(versionNumber) % 2 == 0)
      ensures versionNumber == if acquired then old(versionNumber) + 1 else old(versionNumber)
    {
      var version := versionNumber;
      if version % 2 == 0 {
        if versionNumber == version {
          versionNumber := version + 1;
          return true;
        }
      }
      return false;
    }

    /** The lock is free afterwards exactly when the counter had not reached the reset value. */
    method WriteUnlock()
      requires versionNumber % 2 == 1
      modifies this
      ensures versionNumber % 2 == 0 <==> old(versionNumber) != TOP
      ensures versionNumber == AfterUnlock(old(versionNumber))
    {
      var version: int := versionNumber;
      if version + 1 == UINT64_MAX - 1 {
        if versionNumber == version { versionNumber := 0; }
      }
      assert version % 2 == 1;
      versionNumber := (versionNumber + 1) % 0x1_0000_0000_0000_0000;
    }

    /** Spins over env; returns the first even value. */
    method ReadLock(env: seq<u64>) returns (done: bool, version: u64)
      modifies this
      ensures done <==> exists i :: 0 <= i < |env| && env[i] % 2 == 0
      ensures done ==> exists i :: FirstEven(env, i) && version == env[i]
    {
      var i := 0;
      version := 0;
      while i < |env|
        invariant i <= |env|
        invariant forall j :: 0 <= j < i ==> env[j] % 2 == 1
      {
        versionNumber := env[i];
        version := versionNumber;
        if version % 2 == 0 { return true, version; }
        i := i + 1;
      }
      return false, version;
    }

    method TryReadLock() returns (version: u64)
      ensures version % 2 == 0 <==> versionNumber % 2 == 0
      ensures version == if version % 2 == 0 then versionNumber else UINT64_MAX
    {
      version := versionNumber;
      if version % 2 == 0 { return version; }
      return UINT64_MAX;
    }

    method ReadLockNoWait() returns (version: u64)
      ensures version == versionNumber
    {
      return versionNumber;
    }

    method ReadUnlock(initial: u64) returns (valid: bool)
      requires initial <= versionNumber
      ensures valid <==> initial == versionNumber
    {
      var current := versionNumber;
      assert initial <= current;
      return initial == current;
    }
  }
}
