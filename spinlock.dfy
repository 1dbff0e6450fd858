/**
 * The spin lock of kernel/src/spinlock.cpp and kernel/src/spinlock.c: one 32-bit word,
 * 0 = free, anything else = held, with no owner recorded.
 *
 * The atomic exchange is modelled as a sequential read-then-store. Another core is an
 * environment step: in `Acquire` the current holder stores 0 after a given number of
 * failed exchanges.
 */
module Spinlock {
  import opened Wrappers

  /** The operations a single thread of control can perform on one lock. */
  datatype Op = Init | Acquire | TryAcquire | Release | IsLocked

  /** What one operation does to the word, run by a lone thread; `None` means the call
      never returns (Acquire on a held lock with nobody left to release it). */
  function Step(word: bv32, op: Op): Option<(bv32, bool)>
  {
    match op
    case Init => Some((0, true))
    case Acquire => if word == 0 then Some((1, true)) else None
    case TryAcquire => Some((1, word == 0))
    case Release => Some((0, true))
    case IsLocked => Some((word, word != 0))
  }

  /** Runs `ops` in order from `word`; the answers are the booleans the calls return
      (Init, Acquire and Release answer `true`). `None` if some call never returns. */
  function Run(word: bv32, ops: seq<Op>): (r: Option<(bv32, seq<bool>)>)
    ensures r.Some? ==> |r.value.1| == |ops|
    decreases |ops|
  {
    if ops == [] then Some((word, []))
    else match Step(word, ops[0])
      case None => None
      case Some(s) =>
        match Run(s.0, ops[1..])
        case None => None
        case Some(rest) => Some((rest.0, [s.1] + rest.1))
  }

  /** No call in `ops` frees the lock. */
  predicate NoRelease(ops: seq<Op>)
  {
    forall k :: 0 <= k < |ops| ==> ops[k] != Release && ops[k] != Init
  }

  /** Once the word is non-zero and nobody releases it, every TryAcquire answers false,
      every IsLocked answers true, and an Acquire never returns. */
  lemma {:induction false} HeldUntilReleased(word: bv32, ops: seq<Op>)
    requires word != 0
    requires NoRelease(ops)
    ensures Run(word, ops).Some? <==> Acquire !in ops
    ensures Run(word, ops).Some? ==> Run(word, ops).value.0 != 0
    ensures Run(word, ops).Some? ==> forall k :: 0 <= k < |ops| && ops[k] == TryAcquire ==> !Run(word, ops).value.1[k]
    ensures Run(word, ops).Some? ==> forall k :: 0 <= k < |ops| && ops[k] == IsLocked ==> Run(word, ops).value.1[k]
    decreases |ops|
  {
    if ops != [] {
      assert NoRelease(ops[1..]) by {
        forall k | 0 <= k < |ops[1..]| ensures ops[1..][k] != Release && ops[1..][k] != Init {
          assert ops[1..][k] == ops[k + 1];
        }
      }
      assert ops[0] != Release && ops[0] != Init;
      var s := Step(word, ops[0]);
      if s.Some? {
        HeldUntilReleased(s.value.0, ops[1..]);
        assert ops == [ops[0]] + ops[1..];
        assert Acquire in ops <==> Acquire in ops[1..];
        if Run(word, ops).Some? {
          var rest := Run(s.value.0, ops[1..]).value;
          assert Run(word, ops).value.1 == [s.value.1] + rest.1;
          forall k | 1 <= k < |ops|
            ensures Run(word, ops).value.1[k] == rest.1[k - 1]
            ensures ops[k] == ops[1..][k - 1]
          {
          }
        }
      }
    }
  }

  /** A successful acquisition (Acquire, or TryAcquire answering true) is followed by
      no other successful acquisition until a Release or an Init. */
  lemma AtMostOneHolder(word: bv32, first: Op, ops: seq<Op>)
    requires first == Acquire || first == TryAcquire
    requires Run(word, [first] + ops).Some? && Run(word, [first] + ops).value.1[0]
    requires NoRelease(ops)
    ensures forall k :: 0 <= k < |ops| && ops[k] == TryAcquire ==> !Run(word, [first] + ops).value.1[k + 1]
    ensures Acquire !in ops
  {
    var s := Step(word, first).value;
    assert ([first] + ops)[1..] == ops;
    HeldUntilReleased(s.0, ops);
  }

  /** The run `r` with one more answer `b` in front, as `Run` builds it. */
  function Answered(b: bool, r: Option<(bv32, seq<bool>)>): Option<(bv32, seq<bool>)>
  {
    match r
    case None => None
    case Some(v) => Some((v.0, [b] + v.1))
  }

  /** Release has no owner check: whatever the word, and however many times it is
      released, what follows runs exactly as from a free lock. */
  lemma DoubleReleaseHarmless(word: bv32, ops: seq<Op>)
    ensures Run(word, [Release] + ops) == Answered(true, Run(0, ops))
    ensures Run(word, [Release, Release] + ops) == Answered(true, Answered(true, Run(0, ops)))
  {
    assert ([Release] + ops)[0] == Release && ([Release] + ops)[1..] == ops;
    assert ([Release, Release] + ops)[0] == Release;
    assert ([Release, Release] + ops)[1..] == [Release] + ops;
  }

  /** The lock object; `word` is the `lock` field (the `spinlock_t` struct's field in the
      C variant). */
  class Spinlock {
    var word: bv32

    constructor ()
      ensures word == 0
    {
      word := 0;
    }

    method Init()
      modifies this
      ensures word == 0
    {
      word := 0;
    }

    /** One exchange with 1: the lock is taken exactly when the word read back was 0. */
    method TryAcquire() returns (acquired: bool)
      modifies this
      ensures word == 1
      ensures acquired <==> old(word) == 0
      ensures Step(old(word), Op.TryAcquire) == Some((word, acquired))
    {
      var previous := word;
      word := 1;
      acquired := previous == 0;
    }

    /** Exchanges with 1 until the word read back is 0. `holdFor` is the environment: the
        current holder, on another core, lets `holdFor` further exchanges fail after the
        first and then stores 0, so a held lock costs `holdFor + 1` failed exchanges
        before the one that succeeds. */
    method Acquire(holdFor: nat) returns (attempts: nat)
      modifies this
      ensures word == 1
      ensures attempts == if old(word) == 0 then 1 else holdFor + 2
    {
      attempts := 0;
      var remaining: nat := holdFor;
      while true
        invariant old(word) == 0 ==> attempts == 0 && word == 0
        invariant old(word) != 0 ==>
          (word != 0 && remaining <= holdFor && attempts == holdFor - remaining) ||
          (word == 0 && remaining == 0 && attempts == holdFor + 1)
        decreases remaining + (if word == 0 then 0 else 1)
      {
        var previous := word;
        word := 1;
        attempts := attempts + 1;
        if previous == 0 {
          return;
        }
        // pause; meanwhile the holder may release the lock
        if remaining == 0 {
          word := 0;
        } else {
          remaining := remaining - 1;
        }
      }
    }

    /** Stores 0 unconditionally: no owner check. */
    method Release()
      modifies this
      ensures word == 0
      ensures Step(old(word), Op.Release) == Some((word, true))
    {
      word := 0;
    }

    method IsLocked() returns (locked: bool)
      ensures locked <==> word != 0
    {
      locked := word != 0;
    }
  }
}
