/**
 The fixed-size object pool: a stack of free indices. An object is its index in
 the storage array; `held` are those given out and not returned.
 */
module ObjectPool {
  import opened Common

  ghost predicate Distinct(s: seq<nat>) {
    forall i, j | 0 <= i < j < |s| :: s[i] != s[j]
  }

  ghost function All(n: nat): (s: set<nat>)
    ensures forall i: nat :: i in s <==> i < n
  {
    if n == 0 then {} else All(n - 1) + {n - 1}
  }

  ghost function Elements(s: seq<nat>): set<nat> {
    set x | x in s
  }

  lemma {:induction false} AllHasSize(n: nat)
    ensures |All(n)| == n
  {
    if n > 0 {
      AllHasSize(n - 1);
      assert All(n) == All(n - 1) + {n - 1};
    }
  }

  lemma {:induction false} DistinctHasSize(s: seq<nat>)
    requires Distinct(s)
    ensures |Elements(s)| == |s|
  {
    if s != [] {
      var n := |s| - 1;
      DistinctHasSize(s[..n]);
      assert Elements(s) == Elements(s[..n]) + {s[n]};
    }
  }

  /** The free indices and the held ones share out all `n`. */
  ghost predicate Shared(n: nat, free: seq<nat>, held: set<nat>) {
    Distinct(free) && Elements(free) !! held && Elements(free) + held == All(n)
  }

  lemma FreePlusHeld(n: nat, free: seq<nat>, held: set<nat>)
    requires Shared(n, free, held)
    ensures |free| + |held| == n
    ensures free == [] <==> held == All(n)
  {
    AllHasSize(n);
    DistinctHasSize(free);
    if free != [] {
      assert free[0] in Elements(free);
    }
  }

  lemma TakeOne(n: nat, free: seq<nat>, held: set<nat>)
    requires Shared(n, free, held) && free != []
    ensures var last := free[|free| - 1];
      last < n && last !in held && Shared(n, free[..|free| - 1], held + {last})
  {
    var rest, last := free[..|free| - 1], free[|free| - 1];
    assert last in Elements(free);
    assert Elements(free) == Elements(rest) + {last};
  }

  /** The same for the first `top` entries of a longer array. */
  lemma TakeTop(n: nat, all: seq<nat>, top: nat, held: set<nat>)
    requires 0 < top <= |all| && Shared(n, all[..top], held)
    ensures held != All(n) && all[top - 1] < n && all[top - 1] !in held
    ensures Shared(n, all[..top - 1], held + {all[top - 1]})
  {
    FreePlusHeld(n, all[..top], held);
    TakeOne(n, all[..top], held);
    assert all[..top][..top - 1] == all[..top - 1];
  }

  lemma GiveBack(n: nat, free: seq<nat>, held: set<nat>, x: nat)
    requires Shared(n, free, held) && x in held
    ensures Shared(n, free + [x], held - {x})
  {
    forall i | 0 <= i < |free| ensures free[i] != x {
      assert free[i] in Elements(free);
    }
    assert Elements(free + [x]) == Elements(free) + {x};
  }

  class Pool {
    const n: nat
    const free: array<nat>
    var top: nat
    ghost var held: set<nat>

    ghost predicate Valid()
      reads this, free
    {
      free.Length == n && top <= n && Shared(n, free[..top], held)
    }

    constructor (n: nat)
      ensures Valid() && this.n == n && held == {} && fresh(free)
    {
      this.n := n;
      free := new nat[n](i => if 0 <= i < n then n - 1 - i else 0);
      top, held := n, {};
      new;
      assert free[..top] == free[..];
      forall i | 0 <= i < n ensures i in Elements(free[..top]) {
        assert free[n - 1 - i] == i;
      }
      assert Elements(free[..top]) + {} == All(n);
    }

    /** An object nobody holds, or `None` exactly when all are held. */
    method Acquire() returns (r: Option<nat>)
      requires Valid()
      modifies this
      ensures Valid()
      ensures r.None? <==> old(held) == All(n)
      ensures r.None? ==> held == old(held)
      ensures r.Some? ==> r.value < n && r.value !in old(held) && held == old(held) + {r.value}
    {
      if top == 0 {
        FreePlusHeld(n, free[..top], held);
        return None;
      }
      TakeTop(n, free[..], top, held);
      top := top - 1;
      held := held + {free[top]};
      return Some(free[top]);
    }

    /** The caller returns an object it holds. */
    method Release(x: nat)
      requires Valid() && x in held
      modifies this, free
      ensures Valid() && held == old(held) - {x}
    {
      ghost var was, still := free[..top], held - {x};
      RoomToReturn(n, was, held, x);
      GiveBack(n, was, held, x);
      free[top] := x;
      top := top + 1;
      assert free[..top] == was + [x];
      held := still;
    }

    method Available() returns (k: nat)
      requires Valid()
      ensures k + |held| == n
    {
      FreePlusHeld(n, free[..top], held);
      k := top;
    }
  }

  lemma RoomToReturn(n: nat, free: seq<nat>, held: set<nat>, x: nat)
    requires Shared(n, free, held) && x in held
    ensures |free| < n
  {
    FreePlusHeld(n, free, held);
  }

  // ------------------------- any sequence of operations -------------------------

  datatype Op = Take | Return(x: nat)

  /** The free list after one operation, on any index, as the code does it. */
  function Step(free: seq<nat>, op: Op): seq<nat> {
    match op
    case Take => if free == [] then free else free[..|free| - 1]
    case Return(x) => free + [x]
  }

  function HeldAfter(free: seq<nat>, held: multiset<nat>, op: Op): multiset<nat> {
    match op
    case Take => if free == [] then held else held + multiset{free[|free| - 1]}
    case Return(x) => held - multiset{x}
  }

  /** Somebody holds each returned object at the moment of its return. */
  ghost predicate Honest(free: seq<nat>, held: multiset<nat>, ops: seq<Op>)
    decreases |ops|
  {
    ops == [] || ((ops[0].Return? ==> ops[0].x in held)
      && Honest(Step(free, ops[0]), HeldAfter(free, held, ops[0]), ops[1..]))
  }

  ghost function HeldIn(free: seq<nat>, held: multiset<nat>, ops: seq<Op>): multiset<nat>
    decreases |ops|
  {
    if ops == [] then held else HeldIn(Step(free, ops[0]), HeldAfter(free, held, ops[0]), ops[1..])
  }

  ghost predicate Exclusive(held: multiset<nat>) {
    forall x :: held[x] <= 1
  }

  /** Each index is in the pool or with one holder, once. */
  ghost predicate Accounted(n: nat, free: seq<nat>, held: multiset<nat>) {
    multiset(free) + held == multiset(All(n))
  }

  /** Over every honest sequence no object has two holders. */
  lemma {:induction false} HonestIsExclusive(n: nat, free: seq<nat>, held: multiset<nat>, ops: seq<Op>)
    requires Accounted(n, free, held) && Honest(free, held, ops)
    ensures Exclusive(HeldIn(free, held, ops))
    decreases |ops|
  {
    if ops == [] {
      forall x ensures held[x] <= 1 {
        assert held[x] <= multiset(All(n))[x];
      }
    } else {
      StepAccounted(n, free, held, ops[0]);
      HonestIsExclusive(n, Step(free, ops[0]), HeldAfter(free, held, ops[0]), ops[1..]);
    }
  }

  lemma StepAccounted(n: nat, free: seq<nat>, held: multiset<nat>, op: Op)
    requires Accounted(n, free, held) && (op.Return? ==> op.x in held)
    ensures Accounted(n, Step(free, op), HeldAfter(free, held, op))
  {
    if free != [] {
      assert free == free[..|free| - 1] + [free[|free| - 1]];
    }
    if op.Return? {
      assert multiset(free + [op.x]) == multiset(free) + multiset{op.x};
      assert held == held - multiset{op.x} + multiset{op.x};
    }
  }

  /**
   Returning an object nobody holds gives it to two holders once the pool is
   drained. (With every object free already, the list has no room for it: the
   code then writes behind its array, which is not modelled.)
   */
  lemma DoubleReturnShares(n: nat, free: seq<nat>, held: multiset<nat>, x: nat) returns (ops: seq<Op>)
    requires Accounted(n, free, held) && x < n && x !in held && |free| < n
    ensures Honest(free + [x], held - multiset{x}, ops) && !Exclusive(HeldIn(free + [x], held - multiset{x}, ops))
  {
    ops := seq(|free + [x]|, _ => Take);
    TakeAll(free + [x], held - multiset{x});
    var last := held - multiset{x} + multiset(free + [x]);
    assert multiset(free)[x] >= 1 by {
      assert (multiset(free) + held)[x] == multiset(All(n))[x];
    }
    assert multiset(free + [x]) == multiset(free) + multiset{x};
    assert last[x] == 2;
  }

  /** A return is harmless for every honest future exactly when the object was held. */
  lemma ReturnIsSafeIffHeld(n: nat, free: seq<nat>, held: multiset<nat>, x: nat)
    requires Accounted(n, free, held) && x < n && |free| < n
    ensures x in held <==>
      forall ops | Honest(free + [x], held - multiset{x}, ops) :: Exclusive(HeldIn(free + [x], held - multiset{x}, ops))
  {
    if x in held {
      StepAccounted(n, free, held, Return(x));
      forall ops | Honest(free + [x], held - multiset{x}, ops)
        ensures Exclusive(HeldIn(free + [x], held - multiset{x}, ops))
      {
        HonestIsExclusive(n, free + [x], held - multiset{x}, ops);
      }
    } else {
      var ops := DoubleReturnShares(n, free, held, x);
    }
  }

  lemma {:induction false} TakeAll(free: seq<nat>, held: multiset<nat>)
    ensures HeldIn(free, held, seq(|free|, _ => Take)) == held + multiset(free)
    ensures Honest(free, held, seq(|free|, _ => Take))
    decreases |free|
  {
    if free != [] {
      var n := |free| - 1;
      assert seq(|free|, _ => Take)[1..] == seq(n, _ => Take);
      assert free == free[..n] + [free[n]];
      TakeAll(free[..n], held + multiset{free[n]});
    }
  }
}
