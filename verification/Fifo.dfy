/**
 The bounded queue that an SPSC ring promises to be, seen through the results
 of its calls. A refusal carries a `lag`: how many operations of the opposite
 side the refused caller had not yet observed. With `lag == 0` a refused push
 means "exactly full" and a refused pop means "exactly empty".
 */
module Fifo {
  import opened Common

  datatype Event<T> = Tau | Enq(x: T) | Deq(x: T) | Full(lag: nat) | Empty(lag: nat)

  ghost predicate Allowed<T>(cap: nat, q: seq<T>, e: Event<T>) {
    match e
    case Tau => true
    case Enq(_) => |q| < cap
    case Deq(x) => q != [] && q[0] == x
    case Full(lag) => |q| + lag == cap
    case Empty(lag) => |q| == lag
  }

  ghost function After<T>(q: seq<T>, e: Event<T>): seq<T> {
    match e
    case Enq(x) => q + [x]
    case Deq(_) => if q == [] then [] else q[1..]
    case _ => q
  }

  ghost predicate Accepts<T>(cap: nat, q: seq<T>, es: seq<Event<T>>)
    decreases |es|
  {
    es == [] || (Allowed(cap, q, es[0]) && Accepts(cap, After(q, es[0]), es[1..]))
  }

  ghost function Run<T>(q: seq<T>, es: seq<Event<T>>): seq<T>
    decreases |es|
  {
    if es == [] then q else Run(After(q, es[0]), es[1..])
  }

  ghost function Enqueued<T>(es: seq<Event<T>>): seq<T> {
    if es == [] then []
    else (if es[0].Enq? then [es[0].x] else []) + Enqueued(es[1..])
  }

  ghost function Dequeued<T>(es: seq<Event<T>>): seq<T> {
    if es == [] then []
    else (if es[0].Deq? then [es[0].x] else []) + Dequeued(es[1..])
  }

  lemma StepInOrder<T>(cap: nat, q: seq<T>, e: Event<T>, more: seq<T>, out: seq<T>, last: seq<T>)
    requires Allowed(cap, q, e) && After(q, e) + more == out + last
    ensures q + ((if e.Enq? then [e.x] else []) + more) == ((if e.Deq? then [e.x] else []) + out) + last
  {
    Regroup([], out, last);
    Regroup([], more, last);
    if e.Deq? {
      Uncons(q, more);
      Regroup([e.x], out, last);
    } else if e.Enq? {
      Regroup(q, [e.x], more);
    }
  }

  lemma Uncons<T>(q: seq<T>, more: seq<T>)
    requires q != []
    ensures q + more == [q[0]] + (q[1..] + more)
  {
  }

  /** Nothing is lost, invented or reordered, and the bound is never exceeded. */
  lemma {:induction false} InOrder<T>(cap: nat, q: seq<T>, es: seq<Event<T>>)
    requires |q| <= cap && Accepts(cap, q, es)
    ensures q + Enqueued(es) == Dequeued(es) + Run(q, es)
    ensures |Run(q, es)| <= cap
    decreases |es|
  {
    if es != [] {
      InOrder(cap, After(q, es[0]), es[1..]);
      StepInOrder(cap, q, es[0], Enqueued(es[1..]), Dequeued(es[1..]), Run(After(q, es[0]), es[1..]));
    }
  }
}
