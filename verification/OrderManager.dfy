/** One working quote per (symbol, side), moved by execution reports. */
module OrderManager {
  import opened Events

  datatype QuoteState = NoQuote | PendingNew | Live | PendingCancel

  datatype Quote = Quote(state: QuoteState, id: nat, price: real, qty: real)

  const EMPTY: Quote := Quote(NoQuote, 0, 0.0, 0.0)

  function Moved(q: Quote, e: ExecEvent): Quote {
    match e.kind
    case KNew => q.(state := Live)
    case KPartFill => q.(qty := e.leaves)
    case KFilled => EMPTY
    case KCanceled => EMPTY
    case KRejected => EMPTY
    case _ => q
  }

  /** A report moves the first slot of its symbol that holds its ClOrdID, and no other. */
  function OnExec(slots: seq<Quote>, e: ExecEvent): (slots': seq<Quote>)
    requires |slots| == SLOTS && e.sym < MAX_SYMBOLS
    ensures |slots'| == SLOTS
  {
    var b := 2 * e.sym;
    if slots[b].id == e.id then slots[b := Moved(slots[b], e)]
    else if slots[b + 1].id == e.id then slots[b + 1 := Moved(slots[b + 1], e)]
    else slots
  }

  class Oms {
    const q: array<Quote>

    constructor ()
      ensures fresh(q) && q.Length == SLOTS && q[..] == seq(SLOTS, _ => EMPTY)
    {
      q := new Quote[SLOTS](_ => EMPTY);
    }

    method OnExecReport(e: ExecEvent)
      requires q.Length == SLOTS && e.sym < MAX_SYMBOLS
      modifies q
      ensures q[..] == OnExec(old(q[..]), e)
    {
      for s := 0 to 2
        invariant q[..] == old(q[..])
        invariant s > 0 ==> q[2 * e.sym].id != e.id
        invariant s > 1 ==> q[2 * e.sym + 1].id != e.id
      {
        var i := 2 * e.sym + s;
        if q[i].id != e.id {
          continue;
        }
        match e.kind {
          case KNew => q[i] := q[i].(state := Live);
          case KPartFill => q[i] := q[i].(qty := e.leaves);
          case KFilled | KCanceled | KRejected => q[i] := EMPTY;
          case _ =>
        }
        assert q[..] == old(q[..])[i := Moved(old(q[i]), e)];
        return;
      }
    }
  }
}
