/**
 The records that travel between the stages. Prices and quantities are reals:
 rounding is not modelled. A quote slot is numbered `2 * symbol + side`, the
 row-major index of the C++ array `q_[kMaxSymbols][2]`.
 */
module Events {
  import opened Common

  const MAX_SYMBOLS: nat := 8
  const SLOTS: nat := 16

  datatype Side = Buy | Sell

  function SlotOf(sym: nat, side: Side): nat {
    2 * sym + (if side == Buy then 0 else 1)
  }

  datatype OrderCmd =
    | New(slot: nat, id: nat, price: real, qty: real)
    | Cancel(slot: nat, id: nat, orig: nat, qty: real)

  datatype ExecKind = KNew | KCanceled | KFilled | KPartFill | KRejected | KReplaced | KOther
  {
    /** The kinds on which the order manager frees a slot. */
    predicate Terminal() {
      KCanceled? || KFilled? || KRejected?
    }

    predicate Fill() {
      KFilled? || KPartFill?
    }
  }

  datatype ExecEvent = ExecEvent(id: nat, kind: ExecKind, side: Option<Side>, sym: nat,
                                 lastPx: real, lastQty: real, leaves: real)

  /** The fields of a FIX ExecutionReport that the engine reads. */
  datatype FixReport = FixReport(clOrdId: Option<nat>, execType: Option<char>, ordStatus: Option<char>,
                                 side: Option<char>, sym: nat, lastPx: real, lastQty: real, leaves: real)

  /** ExecType/OrdStatus to kind; an absent ExecType leaves the zero-initialised kind, New. */
  function KindOf(execType: Option<char>, ordStatus: Option<char>): ExecKind {
    match execType
    case None => KNew
    case Some(t) =>
      if t == '0' then KNew
      else if t == '4' then KCanceled
      else if t == 'F' then (if ordStatus == Some('1') then KPartFill else KFilled)
      else if t == '8' then KRejected
      else if t == '5' then KReplaced
      else KOther
  }

  function Decode(r: FixReport): ExecEvent {
    ExecEvent(if r.clOrdId.Some? then r.clOrdId.value else 0,
              KindOf(r.execType, r.ordStatus),
              if r.side.None? then None else Some(if r.side.value == '1' then Buy else Sell),
              r.sym, r.lastPx, r.lastQty, r.leaves)
  }
}
