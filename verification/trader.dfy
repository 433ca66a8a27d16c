/**
 * The per-account stop-loss / take-profit state of a trading account (core/trader.py,
 * TraderAccount). Only the state-changing parts are modelled; the exchange calls are not.
 */
module Trader {
  import opened Base
  import Validators

  /** The position dictionary. No code in this core ever assigns a position, so its shape is
      assumed: a 'size', an optional 'max_size' cap, and other keys taken to hold reals. */
  datatype Position = Position(size: real, maxSize: Option<real>, extras: map<string, real>)

  /** add_to_position caps at 'max_size', or at 1.0 (a full position) when the key is absent. */
  const DefaultMaxSize: real := 1.0

  /** set_take_profits keeps at most this many levels. */
  const MaxTakeProfits: nat := 5

  /** The cap add_to_position applies to this position. */
  function Cap(p: Position): real {
    p.maxSize.GetOr(DefaultMaxSize)
  }

  /** The state of one TraderAccount: its id, its take-profit ladder, its stop-loss level (None
      until set) and its open position (None when there is none). */
  datatype Account = Account(accountId: int, takeProfits: seq<real>, stopLoss: Option<real>,
                             position: Option<Position>)

  /** The ladder never holds more levels than set_take_profits admits. */
  predicate WellFormed(a: Account) {
    |a.takeProfits| <= MaxTakeProfits
  }

  /** A fresh account: empty ladder, no stop-loss, no position. */
  function NewAccount(accountId: int): (a: Account)
    ensures WellFormed(a)
    ensures a.accountId == accountId && a.takeProfits == [] && a.stopLoss == None && a.position == None
  {
    Account(accountId, [], None, None)
  }

  /** set_take_profits: the ladder becomes the first (at most five) requested levels, in order;
      nothing else changes. A valid request gives a valid ladder. */
  function SetTakeProfits(a: Account, levels: seq<real>): (r: Account)
    ensures WellFormed(r)
    ensures |r.takeProfits| == if |levels| <= MaxTakeProfits then |levels| else MaxTakeProfits
    ensures r.takeProfits <= levels
    ensures |levels| <= MaxTakeProfits ==> r.takeProfits == levels
    ensures Validators.ValidateTpValues(levels) ==> Validators.ValidateTpValues(r.takeProfits)
    ensures r.accountId == a.accountId && r.stopLoss == a.stopLoss && r.position == a.position
  {
    var n := if |levels| <= MaxTakeProfits then |levels| else MaxTakeProfits;
    Validators.TpPrefixValid(levels, n);
    a.(takeProfits := levels[..n])
  }

  /** set_stop_loss: records the new level and changes nothing else. */
  function SetStopLoss(a: Account, level: real): (r: Account)
    ensures r.stopLoss == Some(level)
    ensures r.accountId == a.accountId && r.takeProfits == a.takeProfits && r.position == a.position
    ensures WellFormed(a) ==> WellFormed(r)
  {
    a.(stopLoss := Some(level))
  }

  /** move_sl_to_previous_tp: when level `index` (counted from 0) is hit and there is a level
      before it, the stop-loss moves up to that previous level; an index of 0 or less, or past
      the ladder, leaves the stop-loss where it was. The ladder and position never change. */
  function MoveSlToPreviousTp(a: Account, index: int): (r: Account)
    ensures 0 < index <= |a.takeProfits| ==> r.stopLoss == Some(a.takeProfits[index - 1])
    ensures !(0 < index <= |a.takeProfits|) ==> r.stopLoss == a.stopLoss
    ensures r.accountId == a.accountId && r.takeProfits == a.takeProfits && r.position == a.position
    ensures WellFormed(a) ==> WellFormed(r)
  {
    if index > 0 && index <= |a.takeProfits| then
      SetStopLoss(a, a.takeProfits[index - 1])
    else
      a
  }

  /** on_tp_filled: exactly move_sl_to_previous_tp, so filling the first level (index 0)
      leaves the whole account as it was. */
  function OnTpFilled(a: Account, index: int): (r: Account)
    ensures r == MoveSlToPreviousTp(a, index)
    ensures index <= 0 ==> r == a
  {
    MoveSlToPreviousTp(a, index)
  }

  /** reset_tps: the ladder is emptied; stop-loss and position are kept. */
  function ResetTps(a: Account): (r: Account)
    ensures r.takeProfits == [] && WellFormed(r)
    ensures r.accountId == a.accountId && r.stopLoss == a.stopLoss && r.position == a.position
  {
    a.(takeProfits := [])
  }

  /** cancel_tps: the ladder is emptied; stop-loss and position are kept. */
  function CancelTps(a: Account): (r: Account)
    ensures r.takeProfits == [] && WellFormed(r)
    ensures r.accountId == a.accountId && r.stopLoss == a.stopLoss && r.position == a.position
  {
    a.(takeProfits := [])
  }

  /** reset_tps and cancel_tps are the same transition. */
  lemma ResetIsCancel(a: Account)
    ensures ResetTps(a) == CancelTps(a)
  {
  }

  /** add_to_position: with no position nothing happens; otherwise the size grows by `amount`
      but never beyond the position's cap, and the cap and other keys are kept. */
  function AddToPosition(a: Account, amount: real): (r: Account)
    ensures a.position == None ==> r == a
    ensures a.position.Some? ==>
              var p := a.position.value;
              && r.position.Some?
              && r.position.value.size <= Cap(p)
              && (p.size + amount <= Cap(p) ==> r.position.value.size == p.size + amount)
              && (p.size + amount >= Cap(p) ==> r.position.value.size == Cap(p))
              && r.position.value.maxSize == p.maxSize
              && r.position.value.extras == p.extras
    ensures r.accountId == a.accountId && r.takeProfits == a.takeProfits && r.stopLoss == a.stopLoss
  {
    match a.position
    case None => a
    case Some(p) =>
      a.(position := Some(p.(size := Min(p.size + amount, Cap(p)))))
  }

  /** Adding non-negative amounts in two steps is the same as adding their sum at once: the cap
      is sticky, so once reached further additions change nothing. */
  lemma AddToPositionTwice(a: Account, x: real, y: real)
    requires y >= 0.0
    ensures AddToPosition(AddToPosition(a, x), y) == AddToPosition(a, x + y)
  {
  }

  /** calculate_position_size: the size whose loss at the stop (`slPercent` percent of it) is
      exactly the risked part (`riskPercent` percent) of the balance. Python raises on a zero
      stop percentage, so the caller must not pass one. */
  function CalculatePositionSize(balance: real, riskPercent: real, slPercent: real): (size: real)
    requires slPercent != 0.0
    ensures size * (slPercent / 100.0) == balance * (riskPercent / 100.0)
  {
    var riskAmount := balance * (riskPercent / 100.0);
    riskAmount / (slPercent / 100.0)
  }

  lemma PositionSizeTestVector()
    ensures CalculatePositionSize(1000.0, 2.0, 1.0) == 2000.0
  {
  }

  /** The account after the take-profit levels 0, 1, ..., m - 1 have filled, in that order. */
  function FillInOrder(a: Account, m: nat): Account {
    if m == 0 then a else OnTpFilled(FillInOrder(a, m - 1), m - 1)
  }

  /** Filling the ladder in order ratchets the stop-loss: after the first m levels fill (m >= 2)
      it sits at level m - 2, the last level locked in behind the newest fill; the first fill
      alone never moves it. The ladder itself never changes. */
  lemma {:induction false} FillInOrderStopLoss(a: Account, m: nat)
    requires m <= |a.takeProfits|
    ensures FillInOrder(a, m).takeProfits == a.takeProfits
    ensures m <= 1 ==> FillInOrder(a, m).stopLoss == a.stopLoss
    ensures m >= 2 ==> FillInOrder(a, m).stopLoss == Some(a.takeProfits[m - 2])
  {
    if m > 0 {
      FillInOrderStopLoss(a, m - 1);
    }
  }

  /** On a valid (strictly ascending) ladder, filling level j after level i, with 0 < i < j,
      puts the stop-loss strictly higher than the fill of level i did. */
  lemma RatchetTightens(a: Account, i: int, j: int)
    requires Validators.ValidateTpValues(a.takeProfits)
    requires 0 < i < j <= |a.takeProfits|
    ensures OnTpFilled(a, i).stopLoss.value < OnTpFilled(OnTpFilled(a, i), j).stopLoss.value
  {
  }

  /** The move ignores the current stop-loss: once levels 0 and 1 have filled in order, the
      stop-loss is level 0 whatever it was before, so a stop-loss set above level 0 moves down. */
  lemma FirstMoveOverridesStopLoss(a: Account, previous: real)
    requires 2 <= |a.takeProfits|
    requires a.stopLoss == Some(previous) && previous > a.takeProfits[0]
    ensures FillInOrder(a, 2).stopLoss.Some? && FillInOrder(a, 2).stopLoss.value < previous
  {
    FillInOrderStopLoss(a, 2);
  }

  /** The source does not enforce fill order: on a valid ladder, filling a lower level i after
      a higher level j (0 < i < j) moves the stop-loss strictly down, loosening it. */
  lemma OutOfOrderFillLoosens(a: Account, i: int, j: int)
    requires Validators.ValidateTpValues(a.takeProfits)
    requires 0 < i < j <= |a.takeProfits|
    ensures OnTpFilled(OnTpFilled(a, j), i).stopLoss.value < OnTpFilled(a, j).stopLoss.value
  {
  }

  /** The ratchet scenario: ladder [t0, t1, t2] with no stop-loss; the first fill leaves the
      stop-loss unset and the second moves it to t0. */
  lemma RatchetTestVector(t0: real, t1: real, t2: real)
    ensures var a := SetTakeProfits(NewAccount(1), [t0, t1, t2]);
            && OnTpFilled(a, 0).stopLoss == None
            && OnTpFilled(OnTpFilled(a, 0), 1).stopLoss == Some(t0)
  {
  }
}
