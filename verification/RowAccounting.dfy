/** What the accumulated entry fees on a position row mean. */
module RowAccounting {
  import opened Options
  import opened Ledger
  import opened Books
  import opened Invariants
  import opened EpisodeBooks

  lemma ShareOfFees(fees: real, left: real, quantity: real)
    requires quantity != 0.0
    ensures FeesKept(fees, left, quantity) * quantity == fees * left
  {
    var share := left / quantity;
    assert share * quantity == left;
    assert fees * share * quantity == fees * (share * quantity);
  }

  /** A merge adds the trade's fee; a reduction keeps the fee carried per unit held. */
  lemma FeesFollowQuantity(p: Position, t: Trade)
    requires Touched(p, t).Some?
    ensures var next := Touched(p, t).value;
            if SideOf(t.action) == p.direction then next.buyFees == p.buyFees + t.fee
            else next.buyFees * p.quantity == p.buyFees * next.quantity
  {
    if SideOf(t.action) != p.direction {
      ShareOfFees(p.buyFees, p.quantity - t.quantity, p.quantity);
    }
  }

  /** Fees of the trades that entered the holding of a one-row book. */
  function EntryFees(trades: seq<Trade>, direction: Direction): real {
    if |trades| == 0 then 0.0
    else
      var n := |trades| - 1;
      EntryFees(trades[..n], direction) + if SideOf(trades[n].action) == direction then trades[n].fee else 0.0
  }

  predicate OnlyEntries(trades: seq<Trade>, direction: Direction) {
    forall i | 0 <= i < |trades| :: SideOf(trades[i].action) == direction
  }

  /** Until the first exit a row carries the fees of all its entries. */
  lemma {:induction false} FeesOfEntries(trades: seq<Trade>, row: Position)
    requires AllExecutable(trades) && Replay(trades) == Some([row]) && OnlyEntries(trades, row.direction)
    ensures row.buyFees == EntryFees(trades, row.direction)
  {
    var n := |trades| - 1;
    var before := LastStepOfRow(trades, row);
    match before
    case None =>
      assert row == Opened(trades[0]) && trades[..0] == [];
    case Some(earlier) =>
      assert earlier.direction == row.direction;
      FeesOfEntries(trades[..n], earlier);
      FeesFollowQuantity(earlier, trades[n]);
  }

  lemma CancelFactor(x: real, y: real, factor: real)
    requires factor > 0.0 && x * factor <= y * factor
    ensures x <= y
  {
    assert (y - x) * factor >= 0.0;
  }

  lemma ScaledAtMost(x: real, left: real, quantity: real, kept: real)
    requires x >= 0.0 && 0.0 <= left <= quantity && quantity > 0.0 && kept * quantity == x * left
    ensures 0.0 <= kept <= x
  {
    assert 0.0 <= x * left && x * (quantity - left) >= 0.0;
    CancelFactor(0.0, kept, quantity);
    CancelFactor(kept, x, quantity);
  }

  /** With no negative fees it never carries more than that, and nothing once closed. */
  lemma {:induction false} FeesCarriedAreBounded(trades: seq<Trade>, row: Position)
    requires AllExecutable(trades) && Replay(trades) == Some([row])
    requires forall i | 0 <= i < |trades| :: trades[i].fee >= 0.0
    ensures 0.0 <= row.buyFees <= EntryFees(trades, row.direction)
    ensures !row.open ==> row.buyFees == 0.0
  {
    var n := |trades| - 1;
    var before := LastStepOfRow(trades, row);
    match before
    case None =>
      assert row == Opened(trades[0]) && trades[..0] == [];
    case Some(earlier) =>
      assert earlier.direction == row.direction;
      FeesCarriedAreBounded(trades[..n], earlier);
      BookConservesQuantity(trades[..n]);
      assert [earlier][0] == earlier;
      FeesStep(earlier, trades[n]);
  }

  lemma FeesStep(p: Position, t: Trade)
    requires Executable(t) && p.open && p.quantity > 0.0 && p.buyFees >= 0.0 && Touched(p, t).Some?
    ensures var next := Touched(p, t).value;
            && (SideOf(t.action) != p.direction ==> 0.0 <= next.buyFees <= p.buyFees)
            && (!next.open ==> next.buyFees == 0.0)
            && (SideOf(t.action) == p.direction ==> next.buyFees == p.buyFees + t.fee && next.open)
  {
    hide FeesKept;
    FeesFollowQuantity(p, t);
    TouchedQuantity(p, t);
    var next := Touched(p, t).value;
    if SideOf(t.action) != p.direction {
      ScaledAtMost(p.buyFees, next.quantity, p.quantity, next.buyFees);
      if next.quantity == 0.0 {
        ScaledAtMost(0.0, 0.0, p.quantity, next.buyFees);
      }
    }
  }
}
