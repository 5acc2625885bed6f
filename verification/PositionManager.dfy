/** The mutable position manager: shared position records that fills update in place. */
module PositionManager {
  import opened Position

  class PositionRecord {
    var side: PosSide
    var qty: real
    var avgEntry: real
    var realizedPnL: real
    var totalFees: real
    var tradeCount: nat

    function Val(): Pos
      reads this
    {
      Pos(side, qty, avgEntry, realizedPnL, totalFees, tradeCount)
    }

    constructor ()
      ensures Val() == FLAT
    {
      side, qty, avgEntry, realizedPnL, totalFees, tradeCount := Flat, 0.0, 0.0, 0.0, 0.0, 0;
    }

    /** The core update: open, add, reduce, close or flip. */
    method ApplyFill(fillPrice: real, signedQty: real, fee: real)
      modifies this
      ensures Val() == Apply(old(Val()), fillPrice, signedQty, fee)
    {
      hide Averaged, Gain;
      var oldQty := qty;
      var newQty := oldQty + signedQty;
      var absOld := Abs(oldQty);
      var absFill := Abs(signedQty);
      totalFees := totalFees + fee;
      tradeCount := tradeCount + 1;
      if oldQty == 0.0 {
        avgEntry := fillPrice;
        qty := newQty;
        side := SideOf(newQty);
        return;
      }
      if SameDirection(oldQty, signedQty) {
        avgEntry := Averaged(avgEntry, absOld, fillPrice, absFill);
        qty := newQty;
        side := SideOf(newQty);
        return;
      }
      var closeQty := absOld;
      if absFill < absOld {
        closeQty := absFill;
      }
      realizedPnL := realizedPnL + Gain(oldQty > 0.0, avgEntry, fillPrice, closeQty);
      qty := newQty;
      side := SideOf(newQty);
      if newQty == 0.0 {
        avgEntry := 0.0;
      } else if SideOf(newQty) != SideOf(oldQty) {
        avgEntry := fillPrice;
      }
    }
  }

  /** The values of the records a map refers to. */
  function Values<K>(records: map<K, PositionRecord>): map<K, Pos>
    reads records.Values
  {
    map k | k in records :: records[k].Val()
  }

  ghost predicate Unshared<K(!new)>(records: map<K, PositionRecord>) {
    forall j, k :: j in records && k in records && j != k ==> records[j] != records[k]
  }

  class Manager {
    var positions: map<Key, PositionRecord>
    var globalPos: map<Market, PositionRecord>

    /** No two keys share a record, so a fill for one never moves another. */
    ghost predicate Valid()
      reads this
    {
      Unshared(positions) && Unshared(globalPos) && positions.Values !! globalPos.Values
    }

    ghost function Records(): set<PositionRecord>
      reads this
    {
      positions.Values + globalPos.Values
    }

    ghost function View(): Book
      reads this, Records()
    {
      Book(Values(positions), Values(globalPos))
    }

    constructor ()
      ensures Valid() && View() == EMPTY_BOOK && Records() == {}
    {
      positions, globalPos := map[], map[];
    }

    /** Applies a fill to its strategy's position and to the one netted across strategies. */
    method ApplyFill(f: Fill)
      requires Valid()
      modifies this, Records()
      ensures Valid() && fresh(Records() - old(Records()))
      ensures View() == BookFill(old(View()), f)
    {
      FillPosition(f);
      FillNetted(f);
    }

    method FillPosition(f: Fill)
      requires Valid()
      modifies this`positions, positions.Values
      ensures Valid() && fresh(positions.Values - old(positions.Values))
      ensures Values(positions) ==
        old(Values(positions))[KeyOf(f) := Position.ApplyFill(PosAt(old(Values(positions)), KeyOf(f)), f)]
      ensures Values(globalPos) == old(Values(globalPos))
    {
      hide Position.ApplyFill;
      positions := FillRecord(positions, KeyOf(f), f);
      assert forall k :: k in globalPos ==> globalPos[k] in globalPos.Values;
    }

    method FillNetted(f: Fill)
      requires Valid()
      modifies this`globalPos, globalPos.Values
      ensures Valid() && fresh(globalPos.Values - old(globalPos.Values))
      ensures var m := KeyOf(f).market;
        Values(globalPos) == old(Values(globalPos))[m := Position.ApplyFill(PosAt(old(Values(globalPos)), m), f)]
      ensures Values(positions) == old(Values(positions))
    {
      hide Position.ApplyFill;
      globalPos := FillRecord(globalPos, KeyOf(f).market, f);
      assert forall k :: k in positions ==> positions[k] in positions.Values;
    }
  }

  /** Finds the record of a key, or makes a flat one, and applies the fill to it. */
  method FillRecord<K(!new)>(records: map<K, PositionRecord>, k: K, f: Fill) returns (result: map<K, PositionRecord>)
    requires Unshared(records)
    modifies records.Values
    ensures Unshared(result) && fresh(result.Values - records.Values)
    ensures Values(result) == old(Values(records))[k := Position.ApplyFill(PosAt(old(Values(records)), k), f)]
  {
    hide Apply;
    ghost var before := Values(records);
    result := records;
    if k !in records {
      var r := new PositionRecord();
      result := records[k := r];
    }
    var pos := result[k];
    assert pos.Val() == PosAt(before, k);
    assert forall j :: j in result && j != k ==> j in records && result[j] != pos && result[j].Val() == before[j];
    pos.ApplyFill(f.price, Signed(f), f.fee);
    assert forall j :: j in result && j != k ==> result[j].Val() == before[j];
  }
}
