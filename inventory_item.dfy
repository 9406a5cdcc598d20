/**
 * InventoryItem: the stock record of one ingredient. Only `stockLevel`
 * changes, and only through consume (rejects over-consumption) and restock
 * (clamps at the maximum capacity).
 */
module Inventory {
  import opened Common
  import Text

  datatype StockStatus = InStock | LowStock | OutOfStock

  /** getStatus: zero is OUT_OF_STOCK, up to the reorder threshold LOW_STOCK, above it IN_STOCK. */
  function StatusOf(stock: int, threshold: int): StockStatus
  {
    if stock == 0 then OutOfStock
    else if stock <= threshold then LowStock
    else InStock
  }

  /** For a non-negative level the three statuses split the levels at 0 and at the threshold. */
  lemma StatusClassification(stock: int, threshold: int)
    requires stock >= 0
    ensures StatusOf(stock, threshold) == OutOfStock <==> stock == 0
    ensures StatusOf(stock, threshold) == LowStock <==> 0 < stock <= threshold
    ensures StatusOf(stock, threshold) == InStock <==> stock > 0 && stock > threshold
  {
  }

  /** The level after restock(quantity): Math.min(stockLevel + quantity, maxCapacity). */
  function RestockedLevel(stock: int, quantity: int, maxCapacity: int): (r: int)
    ensures r <= maxCapacity && r <= stock + quantity
    ensures r == stock + quantity || r == maxCapacity
  {
    if stock + quantity < maxCapacity then stock + quantity else maxCapacity
  }

  /** With Java's 32-bit arithmetic the restocked level is computed exactly whenever the inputs are ints. */
  lemma RestockedLevelIsInt32(stock: int, quantity: int, maxCapacity: int)
    requires 0 <= stock <= maxCapacity && 0 <= quantity && Text.IsInt32(maxCapacity)
    ensures 0 <= RestockedLevel(stock, quantity, maxCapacity) <= maxCapacity
    ensures Text.IsInt32(RestockedLevel(stock, quantity, maxCapacity))
  {
  }

  /** Two's-complement wrap-around of a Java int addition. */
  function Wrap32(x: int): (r: int)
    ensures Text.IsInt32(r)
    ensures (r - x) % 0x1_0000_0000 == 0
    ensures Text.IsInt32(x) ==> r == x
  {
    (x - Text.MinInt) % 0x1_0000_0000 + Text.MinInt
  }

  /** restock exactly as the source computes it: the int sum wraps before Math.min. */
  function RestockedLevelAsWritten(stock: int, quantity: int, maxCapacity: int): int
  {
    var sum := Wrap32(stock + quantity);
    if sum < maxCapacity then sum else maxCapacity
  }

  /** A large restock of a stocked item overflows and leaves a negative level. */
  lemma RestockOverflowGoesNegative()
    ensures RestockedLevelAsWritten(1, Text.MaxInt, 10) == Text.MinInt
    ensures RestockedLevel(1, Text.MaxInt, 10) == 10
  {
  }

  /** Without overflow the source's computation and the intended clamp agree. */
  lemma RestockAsWrittenAgreesWithoutOverflow(stock: int, quantity: int, maxCapacity: int)
    requires Text.IsInt32(stock + quantity)
    ensures RestockedLevelAsWritten(stock, quantity, maxCapacity) == RestockedLevel(stock, quantity, maxCapacity)
  {
  }

  // ---------------------------------------------------------------------
  // Sequences of stock operations on one record.

  datatype StockOp = ConsumeOp(quantity: int) | RestockOp(quantity: int)

  /** One operation: a consume that does not fit is rejected and changes nothing. */
  function Apply(stock: int, maxCapacity: int, op: StockOp): int
  {
    match op
    case ConsumeOp(q) => if q > stock then stock else stock - q
    case RestockOp(q) => RestockedLevel(stock, q, maxCapacity)
  }

  function Run(stock: int, maxCapacity: int, ops: seq<StockOp>): int
    decreases |ops|
  {
    if |ops| == 0 then stock else Run(Apply(stock, maxCapacity, ops[0]), maxCapacity, ops[1..])
  }

  predicate NonNegative(ops: seq<StockOp>)
  {
    forall i :: 0 <= i < |ops| ==> ops[i].quantity >= 0
  }

  /** No sequence of non-negative consumes and restocks leaves 0 <= stockLevel <= maxCapacity. */
  lemma {:induction false} RunStaysInBounds(stock: int, maxCapacity: int, ops: seq<StockOp>)
    requires 0 <= stock <= maxCapacity && NonNegative(ops)
    ensures 0 <= Run(stock, maxCapacity, ops) <= maxCapacity
    decreases |ops|
  {
    if |ops| > 0 {
      RunStaysInBounds(Apply(stock, maxCapacity, ops[0]), maxCapacity, ops[1..]);
    }
  }

  function TotalConsumed(ops: seq<StockOp>): int
  {
    if |ops| == 0 then 0 else ops[0].quantity + TotalConsumed(ops[1..])
  }

  predicate AllConsumes(ops: seq<StockOp>)
  {
    forall i :: 0 <= i < |ops| ==> ops[i].ConsumeOp? && ops[i].quantity >= 0
  }

  /**
   * Consumes whose total fits in the stock all succeed, and the final level is
   * the initial level less that total (1000 less 100 reductions of 5 is 500).
   */
  lemma {:induction false} ConsumesThatFitAllSucceed(stock: int, maxCapacity: int, ops: seq<StockOp>)
    requires AllConsumes(ops) && TotalConsumed(ops) <= stock
    ensures Run(stock, maxCapacity, ops) == stock - TotalConsumed(ops)
    decreases |ops|
  {
    if |ops| > 0 {
      assert AllConsumes(ops[1..]);
      TotalConsumedNonNegative(ops[1..]);
      ConsumesThatFitAllSucceed(stock - ops[0].quantity, maxCapacity, ops[1..]);
    }
  }

  lemma {:induction false} TotalConsumedNonNegative(ops: seq<StockOp>)
    requires AllConsumes(ops)
    ensures TotalConsumed(ops) >= 0
  {
    if |ops| > 0 {
      assert AllConsumes(ops[1..]);
      TotalConsumedNonNegative(ops[1..]);
    }
  }

  /** consume(a) followed by restock(a) restores the level when the cap does not bite. */
  lemma ConsumeThenRestockRestores(stock: int, quantity: int, maxCapacity: int)
    requires 0 <= quantity <= stock <= maxCapacity
    ensures Run(stock, maxCapacity, [ConsumeOp(quantity), RestockOp(quantity)]) == stock
  {
    var ops := [ConsumeOp(quantity), RestockOp(quantity)];
    assert ops[1..] == [RestockOp(quantity)] && ops[1..][1..] == [];
    assert Run(stock, maxCapacity, ops) == Run(stock - quantity, maxCapacity, [RestockOp(quantity)]);
  }

  class InventoryItem {
    const id: string
    const name: string
    const unit: string
    var stockLevel: int
    const reorderThreshold: int
    const maxCapacity: int

    /** The record invariant the domain rules are meant to keep: 0 <= stockLevel <= maxCapacity. */
    ghost predicate Valid()
      reads this
    {
      0 <= stockLevel <= maxCapacity
    }

    /** The constructor stores its arguments unchecked. */
    constructor (id: string, name: string, unit: string, stockLevel: int, reorderThreshold: int, maxCapacity: int)
      ensures this.id == id && this.name == name && this.unit == unit
      ensures this.stockLevel == stockLevel
      ensures this.reorderThreshold == reorderThreshold && this.maxCapacity == maxCapacity
    {
      this.id := id;
      this.name := name;
      this.unit := unit;
      this.stockLevel := stockLevel;
      this.reorderThreshold := reorderThreshold;
      this.maxCapacity := maxCapacity;
    }

    /** getStatus: the level classified against 0 and the reorder threshold, for any level. */
    function Status(): (r: StockStatus)
      reads this
      ensures r == OutOfStock <==> stockLevel == 0
      ensures r == LowStock <==> stockLevel != 0 && stockLevel <= reorderThreshold
      ensures r == InStock <==> stockLevel != 0 && stockLevel > reorderThreshold
    {
      StatusOf(stockLevel, reorderThreshold)
    }

    /** consume: more than the stock throws IllegalStateException; otherwise the level drops by quantity. */
    method Consume(quantity: int) returns (o: Outcome)
      modifies this
      ensures quantity > old(stockLevel) ==> o == Fail(IllegalState) && unchanged(this)
      ensures quantity <= old(stockLevel) ==> o == Pass && stockLevel == old(stockLevel) - quantity
      ensures old(Valid()) && quantity >= 0 ==> Valid()
      ensures stockLevel == Apply(old(stockLevel), maxCapacity, ConsumeOp(quantity))
    {
      if quantity > stockLevel {
        return Fail(IllegalState);
      }
      stockLevel := stockLevel - quantity;
      o := Pass;
    }

    /** restock: add the quantity, capped at maxCapacity. */
    method Restock(quantity: int)
      modifies this
      ensures stockLevel == RestockedLevel(old(stockLevel), quantity, maxCapacity)
      ensures stockLevel <= maxCapacity
      ensures old(Valid()) && quantity >= 0 ==> Valid()
    {
      stockLevel := RestockedLevel(stockLevel, quantity, maxCapacity);
    }
  }
}
