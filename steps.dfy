/** What MovementViewSet.create, update and perform_destroy (project/inventory/viewsets.py) do to
    the inventory table, written as functions of the table before the request. They follow the
    code as written, defects included; the class in module Ledger is proved to compute them. */
module Steps {
  import opened Movements
  import opened Inventory

  datatype Outcome = Success | Failure(error: Error)

  /** The inventory table after a request, and whether the request succeeded. A failed request
      can still leave a row that get-or-create materialised. */
  datatype Step = Step(balances: Balances, outcome: Outcome)

  /** create: check the warehouses for the type, then get-or-create the rows, check the origin
      holds at least the quantity, and move the quantity. The origin is checked before the
      destination row is read. */
  function CreateStep(b: Balances, m: Movement): (s: Step)
    ensures OnlyRowsChanged(b, s.balances, Rows(m.product, m.warehouseFrom, m.warehouseTo))
    ensures s.outcome == Failure(InvalidShape) <==> !WellShaped(m)
  {
    if !WellShaped(m) then Step(b, Failure(InvalidShape))
    else
      match m.movementType
      case In =>
        var k := (m.product, m.warehouseTo.value);
        var b1 := Touch(b, k);
        Step(b1[k := b1[k] + m.quantity], Success)
      case Out =>
        var k := (m.product, m.warehouseFrom.value);
        var b1 := Touch(b, k);
        if b1[k] < m.quantity then Step(b1, Failure(InsufficientStock))
        else Step(b1[k := b1[k] - m.quantity], Success)
      case Transfer =>
        var kf := (m.product, m.warehouseFrom.value);
        var kt := (m.product, m.warehouseTo.value);
        var b1 := Touch(b, kf);
        if b1[kf] < m.quantity then Step(b1, Failure(InsufficientStock))
        else
          var b2 := Touch(b1, kt);
          Step(b2[kf := b2[kf] - m.quantity][kt := b2[kt] + m.quantity], Success)
  }

  /** The rows an update of stored by patch may touch: those of the new product at any warehouse
      named by the stored or the updated movement. */
  function UpdateRows(stored: Movement, patch: Patch): set<Key> {
    var n := Merge(stored, patch);
    Rows(n.product, n.warehouseFrom, n.warehouseTo) + Rows(n.product, stored.warehouseFrom, stored.warehouseTo)
  }

  /** update: the request's fields fall back to the stored ones. IN and OUT apply the change in
      quantity at one row (an explicit null warehouse falls back to the stored one); TRANSFER
      requires an existing origin row and then debits and credits the full new quantity, without
      reversing the stored movement, reading both rows before either is written. */
  function UpdateStep(b: Balances, stored: Movement, patch: Patch): (s: Step)
    ensures OnlyRowsChanged(b, s.balances, UpdateRows(stored, patch))
  {
    var n := Merge(stored, patch);
    match n.movementType
    case In =>
      if n.warehouseFrom.Some? then Step(b, Failure(InvalidShape))
      else
        var w := if n.warehouseTo.Some? then n.warehouseTo else stored.warehouseTo;
        if w.None? then Step(b, Failure(NullWarehouse))
        else
          var k := (n.product, w.value);
          var b1 := Touch(b, k);
          Step(b1[k := b1[k] + (n.quantity - stored.quantity)], Success)
    case Out =>
      if n.warehouseTo.Some? then Step(b, Failure(InvalidShape))
      else
        var w := if n.warehouseFrom.Some? then n.warehouseFrom else stored.warehouseFrom;
        if w.None? then Step(b, Failure(NullWarehouse))
        else
          var k := (n.product, w.value);
          var b1 := Touch(b, k);
          if b1[k] < n.quantity - stored.quantity then Step(b1, Failure(InsufficientStock))
          else Step(b1[k := b1[k] - (n.quantity - stored.quantity)], Success)
    case Transfer =>
      if n.warehouseFrom.None? || n.warehouseTo.None? then Step(b, Failure(InvalidShape))
      else
        var kf := (n.product, n.warehouseFrom.value);
        var kt := (n.product, n.warehouseTo.value);
        if kf !in b then Step(b, Failure(MissingRow))
        else
          var fromQuantity := b[kf];
          var b1 := Touch(b, kt);
          var toQuantity := b1[kt];
          if fromQuantity < n.quantity then Step(b1, Failure(InsufficientStock))
          else Step(b1[kf := fromQuantity - n.quantity][kt := toQuantity + n.quantity], Success)
  }

  /** perform_destroy: reads the row at the destination, or at the origin when there is none, and
      reverses the quantity there without any stock check. For TRANSFER it credits that
      (destination) row; the debit of the destination's second copy is never written back, and
      the origin is never touched. A row that does not exist is an error and changes nothing. */
  function DeleteStep(b: Balances, m: Movement): (s: Step)
    ensures OnlyRowsChanged(b, s.balances, Rows(m.product, m.warehouseFrom, m.warehouseTo))
    ensures s.outcome.Success? ==> s.balances.Keys == b.Keys
  {
    var w := if m.warehouseTo.Some? then m.warehouseTo else m.warehouseFrom;
    if w.None? || (m.product, w.value) !in b then Step(b, Failure(MissingRow))
    else
      var k := (m.product, w.value);
      match m.movementType
      case In => Step(b[k := b[k] - m.quantity], Success)
      case Out => Step(b[k := b[k] + m.quantity], Success)
      case Transfer =>
        if m.warehouseTo.None? || (m.product, m.warehouseTo.value) !in b then Step(b, Failure(MissingRow))
        else Step(b[k := b[k] + m.quantity], Success)
  }
}
