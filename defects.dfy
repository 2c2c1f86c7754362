/** Ways in which update and delete, as written in project/inventory/viewsets.py, corrupt the
    inventory table. Each lemma is about the as-written step functions of module Steps; module
    Intended holds the corrected definitions. */
module Defects {
  import opened Movements
  import opened Inventory
  import opened Steps
  import opened History

  /** Creating a TRANSFER and deleting it again does not give the balances back: the origin keeps
      the debit and the destination is credited a second time. */
  lemma CreateThenDeleteTransferCorrupts(b: Balances, m: Movement)
    requires WellShaped(m) && m.movementType == Transfer
    requires CreateStep(b, m).outcome.Success?
    ensures var kf := (m.product, m.warehouseFrom.value);
            var kt := (m.product, m.warehouseTo.value);
            var s := DeleteStep(CreateStep(b, m).balances, m);
            s.outcome.Success?
            && Balance(s.balances, kf) == Balance(b, kf) - m.quantity
            && Balance(s.balances, kt) == Balance(b, kt) + 2 * m.quantity
  {
  }

  /** Concretely: 10 at warehouse 1, transfer 4 to warehouse 2, delete the transfer: warehouse 1
      holds 6 and warehouse 2 holds 8, where 10 and 0 were meant. */
  lemma DeleteTransferExample()
    ensures var m := Movement(Transfer, Some(1), Some(2), 0, 4);
            var s1 := CreateStep(map[(0, 1) := 10], m);
            s1 == Step(map[(0, 1) := 6, (0, 2) := 4], Success)
            && DeleteStep(s1.balances, m) == Step(map[(0, 1) := 6, (0, 2) := 8], Success)
  {
    var m := Movement(Transfer, Some(1), Some(2), 0, 4);
    assert CreateStep(map[(0, 1) := 10], m).balances == map[(0, 1) := 6, (0, 2) := 4];
    assert map[(0, 1) := 6, (0, 2) := 4][(0, 2) := 8] == map[(0, 1) := 6, (0, 2) := 8];
  }

  /** A successful TRANSFER update between two different warehouses is exactly a fresh create of
      the updated movement: the stored movement's debit and credit are never reversed. */
  lemma UpdateTransferIgnoresStored(b: Balances, stored: Movement, patch: Patch)
    requires var n := Merge(stored, patch); n.movementType == Transfer && WellShaped(n)
    requires UpdateStep(b, stored, patch).outcome.Success?
    ensures UpdateStep(b, stored, patch) == CreateStep(b, Merge(stored, patch))
  {
  }

  /** Consequently, changing only the quantity of a stored TRANSFER leaves the origin short by the
      stored quantity, measured against the movements that remain stored, and the destination
      over by as much. */
  lemma UpdateTransferDoubleCounts(base: Balances, b: Balances, ms: map<MovementId, Movement>,
                                   id: MovementId, q: int)
    requires Consistent(base, b, ms) && id in ms
    requires WellShaped(ms[id]) && ms[id].movementType == Transfer
    requires UpdateStep(b, ms[id], Patch(None, Omitted, Omitted, None, Some(q))).outcome.Success?
    ensures var m := ms[id];
            var n := Merge(m, Patch(None, Omitted, Omitted, None, Some(q)));
            var s := UpdateStep(b, m, Patch(None, Omitted, Omitted, None, Some(q)));
            var kf := (m.product, m.warehouseFrom.value);
            var kt := (m.product, m.warehouseTo.value);
            Balance(s.balances, kf) == Balance(base, kf) + Posted(ms[id := n], kf) - m.quantity
            && Balance(s.balances, kt) == Balance(base, kt) + Posted(ms[id := n], kt) + m.quantity
  {
    var m := ms[id];
    var n := Merge(m, Patch(None, Omitted, Omitted, None, Some(q)));
    var kf := (m.product, m.warehouseFrom.value);
    var kt := (m.product, m.warehouseTo.value);
    assert Balance(b, kf) == Balance(base, kf) + Posted(ms, kf);
    assert Balance(b, kt) == Balance(base, kt) + Posted(ms, kt);
    PostedReplace(ms, id, n, kf);
    PostedReplace(ms, id, n, kt);
  }

  /** A TRANSFER update is not checked for equal warehouses; with origin equal to destination
      both rows are read before either is written, so the row ends up increased by the quantity
      and the product's total grows. */
  lemma UpdateTransferSameWarehouseInflates(b: Balances, stored: Movement, patch: Patch)
    requires var n := Merge(stored, patch);
             n.movementType == Transfer && n.warehouseFrom.Some? && n.warehouseFrom == n.warehouseTo
    requires var n := Merge(stored, patch); var k := (n.product, n.warehouseFrom.value);
             k in b && b[k] >= n.quantity
    ensures var n := Merge(stored, patch); var k := (n.product, n.warehouseFrom.value);
            var s := UpdateStep(b, stored, patch);
            s == Step(b[k := b[k] + n.quantity], Success)
            && Stock(s.balances, n.product) == Stock(b, n.product) + n.quantity
  {
    var n := Merge(stored, patch);
    var k := (n.product, n.warehouseFrom.value);
    WriteChangesStock(b, k, b[k] + n.quantity, n.product);
  }

  /** Moving a stored IN to another warehouse applies only the change in quantity at the new
      warehouse: the old warehouse keeps the stored quantity that no stored movement accounts
      for any more. */
  lemma UpdateInMoveStrandsStock(base: Balances, b: Balances, ms: map<MovementId, Movement>,
                                 id: MovementId, w: WarehouseId)
    requires Consistent(base, b, ms) && id in ms
    requires WellShaped(ms[id]) && ms[id].movementType == In && ms[id].warehouseTo != Some(w)
    ensures var m := ms[id];
            var patch := Patch(None, Omitted, Given(Some(w)), None, None);
            var s := UpdateStep(b, m, patch);
            var k := (m.product, m.warehouseTo.value);
            s.outcome.Success?
            && Balance(s.balances, k) == Balance(base, k) + Posted(ms[id := Merge(m, patch)], k) + m.quantity
  {
    var m := ms[id];
    var patch := Patch(None, Omitted, Given(Some(w)), None, None);
    var k := (m.product, m.warehouseTo.value);
    assert Balance(b, k) == Balance(base, k) + Posted(ms, k);
    PostedReplace(ms, id, Merge(m, patch), k);
  }

  /** Turning a stored IN into an OUT at the same warehouse, with the destination cleared, applies
      only the change in quantity, which is zero: the row keeps its balance although the stored
      receipt is now an issue, so it stands twice the quantity above the movements stored. */
  lemma UpdateInToOutKeepsBalance(base: Balances, b: Balances, ms: map<MovementId, Movement>,
                                  id: MovementId)
    requires Consistent(base, b, ms) && id in ms
    requires WellShaped(ms[id]) && ms[id].movementType == In
    ensures var m := ms[id];
            var patch := Patch(Some(Out), Given(m.warehouseTo), Given(None), None, None);
            var s := UpdateStep(b, m, patch);
            var k := (m.product, m.warehouseTo.value);
            (s.outcome.Success? <==> Balance(b, k) >= 0)
            && Balance(s.balances, k) == Balance(b, k)
            && (s.outcome.Success? ==>
                  Balance(s.balances, k) == Balance(base, k) + Posted(ms[id := Merge(m, patch)], k) + 2 * m.quantity)
  {
    var m := ms[id];
    var patch := Patch(Some(Out), Given(m.warehouseTo), Given(None), None, None);
    var k := (m.product, m.warehouseTo.value);
    assert Balance(b, k) == Balance(base, k) + Posted(ms, k);
    PostedReplace(ms, id, Merge(m, patch), k);
  }

  /** An IN update that gives the destination as null adjusts the stored destination but stores
      the movement with no warehouse at all; from then on every delete of it fails. */
  lemma UpdateInNullDestinationBlocksDelete(b: Balances, stored: Movement, q: int)
    requires WellShaped(stored) && stored.movementType == In
    ensures var patch := Patch(None, Omitted, Given(None), None, Some(q));
            var n := Merge(stored, patch);
            var s := UpdateStep(b, stored, patch);
            var k := (stored.product, stored.warehouseTo.value);
            s == Step(Touch(b, k)[k := Balance(b, k) + (q - stored.quantity)], Success)
            && n.warehouseFrom.None? && n.warehouseTo.None?
            && (forall b': Balances :: DeleteStep(b', n) == Step(b', Failure(MissingRow)))
  {
  }

  /** Deleting an IN whose stock has since been issued drives the row negative: 10 received,
      8 issued, and deleting the receipt leaves -8. */
  lemma DeleteInGoesNegative()
    ensures var b := map[(0, 1) := 2];
            var s := DeleteStep(b, Movement(In, None, Some(1), 0, 10));
            Nonnegative(b) && s == Step(map[(0, 1) := -8], Success) && !Nonnegative(s.balances)
  {
    var s := DeleteStep(map[(0, 1) := 2], Movement(In, None, Some(1), 0, 10));
    assert s.balances[(0, 1)] == -8;
  }

  /** Lowering the quantity of an IN whose stock has since been issued drives the row negative:
      a receipt of 10 with 2 left, changed to 0, leaves -8. */
  lemma UpdateInGoesNegative()
    ensures var b := map[(0, 1) := 2];
            var s := UpdateStep(b, Movement(In, None, Some(1), 0, 10), Patch(None, Omitted, Omitted, None, Some(0)));
            Nonnegative(b) && s == Step(map[(0, 1) := -8], Success) && !Nonnegative(s.balances)
  {
    var s := UpdateStep(map[(0, 1) := 2], Movement(In, None, Some(1), 0, 10), Patch(None, Omitted, Omitted, None, Some(0)));
    assert s.balances[(0, 1)] == -8;
  }
}
