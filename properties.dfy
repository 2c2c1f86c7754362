/** What each request does to the inventory table, stated per movement type and proved from the
    step functions of module Steps. */
module Properties {
  import opened Movements
  import opened Inventory
  import opened Steps

  /** Creating a well-formed IN raises the destination by the quantity, creating a zero row first
      when there is none, and changes no other row. */
  lemma CreateInCredits(b: Balances, m: Movement)
    requires m.movementType == In && m.warehouseTo.Some? && m.warehouseFrom.None?
    ensures var s := CreateStep(b, m); var k := (m.product, m.warehouseTo.value);
            s.outcome == Success && k in s.balances && s.balances[k] == Balance(b, k) + m.quantity
            && OnlyRowsChanged(b, s.balances, {k})
  {
  }

  /** A create whose warehouses do not fit its type is refused and changes no row. */
  lemma CreateRejectsShape(b: Balances, m: Movement)
    requires !WellShaped(m)
    ensures CreateStep(b, m) == Step(b, Failure(InvalidShape))
  {
  }

  /** Creating a well-formed OUT succeeds exactly when the origin holds at least the quantity.
      On success the origin drops by the quantity and stays non-negative; on failure no quantity
      changes, though an empty origin row may have been created. */
  lemma CreateOutChecksStock(b: Balances, m: Movement)
    requires m.movementType == Out && m.warehouseFrom.Some? && m.warehouseTo.None?
    ensures var s := CreateStep(b, m); var k := (m.product, m.warehouseFrom.value);
            (s.outcome.Success? <==> Balance(b, k) >= m.quantity)
            && (s.outcome.Success? ==> s.balances == Touch(b, k)[k := Balance(b, k) - m.quantity]
                                       && s.balances[k] >= 0)
            && (s.outcome.Failure? ==> s.outcome.error == InsufficientStock && s.balances == Touch(b, k))
  {
  }

  /** Creating a well-formed TRANSFER succeeds exactly when the origin holds at least the
      quantity, checked before anything changes. On success the origin falls and the destination
      rises by the quantity, no balance goes negative at the origin, and the total stock of every
      product is unchanged. On failure only an empty origin row may have been created. */
  lemma CreateTransferMoves(b: Balances, m: Movement, p: ProductId)
    requires m.movementType == Transfer && WellShaped(m)
    ensures var s := CreateStep(b, m);
            var kf := (m.product, m.warehouseFrom.value);
            var kt := (m.product, m.warehouseTo.value);
            (s.outcome.Success? <==> Balance(b, kf) >= m.quantity)
            && (s.outcome.Success? ==>
                  s.balances[kf] == Balance(b, kf) - m.quantity && s.balances[kf] >= 0
                  && s.balances[kt] == Balance(b, kt) + m.quantity
                  && Stock(s.balances, p) == Stock(b, p))
            && (s.outcome.Failure? ==> s.outcome.error == InsufficientStock && s.balances == Touch(b, kf))
  {
    var kf := (m.product, m.warehouseFrom.value);
    var kt := (m.product, m.warehouseTo.value);
    var s := CreateStep(b, m);
    if s.outcome.Success? {
      var b1 := Touch(b, kf);
      var b2 := Touch(b1, kt);
      var b3 := b2[kf := b2[kf] - m.quantity];
      TouchKeepsStock(b, kf, p);
      TouchKeepsStock(b1, kt, p);
      WriteChangesStock(b2, kf, b2[kf] - m.quantity, p);
      WriteChangesStock(b3, kt, b2[kt] + m.quantity, p);
    }
  }

  /** From a table without negative rows, a create of a non-negative quantity, successful or
      not, leaves no negative row. */
  lemma CreateKeepsNonnegative(b: Balances, m: Movement)
    requires Nonnegative(b) && m.quantity >= 0
    ensures Nonnegative(CreateStep(b, m).balances)
  {
  }

  /** An IN of q followed by an OUT of q at the same row succeeds and gives back the original
      balance, provided that balance was not negative. */
  lemma InThenOutRestores(b: Balances, p: ProductId, w: WarehouseId, q: int)
    requires Balance(b, (p, w)) >= 0
    ensures var s1 := CreateStep(b, Movement(In, None, Some(w), p, q));
            var s2 := CreateStep(s1.balances, Movement(Out, Some(w), None, p, q));
            s1.outcome == Success && s2.outcome == Success && s2.balances == Touch(b, (p, w))
  {
  }

  /** Updating into an IN: a warehouse of origin is refused; otherwise the change in quantity is
      added at the new destination, or at the stored one when the request gives none, and no stock
      check is made. */
  lemma UpdateInAdjusts(b: Balances, stored: Movement, patch: Patch)
    requires Merge(stored, patch).movementType == In
    ensures var n := Merge(stored, patch);
            var s := UpdateStep(b, stored, patch);
            var w := if n.warehouseTo.Some? then n.warehouseTo else stored.warehouseTo;
            (n.warehouseFrom.Some? ==> s == Step(b, Failure(InvalidShape)))
            && (n.warehouseFrom.None? && w.None? ==> s == Step(b, Failure(NullWarehouse)))
            && (n.warehouseFrom.None? && w.Some? ==>
                  var k := (n.product, w.value);
                  s == Step(Touch(b, k)[k := Balance(b, k) + (n.quantity - stored.quantity)], Success))
  {
  }

  /** Updating into an OUT: a destination is refused; otherwise the change in quantity is taken
      from the new origin, or from the stored one, only when the balance there covers it. */
  lemma UpdateOutAdjusts(b: Balances, stored: Movement, patch: Patch)
    requires Merge(stored, patch).movementType == Out
    ensures var n := Merge(stored, patch);
            var s := UpdateStep(b, stored, patch);
            var w := if n.warehouseFrom.Some? then n.warehouseFrom else stored.warehouseFrom;
            var delta := n.quantity - stored.quantity;
            (n.warehouseTo.Some? ==> s == Step(b, Failure(InvalidShape)))
            && (n.warehouseTo.None? && w.None? ==> s == Step(b, Failure(NullWarehouse)))
            && (n.warehouseTo.None? && w.Some? ==>
                  var k := (n.product, w.value);
                  (s.outcome.Success? <==> Balance(b, k) >= delta)
                  && (s.outcome.Success? ==> s.balances == Touch(b, k)[k := Balance(b, k) - delta])
                  && (s.outcome.Failure? ==> s == Step(Touch(b, k), Failure(InsufficientStock))))
  {
  }

  /** Updating into a TRANSFER: both warehouses are required, the origin row must already exist
      and must hold the full new quantity. On success between two different warehouses the
      origin falls and the destination rises by the full new quantity, whatever the stored
      movement was, so the product's total is kept. */
  lemma UpdateTransferRules(b: Balances, stored: Movement, patch: Patch, p: ProductId)
    requires Merge(stored, patch).movementType == Transfer
    ensures var n := Merge(stored, patch);
            var s := UpdateStep(b, stored, patch);
            (n.warehouseFrom.None? || n.warehouseTo.None? ==> s == Step(b, Failure(InvalidShape)))
            && (n.warehouseFrom.Some? && n.warehouseTo.Some? ==>
                  var kf := (n.product, n.warehouseFrom.value);
                  var kt := (n.product, n.warehouseTo.value);
                  (kf !in b ==> s == Step(b, Failure(MissingRow)))
                  && (kf in b && b[kf] < n.quantity ==> s == Step(Touch(b, kt), Failure(InsufficientStock)))
                  && (kf in b && b[kf] >= n.quantity ==> s.outcome == Success)
                  && (s.outcome.Success? && kf != kt ==>
                        s.balances[kf] == b[kf] - n.quantity
                        && s.balances[kt] == Balance(b, kt) + n.quantity
                        && Stock(s.balances, p) == Stock(b, p)))
  {
    var n := Merge(stored, patch);
    var s := UpdateStep(b, stored, patch);
    if n.warehouseFrom.Some? && n.warehouseTo.Some? && s.outcome.Success? {
      var kf := (n.product, n.warehouseFrom.value);
      var kt := (n.product, n.warehouseTo.value);
      if kf != kt {
        var b1 := Touch(b, kt);
        var b2 := b1[kf := b[kf] - n.quantity];
        TouchKeepsStock(b, kt, p);
        WriteChangesStock(b1, kf, b[kf] - n.quantity, p);
        WriteChangesStock(b2, kt, b1[kt] + n.quantity, p);
      }
    }
  }

  /** Deleting a well-formed IN subtracts its quantity at the destination row, with no stock
      check; deleting a well-formed OUT adds it back at the origin row. A missing row is an
      error and changes nothing. */
  lemma DeleteInOutReverses(b: Balances, m: Movement)
    requires WellShaped(m) && m.movementType != Transfer
    ensures var w := if m.movementType == In then m.warehouseTo.value else m.warehouseFrom.value;
            var k := (m.product, w);
            var s := DeleteStep(b, m);
            (k !in b ==> s == Step(b, Failure(MissingRow)))
            && (k in b && m.movementType == In ==> s == Step(b[k := b[k] - m.quantity], Success))
            && (k in b && m.movementType == Out ==> s == Step(b[k := b[k] + m.quantity], Success))
  {
  }

  /** Deleting a well-formed TRANSFER, as written, adds its quantity at the destination and
      leaves the origin alone. A missing destination row is an error and changes nothing. */
  lemma DeleteTransferCreditsDestination(b: Balances, m: Movement)
    requires WellShaped(m) && m.movementType == Transfer
    ensures var kf := (m.product, m.warehouseFrom.value);
            var kt := (m.product, m.warehouseTo.value);
            var s := DeleteStep(b, m);
            (kt !in b ==> s == Step(b, Failure(MissingRow)))
            && (kt in b ==> s == Step(b[kt := b[kt] + m.quantity], Success)
                            && Balance(s.balances, kf) == Balance(b, kf))
  {
  }

  /** Receive 10 into warehouse X, transfer 4 from X to Y, then try to issue 7 from X: the issue
      is refused because X holds only 6, and no balance changes. An IN that also names an origin
      is refused outright. */
  lemma ReceiveTransferIssueScenario(p: ProductId, x: WarehouseId, y: WarehouseId)
    requires x != y
    ensures var s1 := CreateStep(map[], Movement(In, None, Some(x), p, 10));
            var s2 := CreateStep(s1.balances, Movement(Transfer, Some(x), Some(y), p, 4));
            var s3 := CreateStep(s2.balances, Movement(Out, Some(x), None, p, 7));
            s1 == Step(map[(p, x) := 10], Success)
            && s2 == Step(map[(p, x) := 6, (p, y) := 4], Success)
            && s3 == Step(s2.balances, Failure(InsufficientStock))
            && CreateStep(s1.balances, Movement(In, Some(x), Some(x), p, 5)) == Step(s1.balances, Failure(InvalidShape))
  {
    var s1 := CreateStep(map[], Movement(In, None, Some(x), p, 10));
    assert s1.balances == map[(p, x) := 10];
    var s2 := CreateStep(s1.balances, Movement(Transfer, Some(x), Some(y), p, 4));
    assert s2.balances == map[(p, x) := 6, (p, y) := 4];
  }
}
