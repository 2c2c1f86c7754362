/** Corrected update and delete: reverse the stored movement's whole effect, apply the new one,
    and refuse anything that would leave a touched row negative. Unlike the code as written, these
    keep the table consistent with the stored movements for every movement type. */
module Intended {
  import opened Movements
  import opened Inventory
  import opened Steps
  import opened History

  /** b with m's effect posted (or, when reverse holds, taken back) at m's rows. */
  function Apply(b: Balances, m: Movement, reverse: bool): (r: Balances)
    ensures r.Keys == b.Keys + Rows(m.product, m.warehouseFrom, m.warehouseTo)
    ensures forall k :: Balance(r, k) == Balance(b, k) + (if reverse then -Effect(m, k) else Effect(m, k))
  {
    map k | k in b.Keys + Rows(m.product, m.warehouseFrom, m.warehouseTo)
      :: Balance(b, k) + (if reverse then -Effect(m, k) else Effect(m, k))
  }

  /** Taking a movement back after posting it gives every balance back. */
  lemma ApplyUndo(b: Balances, m: Movement, k: Key)
    ensures Balance(Apply(Apply(b, m, false), m, true), k) == Balance(b, k)
  {
  }

  /** Posting a movement changes no balance outside its own rows. */
  lemma ApplyOutsideRows(b: Balances, m: Movement, reverse: bool, k: Key)
    requires k !in Rows(m.product, m.warehouseFrom, m.warehouseTo)
    ensures Balance(Apply(b, m, reverse), k) == Balance(b, k)
  {
    EffectOutsideRows(m, k);
  }

  /** No row among keys is negative in b. */
  predicate CoveredAt(b: Balances, keys: set<Key>) {
    forall k | k in keys :: Balance(b, k) >= 0
  }

  /** Delete that takes back the movement's whole effect, or fails with InsufficientStock and
      changes nothing when that would leave one of its rows negative. */
  function IntendedDelete(b: Balances, m: Movement): (s: Step)
    ensures s.outcome.Success? || s == Step(b, Failure(InsufficientStock))
  {
    var r := Apply(b, m, true);
    if CoveredAt(r, Rows(m.product, m.warehouseFrom, m.warehouseTo)) then Step(r, Success)
    else Step(b, Failure(InsufficientStock))
  }

  /** Update that checks the new movement's shape, takes back the stored effect, posts the new
      one, and fails with InsufficientStock, changing nothing, when a touched row would go
      negative. */
  function IntendedUpdate(b: Balances, stored: Movement, patch: Patch): (s: Step)
    ensures s.outcome == Failure(InvalidShape) <==> !WellShaped(Merge(stored, patch))
    ensures s.outcome.Failure? ==> s.balances == b
  {
    var n := Merge(stored, patch);
    if !WellShaped(n) then Step(b, Failure(InvalidShape))
    else
      var r := Apply(Apply(b, stored, true), n, false);
      if CoveredAt(r, Rows(stored.product, stored.warehouseFrom, stored.warehouseTo)
                      + Rows(n.product, n.warehouseFrom, n.warehouseTo))
      then Step(r, Success)
      else Step(b, Failure(InsufficientStock))
  }

  /** The corrected delete keeps the table consistent with the stored movements, for every type. */
  lemma IntendedDeleteKeepsConsistent(base: Balances, b: Balances, ms: map<MovementId, Movement>,
                                      id: MovementId)
    requires Consistent(base, b, ms) && id in ms
    ensures var s := IntendedDelete(b, ms[id]);
            Consistent(base, s.balances, if s.outcome.Success? then ms - {id} else ms)
  {
    var s := IntendedDelete(b, ms[id]);
    if s.outcome.Success? {
      forall k ensures Balance(s.balances, k) == Balance(base, k) + Posted(ms - {id}, k) {
        PostedRemove(ms, id, k);
      }
    }
  }

  /** The corrected update keeps the table consistent with the updated movements, for every type. */
  lemma IntendedUpdateKeepsConsistent(base: Balances, b: Balances, ms: map<MovementId, Movement>,
                                      id: MovementId, patch: Patch)
    requires Consistent(base, b, ms) && id in ms
    ensures var s := IntendedUpdate(b, ms[id], patch);
            Consistent(base, s.balances, if s.outcome.Success? then ms[id := Merge(ms[id], patch)] else ms)
  {
    var s := IntendedUpdate(b, ms[id], patch);
    var n := Merge(ms[id], patch);
    if s.outcome.Success? {
      forall k ensures Balance(s.balances, k) == Balance(base, k) + Posted(ms[id := n], k) {
        PostedReplace(ms, id, n, k);
      }
    }
  }

  /** The corrected delete never leaves a negative row behind. */
  lemma IntendedDeleteKeepsNonnegative(b: Balances, m: Movement)
    requires Nonnegative(b)
    ensures Nonnegative(IntendedDelete(b, m).balances)
  {
    var s := IntendedDelete(b, m);
    if s.outcome.Success? {
      forall k | k in s.balances ensures s.balances[k] >= 0 {
        if k !in Rows(m.product, m.warehouseFrom, m.warehouseTo) {
          EffectOutsideRows(m, k);
        }
      }
    }
  }

  /** The corrected update never leaves a negative row behind. */
  lemma IntendedUpdateKeepsNonnegative(b: Balances, stored: Movement, patch: Patch)
    requires Nonnegative(b)
    ensures Nonnegative(IntendedUpdate(b, stored, patch).balances)
  {
    var n := Merge(stored, patch);
    var s := IntendedUpdate(b, stored, patch);
    if s.outcome.Success? {
      forall k | k in s.balances ensures s.balances[k] >= 0 {
        if k !in Rows(stored.product, stored.warehouseFrom, stored.warehouseTo) {
          EffectOutsideRows(stored, k);
        }
        if k !in Rows(n.product, n.warehouseFrom, n.warehouseTo) {
          EffectOutsideRows(n, k);
        }
      }
    }
  }

  /** With the corrected delete, creating any movement whose rows are not negative and deleting it
      gives back every balance. */
  lemma CreateThenIntendedDeleteRestores(b: Balances, m: Movement, k: Key)
    requires CoveredAt(b, Rows(m.product, m.warehouseFrom, m.warehouseTo))
    requires CreateStep(b, m).outcome.Success?
    ensures var s := IntendedDelete(CreateStep(b, m).balances, m);
            s.outcome.Success? && Balance(s.balances, k) == Balance(b, k)
  {
    var b1 := CreateStep(b, m).balances;
    var r := Apply(b1, m, true);
    forall j | j in Rows(m.product, m.warehouseFrom, m.warehouseTo) ensures Balance(r, j) >= 0 {
      CreateApplies(b, m, j);
    }
    CreateApplies(b, m, k);
  }

  /** With the corrected update, moving a TRANSFER to a new destination succeeds exactly when the
      origin is not negative, the old destination can give the quantity back and the new one stays
      non-negative; it then takes the quantity out of the old destination, puts it into the new one
      and leaves the origin as it was. */
  lemma IntendedUpdateMovesDestination(b: Balances, stored: Movement, w: WarehouseId)
    requires WellShaped(stored) && stored.movementType == Transfer
    requires Some(w) != stored.warehouseFrom && Some(w) != stored.warehouseTo
    ensures var s := IntendedUpdate(b, stored, Patch(None, Omitted, Given(Some(w)), None, None));
            var p := stored.product;
            (s.outcome.Success? <==>
               Balance(b, (p, stored.warehouseFrom.value)) >= 0
               && Balance(b, (p, stored.warehouseTo.value)) >= stored.quantity
               && Balance(b, (p, w)) + stored.quantity >= 0)
            && (s.outcome.Success? ==>
                  Balance(s.balances, (p, stored.warehouseTo.value)) == Balance(b, (p, stored.warehouseTo.value)) - stored.quantity
                  && Balance(s.balances, (p, w)) == Balance(b, (p, w)) + stored.quantity
                  && Balance(s.balances, (p, stored.warehouseFrom.value)) == Balance(b, (p, stored.warehouseFrom.value)))
  {
  }
}
