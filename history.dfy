/** The ledger reading of the inventory table: every balance is its starting value plus the signed
    effects of the movements currently stored. Creating a movement keeps this, and so do deleting
    and updating an IN or OUT in place; the TRANSFER paths do not (module Defects). */
module History {
  import opened Sums
  import opened Movements
  import opened Inventory
  import opened Steps

  /** The change movement m stands for at row k: IN credits the destination, OUT debits the
      origin, TRANSFER does both. */
  function Effect(m: Movement, k: Key): int {
    var credit := if m.warehouseTo.Some? && k == (m.product, m.warehouseTo.value) then m.quantity else 0;
    var debit := if m.warehouseFrom.Some? && k == (m.product, m.warehouseFrom.value) then m.quantity else 0;
    match m.movementType
    case In => credit
    case Out => -debit
    case Transfer => credit - debit
  }

  /** A movement has no effect outside its own rows. */
  lemma EffectOutsideRows(m: Movement, k: Key)
    requires k !in Rows(m.product, m.warehouseFrom, m.warehouseTo)
    ensures Effect(m, k) == 0
  {
  }

  /** The signed sum, at row k, of the movements stored in ms. */
  ghost function Posted(ms: map<MovementId, Movement>, k: Key): int {
    Sum(ms.Keys, (id: MovementId) => if id in ms then Effect(ms[id], k) else 0)
  }

  /** Every balance of b is its value in base plus what the movements in ms posted there. */
  ghost predicate Consistent(base: Balances, b: Balances, ms: map<MovementId, Movement>) {
    forall k :: Balance(b, k) == Balance(base, k) + Posted(ms, k)
  }

  lemma PostedAdd(ms: map<MovementId, Movement>, id: MovementId, m: Movement, k: Key)
    requires id !in ms
    ensures Posted(ms[id := m], k) == Posted(ms, k) + Effect(m, k)
  {
    var ms' := ms[id := m];
    var f := (i: MovementId) => if i in ms then Effect(ms[i], k) else 0;
    var g := (i: MovementId) => if i in ms' then Effect(ms'[i], k) else 0;
    SumAgree(ms.Keys, f, g);
    assert ms'.Keys == ms.Keys + {id};
    SumAddFresh(ms.Keys, g, id);
  }

  lemma PostedRemove(ms: map<MovementId, Movement>, id: MovementId, k: Key)
    requires id in ms
    ensures Posted(ms - {id}, k) == Posted(ms, k) - Effect(ms[id], k)
  {
    var ms': map<MovementId, Movement> := ms - {id};
    var f := (i: MovementId) => if i in ms then Effect(ms[i], k) else 0;
    var g := (i: MovementId) => if i in ms' then Effect(ms'[i], k) else 0;
    SumRemove(ms.Keys, f, id);
    assert ms'.Keys == ms.Keys - {id};
    SumAgree(ms'.Keys, f, g);
  }

  lemma PostedReplace(ms: map<MovementId, Movement>, id: MovementId, m: Movement, k: Key)
    requires id in ms
    ensures Posted(ms[id := m], k) == Posted(ms, k) - Effect(ms[id], k) + Effect(m, k)
  {
    var ms' := ms[id := m];
    var f := (i: MovementId) => if i in ms then Effect(ms[i], k) else 0;
    var g := (i: MovementId) => if i in ms' then Effect(ms'[i], k) else 0;
    assert ms'.Keys == ms.Keys;
    SumChangeAt(ms.Keys, f, g, id);
  }

  /** A successful create changes every balance by exactly the new movement's effect there; a
      failed one changes no balance. */
  lemma CreateApplies(b: Balances, m: Movement, k: Key)
    ensures var s := CreateStep(b, m);
            Balance(s.balances, k) == Balance(b, k) + (if s.outcome.Success? then Effect(m, k) else 0)
  {
  }

  /** Creating a movement under a fresh id keeps the table consistent with the stored movements,
      whether it succeeds (the movement is stored) or fails (nothing is stored). */
  lemma CreateKeepsConsistent(base: Balances, b: Balances, ms: map<MovementId, Movement>,
                              id: MovementId, m: Movement)
    requires Consistent(base, b, ms) && id !in ms
    ensures var s := CreateStep(b, m);
            Consistent(base, s.balances, if s.outcome.Success? then ms[id := m] else ms)
  {
    var s := CreateStep(b, m);
    forall k
      ensures Balance(s.balances, k) == Balance(base, k)
                + Posted(if s.outcome.Success? then ms[id := m] else ms, k)
    {
      CreateApplies(b, m, k);
      if s.outcome.Success? {
        PostedAdd(ms, id, m, k);
      }
    }
  }

  /** Deleting a stored, well-formed IN or OUT removes exactly its effect, so the table stays
      consistent with the remaining movements. */
  lemma DeleteInOutKeepsConsistent(base: Balances, b: Balances, ms: map<MovementId, Movement>,
                                   id: MovementId)
    requires Consistent(base, b, ms) && id in ms
    requires WellShaped(ms[id]) && ms[id].movementType != Transfer
    ensures var s := DeleteStep(b, ms[id]);
            Consistent(base, s.balances, if s.outcome.Success? then ms - {id} else ms)
  {
    var s := DeleteStep(b, ms[id]);
    forall k
      ensures Balance(s.balances, k) == Balance(base, k)
                + Posted(if s.outcome.Success? then ms - {id} else ms, k)
    {
      if s.outcome.Success? {
        assert Balance(s.balances, k) == Balance(b, k) - Effect(ms[id], k);
        PostedRemove(ms, id, k);
      }
    }
  }

  /** Updating a stored, well-formed IN or OUT without changing its type, product or warehouses
      applies the change in quantity, so the table stays consistent with the updated movement. */
  lemma UpdateInOutKeepsConsistent(base: Balances, b: Balances, ms: map<MovementId, Movement>,
                                   id: MovementId, patch: Patch)
    requires Consistent(base, b, ms) && id in ms
    requires WellShaped(ms[id]) && ms[id].movementType != Transfer
    requires var n := Merge(ms[id], patch);
             n.movementType == ms[id].movementType && n.product == ms[id].product
             && n.warehouseFrom == ms[id].warehouseFrom && n.warehouseTo == ms[id].warehouseTo
    ensures var s := UpdateStep(b, ms[id], patch);
            Consistent(base, s.balances, if s.outcome.Success? then ms[id := Merge(ms[id], patch)] else ms)
  {
    var n := Merge(ms[id], patch);
    var s := UpdateStep(b, ms[id], patch);
    forall k
      ensures Balance(s.balances, k) == Balance(base, k)
                + Posted(if s.outcome.Success? then ms[id := n] else ms, k)
    {
      if s.outcome.Success? {
        assert Balance(s.balances, k) == Balance(b, k) - Effect(ms[id], k) + Effect(n, k);
        PostedReplace(ms, id, n, k);
      }
    }
  }

  /** Creating a well-formed IN or OUT and then deleting it gives back every balance. */
  lemma CreateThenDeleteRestores(b: Balances, m: Movement, k: Key)
    requires WellShaped(m) && m.movementType != Transfer
    requires CreateStep(b, m).outcome.Success?
    ensures var s := DeleteStep(CreateStep(b, m).balances, m);
            s.outcome.Success? && Balance(s.balances, k) == Balance(b, k)
  {
  }
}
