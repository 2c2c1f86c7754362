/** MovementViewSet (project/inventory/viewsets.py:60-275) as an object that owns the inventory
    table and the stored movements. Each request runs as one sequential step; the rows are read
    into locals, changed there and written back, as the code does with its Inventory objects. */
module Ledger {
  import opened Movements
  import opened Inventory
  import opened Steps

  datatype Result<T> = Ok(value: T) | Err(error: Error)

  class MovementLedger {
    var balances: Balances
    var movements: map<MovementId, Movement>
    /** The id the database will give the next movement it stores. */
    var nextId: MovementId

    ghost predicate Valid()
      reads this
    {
      forall id :: id in movements ==> id < nextId
    }

    constructor ()
      ensures Valid() && balances == map[] && movements == map[]
    {
      balances, movements, nextId := map[], map[], 0;
    }

    /** Inventory.objects.get, or create with quantity 0 when the row does not exist. */
    method GetOrCreate(p: ProductId, w: WarehouseId) returns (quantity: int)
      modifies this
      ensures balances == Touch(old(balances), (p, w)) && quantity == Balance(old(balances), (p, w))
      ensures movements == old(movements) && nextId == old(nextId)
    {
      if (p, w) !in balances {
        balances := balances[(p, w) := 0];
      }
      quantity := balances[(p, w)];
    }

    /** Stores m under a new id after the ledger effect has been applied. */
    method Store(m: Movement) returns (id: MovementId)
      requires Valid()
      modifies this
      ensures Valid() && id == old(nextId) && id !in old(movements) && nextId == old(nextId) + 1
      ensures movements == old(movements)[id := m] && balances == old(balances)
    {
      id := nextId;
      movements := movements[id := m];
      nextId := nextId + 1;
    }

    /** MovementViewSet.create. */
    method Create(m: Movement) returns (r: Result<MovementId>)
      requires Valid()
      modifies this
      ensures Valid()
      ensures balances == CreateStep(old(balances), m).balances
      ensures r.Ok? <==> CreateStep(old(balances), m).outcome.Success?
      ensures r.Err? ==> CreateStep(old(balances), m).outcome == Failure(r.error) && movements == old(movements)
      ensures r.Ok? ==> r.value == old(nextId) && r.value !in old(movements)
                        && movements == old(movements)[r.value := m]
      ensures nextId == if r.Ok? then old(nextId) + 1 else old(nextId)
    {
      var p, quantity := m.product, m.quantity;
      match m.movementType {
        case In =>
          if m.warehouseTo.None? { return Err(InvalidShape); }
          if m.warehouseFrom.Some? { return Err(InvalidShape); }
          var to := m.warehouseTo.value;
          var toQuantity := GetOrCreate(p, to);
          toQuantity := toQuantity + quantity;
          balances := balances[(p, to) := toQuantity];
        case Out =>
          if m.warehouseFrom.None? { return Err(InvalidShape); }
          if m.warehouseTo.Some? { return Err(InvalidShape); }
          var from := m.warehouseFrom.value;
          var fromQuantity := GetOrCreate(p, from);
          if fromQuantity < quantity { return Err(InsufficientStock); }
          fromQuantity := fromQuantity - quantity;
          balances := balances[(p, from) := fromQuantity];
        case Transfer =>
          if m.warehouseFrom.None? || m.warehouseTo.None? { return Err(InvalidShape); }
          if m.warehouseFrom == m.warehouseTo { return Err(InvalidShape); }
          var from, to := m.warehouseFrom.value, m.warehouseTo.value;
          var fromQuantity := GetOrCreate(p, from);
          if fromQuantity < quantity { return Err(InsufficientStock); }
          var toQuantity := GetOrCreate(p, to);
          fromQuantity, toQuantity := fromQuantity - quantity, toQuantity + quantity;
          balances := balances[(p, from) := fromQuantity];
          balances := balances[(p, to) := toQuantity];
      }
      var id := Store(m);
      r := Ok(id);
    }

    /** MovementViewSet.update (PUT or PATCH) of the movement with the given id. */
    method Update(id: MovementId, patch: Patch) returns (r: Outcome)
      requires Valid()
      modifies this
      ensures Valid() && nextId == old(nextId)
      ensures id !in old(movements) ==>
                r == Failure(NotFound) && balances == old(balances) && movements == old(movements)
      ensures id in old(movements) ==>
                var s := UpdateStep(old(balances), old(movements)[id], patch);
                balances == s.balances && r == s.outcome
                && movements == if r.Success? then old(movements)[id := Merge(old(movements)[id], patch)]
                                else old(movements)
    {
      if id !in movements { return Failure(NotFound); }
      var stored := movements[id];
      var n := Merge(stored, patch);
      var p, quantity := n.product, n.quantity;
      match n.movementType {
        case In =>
          if n.warehouseFrom.Some? { return Failure(InvalidShape); }
          var to := n.warehouseTo;
          if to.None? { to := stored.warehouseTo; }
          if to.None? { return Failure(NullWarehouse); }
          var toQuantity := GetOrCreate(p, to.value);
          toQuantity := toQuantity + (quantity - stored.quantity);
          balances := balances[(p, to.value) := toQuantity];
        case Out =>
          if n.warehouseTo.Some? { return Failure(InvalidShape); }
          var from := n.warehouseFrom;
          if from.None? { from := stored.warehouseFrom; }
          if from.None? { return Failure(NullWarehouse); }
          var fromQuantity := GetOrCreate(p, from.value);
          if fromQuantity < quantity - stored.quantity { return Failure(InsufficientStock); }
          fromQuantity := fromQuantity - (quantity - stored.quantity);
          balances := balances[(p, from.value) := fromQuantity];
        case Transfer =>
          if n.warehouseFrom.None? || n.warehouseTo.None? { return Failure(InvalidShape); }
          var from, to := n.warehouseFrom.value, n.warehouseTo.value;
          if (p, from) !in balances { return Failure(MissingRow); }
          var fromQuantity := balances[(p, from)];
          var toQuantity := GetOrCreate(p, to);
          if fromQuantity < quantity { return Failure(InsufficientStock); }
          fromQuantity := fromQuantity - quantity;
          balances := balances[(p, from) := fromQuantity];
          toQuantity := toQuantity + quantity;
          balances := balances[(p, to) := toQuantity];
      }
      movements := movements[id := n];
      r := Success;
    }

    /** MovementViewSet.perform_destroy of the movement with the given id. */
    method Delete(id: MovementId) returns (r: Outcome)
      requires Valid()
      modifies this
      ensures Valid() && nextId == old(nextId)
      ensures id !in old(movements) ==>
                r == Failure(NotFound) && balances == old(balances) && movements == old(movements)
      ensures id in old(movements) ==>
                var s := DeleteStep(old(balances), old(movements)[id]);
                balances == s.balances && r == s.outcome
                && movements == if r.Success? then old(movements) - {id} else old(movements)
    {
      if id !in movements { return Failure(NotFound); }
      var m := movements[id];
      var p := m.product;
      var w := if m.warehouseTo.Some? then m.warehouseTo else m.warehouseFrom;
      if w.None? || (p, w.value) !in balances { return Failure(MissingRow); }
      var quantity := balances[(p, w.value)];
      match m.movementType {
        case In =>
          quantity := quantity - m.quantity;
        case Out =>
          quantity := quantity + m.quantity;
        case Transfer =>
          quantity := quantity + m.quantity;
          if m.warehouseTo.None? || (p, m.warehouseTo.value) !in balances { return Failure(MissingRow); }
          var toQuantity := balances[(p, m.warehouseTo.value)];
          // The decremented copy of the destination row is dropped here, never written back.
          toQuantity := toQuantity - m.quantity;
      }
      balances := balances[(p, w.value) := quantity];
      movements := movements - {id};
      r := Success;
    }
  }
}
