/** Movement records (project/inventory/models.py), the movement types (constants.py) and the
    request that updates a movement. Products, warehouses and movements are referred to by id. */
module Movements {

  type ProductId = nat
  type WarehouseId = nat
  type MovementId = nat

  datatype Option<T> = None | Some(value: T)

  /** IN receives stock, OUT issues stock, TRANSFER moves stock between two warehouses. */
  datatype MovementType = In | Out | Transfer

  /** A stored movement. Both warehouses are nullable in the schema; quantity is an unchecked integer. */
  datatype Movement = Movement(
    movementType: MovementType,
    warehouseFrom: Option<WarehouseId>,
    warehouseTo: Option<WarehouseId>,
    product: ProductId,
    quantity: int)

  /** The errors the ledger operations report; the HTTP status that carries them is not modelled.
      InvalidShape: a 400 about the warehouses required or forbidden for the type.
      InsufficientStock: a 400 "not enough stock".
      MissingRow: an inventory row the code reads without creating it does not exist.
      NotFound: the movement id does not exist.
      NullWarehouse: a row would be created with no warehouse, which the schema refuses. */
  datatype Error = InvalidShape | InsufficientStock | MissingRow | NotFound | NullWarehouse

  /** A warehouse field of an update request: left out of the request, or given (possibly as null). */
  datatype WarehouseField = Omitted | Given(warehouse: Option<WarehouseId>)

  /** The validated fields of an update request; a partial update leaves any of them out. */
  datatype Patch = Patch(
    movementType: Option<MovementType>,
    warehouseFrom: WarehouseField,
    warehouseTo: WarehouseField,
    product: Option<ProductId>,
    quantity: Option<int>)

  function OrElse<T>(o: Option<T>, default: T): T {
    if o.Some? then o.value else default
  }

  function FieldOrElse(f: WarehouseField, default: Option<WarehouseId>): Option<WarehouseId> {
    if f.Given? then f.warehouse else default
  }

  /** The movement an update stores: every field the request gives replaces the stored one, and
      every field it leaves out keeps its stored value. */
  function Merge(stored: Movement, patch: Patch): (m: Movement)
    ensures patch == Patch(None, Omitted, Omitted, None, None) ==> m == stored
    ensures m.movementType == if patch.movementType.Some? then patch.movementType.value else stored.movementType
    ensures m.product == if patch.product.Some? then patch.product.value else stored.product
    ensures m.quantity == if patch.quantity.Some? then patch.quantity.value else stored.quantity
    ensures m.warehouseTo == if patch.warehouseTo.Given? then patch.warehouseTo.warehouse else stored.warehouseTo
    ensures m.warehouseFrom == if patch.warehouseFrom.Given? then patch.warehouseFrom.warehouse else stored.warehouseFrom
  {
    Movement(
      OrElse(patch.movementType, stored.movementType),
      FieldOrElse(patch.warehouseFrom, stored.warehouseFrom),
      FieldOrElse(patch.warehouseTo, stored.warehouseTo),
      OrElse(patch.product, stored.product),
      OrElse(patch.quantity, stored.quantity))
  }

  /** The warehouse rules that create enforces: IN names only a destination, OUT only an origin,
      TRANSFER names both and they differ. */
  predicate WellShaped(m: Movement): (ok: bool)
    ensures ok ==> m.warehouseFrom.Some? || m.warehouseTo.Some?
    ensures ok && m.warehouseFrom.Some? && m.warehouseTo.Some? ==> m.warehouseFrom.value != m.warehouseTo.value
    ensures ok && m.movementType != Transfer ==> m.warehouseFrom.None? || m.warehouseTo.None?
  {
    match m.movementType
    case In => m.warehouseTo.Some? && m.warehouseFrom.None?
    case Out => m.warehouseFrom.Some? && m.warehouseTo.None?
    case Transfer => m.warehouseFrom.Some? && m.warehouseTo.Some? && m.warehouseFrom != m.warehouseTo
  }
}
