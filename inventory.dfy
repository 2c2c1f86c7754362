/** The table of Inventory rows (project/inventory/models.py): at most one integer quantity per
    (product, warehouse) pair. A pair without a row holds no stock. */
module Inventory {
  import opened Movements
  import opened Sums

  type Key = (ProductId, WarehouseId)
  type Balances = map<Key, int>

  /** The quantity held at k; 0 when there is no row. */
  function Balance(b: Balances, k: Key): int {
    if k in b then b[k] else 0
  }

  /** The get-or-create of a row: an existing row is kept, a missing one is created with quantity 0. */
  function Touch(b: Balances, k: Key): (r: Balances)
    ensures k in r && r[k] == Balance(b, k)
    ensures r.Keys == b.Keys + {k}
    ensures forall j :: j in b ==> r[j] == b[j]
  {
    if k in b then b else b[k := 0]
  }

  /** The rows of product p at the warehouses that are present among from and to. */
  function Rows(p: ProductId, from: Option<WarehouseId>, to: Option<WarehouseId>): set<Key> {
    (if from.Some? then {(p, from.value)} else {}) + (if to.Some? then {(p, to.value)} else {})
  }

  /** No row of b holds a negative quantity. */
  ghost predicate Nonnegative(b: Balances) {
    forall k :: k in b ==> b[k] >= 0
  }

  /** Only the rows in keys may differ between b and b', and no row disappears. */
  ghost predicate OnlyRowsChanged(b: Balances, b': Balances, keys: set<Key>) {
    b.Keys <= b'.Keys && b' - keys == b - keys
  }

  /** The total quantity of product p across all warehouses. */
  ghost function Stock(b: Balances, p: ProductId): int {
    Sum(b.Keys, (k: Key) => if k.0 == p then Balance(b, k) else 0)
  }

  /** Creating an empty row does not change any product's total. */
  lemma TouchKeepsStock(b: Balances, k: Key, p: ProductId)
    ensures Stock(Touch(b, k), p) == Stock(b, p)
  {
    var b' := Touch(b, k);
    var f := (j: Key) => if j.0 == p then Balance(b, j) else 0;
    var g := (j: Key) => if j.0 == p then Balance(b', j) else 0;
    SumAgree(b'.Keys, g, f);
    if k !in b {
      SumAddZero(b.Keys, f, k);
    }
  }

  /** Writing v into the existing row k changes the total of k's product by v - b[k] and leaves
      the totals of all other products alone. */
  lemma WriteChangesStock(b: Balances, k: Key, v: int, p: ProductId)
    requires k in b
    ensures Stock(b[k := v], p) == Stock(b, p) + (if k.0 == p then v - b[k] else 0)
  {
    var b' := b[k := v];
    assert b'.Keys == b.Keys;
    var f := (j: Key) => if j.0 == p then Balance(b, j) else 0;
    var g := (j: Key) => if j.0 == p then Balance(b', j) else 0;
    SumChangeAt(b.Keys, f, g, k);
  }
}
