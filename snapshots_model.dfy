/** `InventorySnapshot`: an audit record of one quantity at one location at
    one instant. A snapshot refers to exactly one product and one location;
    its quantity is a signed integer with no lower bound, and its timestamp
    is set once, when the record is created. */
module SnapshotModel {
  import opened Wrappers
  import opened Decimal
  import opened Locations

  datatype ProductRef = ProductRef(id: nat, name: string)

  /** A product as the snapshot endpoints read it. */
  datatype Product = Product(ref: ProductRef, quantityOnHand: int)

  datatype InventorySnapshot = InventorySnapshot(
    product: ProductRef,
    location: Location,
    quantity: int,
    timestamp: int,
    note: Option<string>)

  function Pair(s: InventorySnapshot): (nat, nat) {
    (s.product.id, s.location.id)
  }

  /** The `unique_together` constraint on (product, location, timestamp). */
  predicate UniquePerInstant(rows: seq<InventorySnapshot>) {
    forall i, j :: 0 <= i < j < |rows| ==>
      Pair(rows[i]) != Pair(rows[j]) || rows[i].timestamp != rows[j].timestamp
  }

  /** `__str__`: "<product name> at <location code>: <quantity>". */
  function Describe(s: InventorySnapshot): string {
    s.product.name + " at " + s.location.code + ": " + IntToString(s.quantity)
  }

  /** The text loses no quantity: two snapshots of the same product name and
      location code print alike only when their quantities agree. */
  lemma DescribeDeterminesQuantity(s: InventorySnapshot, t: InventorySnapshot)
    requires s.product.name == t.product.name && s.location.code == t.location.code
    requires Describe(s) == Describe(t)
    ensures s.quantity == t.quantity
  {
    var prefix := s.product.name + " at " + s.location.code + ": ";
    assert Describe(s) == prefix + IntToString(s.quantity);
    assert Describe(t) == prefix + IntToString(t.quantity);
    assert IntToString(s.quantity) == Describe(s)[|prefix|..];
    assert IntToString(t.quantity) == Describe(t)[|prefix|..];
    IntToStringInjective(s.quantity, t.quantity);
  }

  // ---------------------------------------------------------------------------
  // Orderings: the model's `-timestamp` and the `('product', 'location',
  // '-timestamp')` of the current-inventory query
  // ---------------------------------------------------------------------------

  datatype Ordering = NewestFirst | ByPairNewestFirst

  /** Sort keys compare lexicographically. */
  datatype SortKey = SortKey(first: int, second: int, third: int)

  predicate KeyLe(a: SortKey, b: SortKey) {
    a.first < b.first ||
    (a.first == b.first && (a.second < b.second || (a.second == b.second && a.third <= b.third)))
  }

  function KeyOf(s: InventorySnapshot, o: Ordering): SortKey {
    match o
    case NewestFirst => SortKey(-s.timestamp, 0, 0)
    case ByPairNewestFirst => SortKey(s.product.id, s.location.id, -s.timestamp)
  }

  predicate Sorted(rows: seq<InventorySnapshot>, o: Ordering) {
    forall i, j :: 0 <= i < j < |rows| ==> KeyLe(KeyOf(rows[i], o), KeyOf(rows[j], o))
  }

  function Insert(x: InventorySnapshot, rows: seq<InventorySnapshot>, o: Ordering): (r: seq<InventorySnapshot>)
    requires Sorted(rows, o)
    ensures multiset(r) == multiset(rows) + multiset{x}
    ensures Sorted(r, o)
    decreases |rows|
  {
    if rows == [] then [x]
    else if KeyLe(KeyOf(x, o), KeyOf(rows[0], o)) then [x] + rows
    else
      var rest := Insert(x, rows[1..], o);
      assert rows == [rows[0]] + rows[1..];
      FirstBelowInsert(x, rows, o, rest);
      [rows[0]] + rest
  }

  /** Inserting after the first row keeps that row first. */
  lemma FirstBelowInsert(x: InventorySnapshot, rows: seq<InventorySnapshot>, o: Ordering, rest: seq<InventorySnapshot>)
    requires rows != [] && Sorted(rows, o) && !KeyLe(KeyOf(x, o), KeyOf(rows[0], o))
    requires multiset(rest) == multiset(rows[1..]) + multiset{x}
    ensures forall j :: 0 <= j < |rest| ==> KeyLe(KeyOf(rows[0], o), KeyOf(rest[j], o))
  {
    forall j | 0 <= j < |rest| ensures KeyLe(KeyOf(rows[0], o), KeyOf(rest[j], o)) {
      var y := rest[j];
      assert y in multiset(rest);
      if y != x {
        assert y in multiset(rows[1..]);
        var k :| 0 <= k < |rows[1..]| && rows[1..][k] == y;
        assert rows[k + 1] == y;
      }
    }
  }

  /** The rows as the database returns them under ordering `o`: the same
      rows, in order. */
  function Sort(rows: seq<InventorySnapshot>, o: Ordering): (r: seq<InventorySnapshot>)
    ensures multiset(r) == multiset(rows)
    ensures Sorted(r, o)
    decreases |rows|
  {
    if rows == [] then []
    else
      assert rows == [rows[0]] + rows[1..];
      Insert(rows[0], Sort(rows[1..], o), o)
  }

  /** `Meta.ordering = ['-timestamp']`: listed snapshots come newest first. */
  lemma DefaultOrderIsNewestFirst(rows: seq<InventorySnapshot>)
    ensures var r := Sort(rows, NewestFirst);
      multiset(r) == multiset(rows) &&
      forall i, j :: 0 <= i < j < |r| ==> r[i].timestamp >= r[j].timestamp
  {
    var r := Sort(rows, NewestFirst);
    forall i, j | 0 <= i < j < |r| ensures r[i].timestamp >= r[j].timestamp {
      assert KeyLe(KeyOf(r[i], NewestFirst), KeyOf(r[j], NewestFirst));
    }
  }
}
