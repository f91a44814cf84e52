/** The snapshot endpoints: `capture_all`, which records one snapshot per
    product and active location, and `current_inventory`, which reports the
    newest snapshot of each (product, location) pair. Both only read products
    and locations; `capture_all` appends to the snapshot table and nothing
    else. */
module SnapshotViews {
  import opened Wrappers
  import opened Decimal
  import opened Locations
  import opened SnapshotModel

  const AutomatedNote: string := "Automated snapshot"

  // ---------------------------------------------------------------------------
  // capture_all
  // ---------------------------------------------------------------------------

  /** The snapshot built for one product at one location: it carries the
      product's GLOBAL quantity on hand, whatever the location holds. */
  function Capture(p: Product, loc: Location, now: int): InventorySnapshot {
    InventorySnapshot(p.ref, loc, p.quantityOnHand, now, Some(AutomatedNote))
  }

  /** The inner loop: one product at each location of `active`, in order. */
  function CaptureRow(p: Product, active: seq<Location>, now: int): seq<InventorySnapshot> {
    seq(|active|, j requires 0 <= j < |active| => Capture(p, active[j], now))
  }

  /** The outer loop: the rows of every product, in order. */
  function CaptureSpec(products: seq<Product>, active: seq<Location>, now: int): seq<InventorySnapshot>
    decreases |products|
  {
    if products == [] then []
    else CaptureSpec(products[..|products| - 1], active, now) + CaptureRow(products[|products| - 1], active, now)
  }

  /** The nested loops of `capture_all`, appending to a list. */
  method BuildCapture(products: seq<Product>, active: seq<Location>, now: int) returns (snapshots: seq<InventorySnapshot>)
    ensures snapshots == CaptureSpec(products, active, now)
  {
    snapshots := [];
    for i := 0 to |products|
      invariant snapshots == CaptureSpec(products[..i], active, now)
    {
      for j := 0 to |active|
        invariant snapshots == CaptureSpec(products[..i], active, now) + CaptureRow(products[i], active[..j], now)
      {
        assert CaptureRow(products[i], active[..j + 1], now) ==
               CaptureRow(products[i], active[..j], now) + [Capture(products[i], active[j], now)];
        snapshots := snapshots + [Capture(products[i], active[j], now)];
      }
      assert active[..|active|] == active;
      assert products[..i + 1][..i] == products[..i];
    }
    assert products[..|products|] == products;
  }

  /** Exactly |products| x |active| snapshots. */
  lemma {:induction false} CaptureCount(products: seq<Product>, active: seq<Location>, now: int)
    ensures |CaptureSpec(products, active, now)| == |products| * |active|
    decreases |products|
  {
    if products != [] {
      CaptureCount(products[..|products| - 1], active, now);
      assert |products| * |active| == (|products| - 1) * |active| + |active|;
    }
  }

  /** A snapshot is captured iff it is the capture of some product at some
      active location. */
  lemma {:induction false} CaptureMembership(products: seq<Product>, active: seq<Location>, now: int, s: InventorySnapshot)
    ensures s in CaptureSpec(products, active, now) <==>
      exists i, j :: 0 <= i < |products| && 0 <= j < |active| && s == Capture(products[i], active[j], now)
    decreases |products|
  {
    if products != [] {
      var n := |products| - 1;
      var init := products[..n];
      CaptureMembership(init, active, now, s);
      assert forall i :: 0 <= i < n ==> init[i] == products[i];
      if s in CaptureRow(products[n], active, now) {
        var j :| 0 <= j < |active| && CaptureRow(products[n], active, now)[j] == s;
        assert s == Capture(products[n], active[j], now);
      }
      if exists i, j :: 0 <= i < |products| && 0 <= j < |active| && s == Capture(products[i], active[j], now) {
        var i, j :| 0 <= i < |products| && 0 <= j < |active| && s == Capture(products[i], active[j], now);
        if i == n {
          assert CaptureRow(products[n], active, now)[j] == s;
        } else {
          assert s == Capture(init[i], active[j], now);
        }
      }
    }
  }

  /** What every captured snapshot says: its location is an active one of the
      list, its quantity is its product's global quantity on hand, its
      timestamp is the capture instant and its note the automated one. */
  lemma CapturedSnapshots(products: seq<Product>, locations: seq<Location>, now: int, s: InventorySnapshot)
    requires s in CaptureSpec(products, WithActive(locations, true), now)
    ensures s.location in locations && s.location.isActive
    ensures exists i :: 0 <= i < |products| && s.product == products[i].ref && s.quantity == products[i].quantityOnHand
    ensures s.timestamp == now && s.note == Some(AutomatedNote)
  {
    CaptureMembership(products, WithActive(locations, true), now, s);
    var i, j :| 0 <= i < |products| && 0 <= j < |WithActive(locations, true)| &&
                s == Capture(products[i], WithActive(locations, true)[j], now);
    assert WithActive(locations, true)[j] in WithActive(locations, true);
  }

  predicate DistinctProductIds(products: seq<Product>) {
    forall i, j :: 0 <= i < j < |products| ==> products[i].ref.id != products[j].ref.id
  }

  predicate DistinctLocationIds(locations: seq<Location>) {
    forall i, j :: 0 <= i < j < |locations| ==> locations[i].id != locations[j].id
  }

  /** A product's snapshots all carry the same quantity, at every location. */
  lemma CapturedQuantityIsGlobal(products: seq<Product>, active: seq<Location>, now: int, s: InventorySnapshot, t: InventorySnapshot)
    requires DistinctProductIds(products)
    requires s in CaptureSpec(products, active, now) && t in CaptureSpec(products, active, now)
    requires s.product.id == t.product.id
    ensures s.quantity == t.quantity
  {
    CaptureMembership(products, active, now, s);
    CaptureMembership(products, active, now, t);
    var i, j :| 0 <= i < |products| && 0 <= j < |active| && s == Capture(products[i], active[j], now);
    var i', j' :| 0 <= i' < |products| && 0 <= j' < |active| && t == Capture(products[i'], active[j'], now);
    assert products[i].ref.id == products[i'].ref.id;
  }

  lemma {:induction false} ActiveIdsDistinct(locations: seq<Location>)
    requires DistinctLocationIds(locations)
    ensures DistinctLocationIds(WithActive(locations, true))
    decreases |locations|
  {
    if locations != [] {
      var tail := locations[1..];
      assert DistinctLocationIds(tail) by {
        forall i, j | 0 <= i < j < |tail| ensures tail[i].id != tail[j].id {
          assert tail[i] == locations[i + 1] && tail[j] == locations[j + 1];
        }
      }
      ActiveIdsDistinct(tail);
      var rest := WithActive(tail, true);
      if locations[0].isActive {
        forall k | 0 <= k < |rest| ensures rest[k].id != locations[0].id {
          assert rest[k] in rest;
          var m :| 0 <= m < |tail| && tail[m] == rest[k];
          assert locations[m + 1] == rest[k];
        }
      }
    }
  }

  predicate DistinctPairs(rows: seq<InventorySnapshot>) {
    forall i, j :: 0 <= i < j < |rows| ==> Pair(rows[i]) != Pair(rows[j])
  }

  /** Within one capture no (product, location) pair repeats. */
  lemma {:induction false} CapturePairsDistinct(products: seq<Product>, active: seq<Location>, now: int)
    requires DistinctProductIds(products) && DistinctLocationIds(active)
    ensures DistinctPairs(CaptureSpec(products, active, now))
    decreases |products|
  {
    if products != [] {
      var n := |products| - 1;
      var init := products[..n];
      assert DistinctProductIds(init);
      CapturePairsDistinct(init, active, now);
      var a, b := CaptureSpec(init, active, now), CaptureRow(products[n], active, now);
      forall i, j | 0 <= i < j < |a + b| ensures Pair((a + b)[i]) != Pair((a + b)[j]) {
        if j >= |a| && i < |a| {
          CaptureMembership(init, active, now, a[i]);
          var i', j' :| 0 <= i' < |init| && 0 <= j' < |active| && a[i] == Capture(init[i'], active[j'], now);
          assert init[i'] == products[i'];
        }
      }
    }
  }

  /** A capture whose instant is later than every stored snapshot keeps the
      (product, location, timestamp) uniqueness of the table. */
  lemma CaptureKeepsUnique(old_rows: seq<InventorySnapshot>, products: seq<Product>, locations: seq<Location>, now: int)
    requires UniquePerInstant(old_rows)
    requires forall k :: 0 <= k < |old_rows| ==> old_rows[k].timestamp < now
    requires DistinctProductIds(products) && DistinctLocationIds(locations)
    ensures UniquePerInstant(old_rows + CaptureSpec(products, WithActive(locations, true), now))
  {
    var active := WithActive(locations, true);
    ActiveIdsDistinct(locations);
    CapturePairsDistinct(products, active, now);
    var batch := CaptureSpec(products, active, now);
    var all := old_rows + batch;
    forall i, j | 0 <= i < j < |all| ensures Pair(all[i]) != Pair(all[j]) || all[i].timestamp != all[j].timestamp {
      if j >= |old_rows| {
        CapturedSnapshots(products, locations, now, all[j]);
        if i >= |old_rows| {
          assert all[i] == batch[i - |old_rows|] && all[j] == batch[j - |old_rows|];
        }
      }
    }
  }

  /** The snapshot table, which only ever grows. */
  class SnapshotTable {
    var rows: seq<InventorySnapshot>

    constructor ()
      ensures rows == []
    {
      rows := [];
    }

    /** `capture_all`: the snapshots of every product at every active
        location, written in one bulk insert, and the count it reports. */
    method CaptureAll(products: seq<Product>, locations: seq<Location>, now: int) returns (count: nat, message: string)
      modifies this
      ensures rows == old(rows) + CaptureSpec(products, WithActive(locations, true), now)
      ensures count == |products| * |WithActive(locations, true)|
      ensures message == "Created " + NatToString(count) + " snapshots"
      ensures (UniquePerInstant(old(rows)) && (forall k :: 0 <= k < |old(rows)| ==> old(rows)[k].timestamp < now) &&
               DistinctProductIds(products) && DistinctLocationIds(locations)) ==> UniquePerInstant(rows)
    {
      var active := WithActive(locations, true);
      var snapshots := BuildCapture(products, active, now);
      if UniquePerInstant(rows) && (forall k :: 0 <= k < |rows| ==> rows[k].timestamp < now) &&
         DistinctProductIds(products) && DistinctLocationIds(locations) {
        CaptureKeepsUnique(rows, products, locations, now);
      }
      rows := rows + snapshots;
      CaptureCount(products, active, now);
      count := |snapshots|;
      message := "Created " + NatToString(count) + " snapshots";
    }
  }

  // ---------------------------------------------------------------------------
  // current_inventory
  // ---------------------------------------------------------------------------

  datatype LocationEntry = LocationEntry(locationName: string, quantity: int)

  datatype ProductEntry = ProductEntry(productName: string, locations: map<nat, LocationEntry>)

  /** The `Q` filters: a given location or product id must match; an absent
      one asks nothing. */
  predicate Passes(s: InventorySnapshot, locationId: Option<nat>, productId: Option<nat>) {
    (locationId.None? || s.location.id == locationId.value) &&
    (productId.None? || s.product.id == productId.value)
  }

  function FilterRows(rows: seq<InventorySnapshot>, locationId: Option<nat>, productId: Option<nat>): (r: seq<InventorySnapshot>)
    ensures forall s :: s in r <==> s in rows && Passes(s, locationId, productId)
    decreases |rows|
  {
    if rows == [] then []
    else
      (if Passes(rows[0], locationId, productId) then [rows[0]] else []) + FilterRows(rows[1..], locationId, productId)
  }

  function Entry(s: InventorySnapshot): LocationEntry {
    LocationEntry(s.location.name, s.quantity)
  }

  /** `e` is the entry of a newest snapshot of pair (p, l) that passes the filters. */
  predicate IsNewestFor(rows: seq<InventorySnapshot>, locationId: Option<nat>, productId: Option<nat>,
                        p: nat, l: nat, e: LocationEntry) {
    exists s :: s in rows && Passes(s, locationId, productId) && Pair(s) == (p, l) && e == Entry(s) &&
      forall t :: t in rows && Passes(t, locationId, productId) && Pair(t) == (p, l) ==> t.timestamp <= s.timestamp
  }

  /** The `seen` set after a prefix of the loop. */
  function SeenPairs(rows: seq<InventorySnapshot>): set<(nat, nat)>
    decreases |rows|
  {
    if rows == [] then {} else SeenPairs(rows[..|rows| - 1]) + {Pair(rows[|rows| - 1])}
  }

  /** The body of the loop for a pair not yet seen: the product's entry,
      created with its name if absent, gets the snapshot at its location. */
  function Record(inventory: map<nat, ProductEntry>, s: InventorySnapshot): map<nat, ProductEntry> {
    var e := if s.product.id in inventory then inventory[s.product.id] else ProductEntry(s.product.name, map[]);
    inventory[s.product.id := e.(locations := e.locations[s.location.id := Entry(s)])]
  }

  /** The `inventory` dict after a prefix of the loop: the first row of each
      pair is recorded, later rows of the pair are skipped. */
  function Collect(rows: seq<InventorySnapshot>): map<nat, ProductEntry>
    decreases |rows|
  {
    if rows == [] then map[]
    else
      var init, s := rows[..|rows| - 1], rows[|rows| - 1];
      if Pair(s) in SeenPairs(init) then Collect(init) else Record(Collect(init), s)
  }

  /** No earlier row of `ordered` has the pair of row `m`. */
  predicate FirstOfPair(ordered: seq<InventorySnapshot>, m: nat)
    requires m < |ordered|
  {
    forall k :: 0 <= k < m ==> Pair(ordered[k]) != Pair(ordered[m])
  }

  /** The `seen` set holds the pairs of the rows met so far. */
  lemma {:induction false} SeenPairsMembers(rows: seq<InventorySnapshot>)
    ensures forall k :: k in SeenPairs(rows) <==> exists s :: s in rows && Pair(s) == k
    decreases |rows|
  {
    if rows != [] {
      var init := rows[..|rows| - 1];
      SeenPairsMembers(init);
      assert rows == init + [rows[|rows| - 1]];
    }
  }

  /** The loop lists exactly the products of the rows it met. */
  lemma {:induction false} CollectKeys(rows: seq<InventorySnapshot>)
    ensures forall p :: p in Collect(rows) <==> exists s :: s in rows && s.product.id == p
    decreases |rows|
  {
    if rows != [] {
      var init, last := rows[..|rows| - 1], rows[|rows| - 1];
      CollectKeys(init);
      SeenPairsMembers(init);
      assert rows == init + [last];
      if Pair(last) in SeenPairs(init) {
        var t :| t in init && Pair(t) == Pair(last);
        assert t.product.id == last.product.id;
      }
    }
  }

  /** Each product is listed under the name of one of its rows. */
  lemma {:induction false} CollectNames(rows: seq<InventorySnapshot>)
    ensures forall p :: p in Collect(rows) ==>
      exists s :: s in rows && s.product == ProductRef(p, Collect(rows)[p].productName)
    decreases |rows|
  {
    if rows != [] {
      var init, last := rows[..|rows| - 1], rows[|rows| - 1];
      CollectNames(init);
      assert rows == init + [last];
      var before, after := Collect(init), Collect(rows);
      forall p | p in after ensures exists s :: s in rows && s.product == ProductRef(p, after[p].productName) {
        if p in before {
          assert after[p].productName == before[p].productName;
          var s :| s in init && s.product == ProductRef(p, before[p].productName);
          assert s in rows;
        } else {
          assert last.product == ProductRef(p, after[p].productName);
        }
      }
    }
  }

  /** A listed product's locations are exactly the pairs met for it. */
  lemma {:induction false} CollectLocations(rows: seq<InventorySnapshot>)
    ensures forall p, l :: p in Collect(rows) ==> (l in Collect(rows)[p].locations <==> (p, l) in SeenPairs(rows))
    decreases |rows|
  {
    if rows != [] {
      var init, last := rows[..|rows| - 1], rows[|rows| - 1];
      CollectLocations(init);
      CollectKeys(init);
      SeenPairsMembers(init);
      var before, after := Collect(init), Collect(rows);
      if Pair(last) !in SeenPairs(init) && last.product.id !in before {
        assert forall s :: s in init ==> s.product.id != last.product.id;
      }
    }
  }

  /** Each recorded entry is that of the first row of its pair. */
  lemma {:induction false} CollectFirst(rows: seq<InventorySnapshot>)
    ensures forall p, l :: p in Collect(rows) && l in Collect(rows)[p].locations ==>
      exists m :: 0 <= m < |rows| && FirstOfPair(rows, m) && Pair(rows[m]) == (p, l) &&
        Collect(rows)[p].locations[l] == Entry(rows[m])
    decreases |rows|
  {
    if rows != [] {
      var n := |rows| - 1;
      var init, last := rows[..n], rows[n];
      CollectFirst(init);
      SeenPairsMembers(init);
      var before, after := Collect(init), Collect(rows);
      forall p, l | p in after && l in after[p].locations
        ensures exists m :: (0 <= m < |rows| && FirstOfPair(rows, m) && Pair(rows[m]) == (p, l) &&
                             after[p].locations[l] == Entry(rows[m]))
      {
        if Pair(last) !in SeenPairs(init) && (p, l) == Pair(last) {
          forall k | 0 <= k < n ensures Pair(rows[k]) != Pair(last) {
            assert rows[k] == init[k] && init[k] in init;
          }
          assert FirstOfPair(rows, n);
        } else {
          assert p in before && l in before[p].locations && after[p].locations[l] == before[p].locations[l];
          var m :| 0 <= m < n && FirstOfPair(init, m) && Pair(init[m]) == (p, l) &&
                   before[p].locations[l] == Entry(init[m]);
          forall k | 0 <= k < m ensures Pair(rows[k]) != Pair(rows[m]) {
            assert rows[k] == init[k] && rows[m] == init[m];
          }
        }
      }
    }
  }

  /** In the query's order, the first row of a pair is its newest. */
  lemma FirstIsNewest(ordered: seq<InventorySnapshot>, m: nat)
    requires Sorted(ordered, ByPairNewestFirst) && m < |ordered| && FirstOfPair(ordered, m)
    ensures forall t :: t in ordered && Pair(t) == Pair(ordered[m]) ==> t.timestamp <= ordered[m].timestamp
  {
    forall t | t in ordered && Pair(t) == Pair(ordered[m]) ensures t.timestamp <= ordered[m].timestamp {
      var k :| 0 <= k < |ordered| && ordered[k] == t;
      if k > m {
        assert KeyLe(KeyOf(ordered[m], ByPairNewestFirst), KeyOf(ordered[k], ByPairNewestFirst));
      }
    }
  }

  /** The response of `current_inventory`: the filtered rows in the query's
      order, folded by the loop. */
  function CurrentInventorySpec(rows: seq<InventorySnapshot>, locationId: Option<nat>, productId: Option<nat>)
    : map<nat, ProductEntry>
  {
    Collect(Sort(FilterRows(rows, locationId, productId), ByPairNewestFirst))
  }

  /** What the response means: it lists exactly the products with a passing
      snapshot, under a name one of them carries, each at exactly the
      locations where it has a passing snapshot, with the location name and
      quantity of the newest one there. */
  lemma {:induction false} CurrentInventoryIsNewest(rows: seq<InventorySnapshot>, locationId: Option<nat>, productId: Option<nat>)
    ensures var inventory := CurrentInventorySpec(rows, locationId, productId);
      && (forall p :: p in inventory <==>
            exists s :: s in rows && Passes(s, locationId, productId) && s.product.id == p)
      && (forall p :: p in inventory ==>
            exists s :: s in rows && Passes(s, locationId, productId) && s.product == ProductRef(p, inventory[p].productName))
      && (forall p, l :: p in inventory ==>
            (l in inventory[p].locations <==> exists s :: s in rows && Passes(s, locationId, productId) && Pair(s) == (p, l)))
      && (forall p, l :: p in inventory && l in inventory[p].locations ==>
            IsNewestFor(rows, locationId, productId, p, l, inventory[p].locations[l]))
  {
    var ordered := Sort(FilterRows(rows, locationId, productId), ByPairNewestFirst);
    var inventory := Collect(ordered);
    assert forall s :: s in ordered <==> s in multiset(ordered);
    assert forall s :: s in ordered <==> s in rows && Passes(s, locationId, productId);
    CollectKeys(ordered);
    CollectNames(ordered);
    CollectLocations(ordered);
    SeenPairsMembers(ordered);
    CollectFirst(ordered);
    forall p | exists s :: s in rows && Passes(s, locationId, productId) && s.product.id == p
      ensures p in inventory
    {
      var s :| s in rows && Passes(s, locationId, productId) && s.product.id == p;
      assert s in ordered;
    }
    forall p, l | p in inventory && exists s :: s in rows && Passes(s, locationId, productId) && Pair(s) == (p, l)
      ensures l in inventory[p].locations
    {
      var s :| s in rows && Passes(s, locationId, productId) && Pair(s) == (p, l);
      assert s in ordered;
    }
    forall p, l | p in inventory && l in inventory[p].locations
      ensures IsNewestFor(rows, locationId, productId, p, l, inventory[p].locations[l])
    {
      var m :| 0 <= m < |ordered| && FirstOfPair(ordered, m) && Pair(ordered[m]) == (p, l) &&
               inventory[p].locations[l] == Entry(ordered[m]);
      FirstIsNewest(ordered, m);
      assert ordered[m] in ordered;
    }
  }

  /** `current_inventory`: the filtered snapshots, ordered by product,
      location and newest timestamp, then the loop over them. */
  method CurrentInventory(rows: seq<InventorySnapshot>, locationId: Option<nat>, productId: Option<nat>)
    returns (inventory: map<nat, ProductEntry>)
    ensures inventory == CurrentInventorySpec(rows, locationId, productId)
  {
    var ordered := Sort(FilterRows(rows, locationId, productId), ByPairNewestFirst);
    inventory := LatestPerPair(ordered);
  }

  /** The loop of `current_inventory`: the first row of each pair it has not
      seen is recorded under its product. */
  method LatestPerPair(ordered: seq<InventorySnapshot>) returns (inventory: map<nat, ProductEntry>)
    ensures inventory == Collect(ordered)
  {
    inventory := map[];
    var seen: set<(nat, nat)> := {};
    for i := 0 to |ordered|
      invariant seen == SeenPairs(ordered[..i])
      invariant inventory == Collect(ordered[..i])
    {
      var s := ordered[i];
      assert ordered[..i + 1][..i] == ordered[..i] && ordered[..i + 1][i] == s;
      var key := Pair(s);
      if key !in seen {
        ghost var before := inventory;
        seen := seen + {key};
        if s.product.id !in inventory {
          inventory := inventory[s.product.id := ProductEntry(s.product.name, map[])];
        }
        var e := inventory[s.product.id];
        inventory := inventory[s.product.id := e.(locations := e.locations[s.location.id := Entry(s)])];
        assert inventory == Record(before, s);
      }
    }
    assert ordered[..|ordered|] == ordered;
  }
}
