/** The data of a stock move and the meaning of executing it, as values.

    A move has a header (move type, optional source, optional destination),
    a `completed` flag and an ordered list of lines (product, quantity).
    Executing a move touches two kinds of balance: the global quantity on hand
    of each product and the level of each (product, location) pair. Both
    live in `Balances`; the database rows are modelled by the two maps.

    Two helpers of the product model are part of the semantics:
    `update_quantity(delta)` refuses with "Insufficient stock" when the
    product's quantity would go negative, and `get_inventory_level(loc)` is a
    get-or-create whose default for a pair never seen before is the product's
    CURRENT global quantity, read at the moment of the call. */
module StockMoveModel {
  import opened Wrappers

  type ProductId = nat
  type LocationId = nat

  const INBOUND: string := "INBOUND"
  const OUTBOUND: string := "OUTBOUND"
  const TRANSFER: string := "TRANSFER"

  /** `StockMove.MOVE_TYPES`: stored code and human-readable label. */
  const MoveTypeChoices: seq<(string, string)> :=
    [(INBOUND, "Inbound"), (OUTBOUND, "Outbound"), (TRANSFER, "Transfer")]

  const InboundNeedsDestination: string := "INBOUND moves require a to_location"
  const OutboundNeedsSource: string := "OUTBOUND moves require a from_location"
  const TransferNeedsBoth: string := "TRANSFER moves require both from_location and to_location"
  const InsufficientStock: string := "Insufficient stock"
  const InsufficientAtLocation: string := "Insufficient stock at location"
  const InsufficientAtSource: string := "Insufficient stock at source location"

  /** A `StockMoveLine`: a `PositiveIntegerField` quantity, so zero is allowed. */
  datatype Line = Line(product: ProductId, quantity: nat)

  /** The fields of `StockMove` that execution reads. `moveType` is free text:
      the choices are not enforced when a model instance is saved. */
  datatype Header = Header(moveType: string, fromLocation: Option<LocationId>, toLocation: Option<LocationId>)

  datatype StockMove = StockMove(header: Header, completed: bool, lines: seq<Line>)

  // ---------------------------------------------------------------------------
  // Header validation (`StockMove.save`)
  // ---------------------------------------------------------------------------

  predicate NeedsSource(moveType: string) {
    moveType == OUTBOUND || moveType == TRANSFER
  }

  predicate NeedsDestination(moveType: string) {
    moveType == INBOUND || moveType == TRANSFER
  }

  /** The locations a move type depends on are present; nothing else is asked. */
  predicate RequiredLocationsPresent(h: Header) {
    (NeedsSource(h.moveType) ==> h.fromLocation.Some?) &&
    (NeedsDestination(h.moveType) ==> h.toLocation.Some?)
  }

  /** The checks `save` makes before it writes the row, in the order it makes
      them; `Some(message)` is the `ValueError` it raises. */
  function ValidateHeader(h: Header): (err: Option<string>)
    ensures err.None? <==> RequiredLocationsPresent(h)
    ensures err == Some(InboundNeedsDestination) <==> h.moveType == INBOUND && h.toLocation.None?
    ensures err == Some(OutboundNeedsSource) <==> h.moveType == OUTBOUND && h.fromLocation.None?
    ensures err == Some(TransferNeedsBoth) <==>
              h.moveType == TRANSFER && (h.fromLocation.None? || h.toLocation.None?)
  {
    if h.moveType == INBOUND && h.toLocation.None? then Some(InboundNeedsDestination)
    else if h.moveType == OUTBOUND && h.fromLocation.None? then Some(OutboundNeedsSource)
    else if h.moveType == TRANSFER && (h.fromLocation.None? || h.toLocation.None?) then Some(TransferNeedsBoth)
    else None
  }

  /** Presence is all that is checked: extra locations pass, and a move type
      outside the three choices passes whatever its locations. */
  lemma ValidationIgnoresExtras(h: Header)
    ensures h.moveType == INBOUND && h.toLocation.Some? ==> ValidateHeader(h).None?
    ensures h.moveType == OUTBOUND && h.fromLocation.Some? ==> ValidateHeader(h).None?
    ensures h.moveType !in {INBOUND, OUTBOUND, TRANSFER} ==> ValidateHeader(h).None?
  {
  }

  // ---------------------------------------------------------------------------
  // Balances and the product helpers
  // ---------------------------------------------------------------------------

  datatype Balances = Balances(onHand: map<ProductId, int>, levels: map<(ProductId, LocationId), int>)

  /** A product's `quantity_on_hand`; the field defaults to 0. */
  function OnHand(b: Balances, p: ProductId): int {
    if p in b.onHand then b.onHand[p] else 0
  }

  /** What `get_inventory_level` reports for the pair at this moment: the
      stored row, or the product's current global quantity if there is none. */
  function Level(b: Balances, p: ProductId, loc: LocationId): int {
    if (p, loc) in b.levels then b.levels[(p, loc)] else OnHand(b, p)
  }

  /** Every stored balance is non-negative. */
  predicate NonNegative(b: Balances) {
    (forall p :: p in b.onHand ==> b.onHand[p] >= 0) &&
    (forall k :: k in b.levels ==> b.levels[k] >= 0)
  }

  /** `Product.update_quantity(delta)`. */
  function UpdateQuantityResult(b: Balances, p: ProductId, delta: int): (r: Result<Balances, string>)
    ensures r.Failure? <==> OnHand(b, p) + delta < 0
    ensures r.Failure? ==> r.error == InsufficientStock
    ensures r.Success? ==> OnHand(r.value, p) == OnHand(b, p) + delta
    ensures r.Success? ==> r.value.levels == b.levels
    ensures r.Success? ==> forall q :: q != p ==> OnHand(r.value, q) == OnHand(b, q)
  {
    if OnHand(b, p) + delta < 0 then Failure(InsufficientStock)
    else Success(b.(onHand := b.onHand[p := OnHand(b, p) + delta]))
  }

  /** `Product.get_inventory_level(loc)`: returns the level and the state in
      which the row for the pair now exists. */
  function GetOrCreateLevel(b: Balances, p: ProductId, loc: LocationId): (r: (Balances, int))
    ensures r.1 == Level(b, p, loc)
    ensures (p, loc) in r.0.levels && r.0.levels[(p, loc)] == r.1
    ensures r.0.onHand == b.onHand
    ensures forall k :: k in b.levels ==> k in r.0.levels && r.0.levels[k] == b.levels[k]
    ensures forall k :: k in r.0.levels ==> k in b.levels || k == (p, loc)
  {
    if (p, loc) in b.levels then (b, b.levels[(p, loc)])
    else (b.(levels := b.levels[(p, loc) := OnHand(b, p)]), OnHand(b, p))
  }

  /** A read made right after creating a level row sees the same level and
      global quantity as without the creation. */
  lemma GetOrCreateIsUnobservable(b: Balances, p: ProductId, loc: LocationId, q: ProductId, l: LocationId)
    ensures Level(GetOrCreateLevel(b, p, loc).0, q, l) == Level(b, q, l)
    ensures OnHand(GetOrCreateLevel(b, p, loc).0, q) == OnHand(b, q)
  {
  }

  /** Once the global quantity moves, a created row keeps the value it had
      when it was created, whereas a pair without a row reports the new
      global quantity. */
  lemma CreatedRowKeepsItsValue(b: Balances, p: ProductId, loc: LocationId, delta: int)
    requires (p, loc) !in b.levels && OnHand(b, p) + delta >= 0
    ensures Level(UpdateQuantityResult(GetOrCreateLevel(b, p, loc).0, p, delta).value, p, loc) == OnHand(b, p)
    ensures Level(UpdateQuantityResult(b, p, delta).value, p, loc) == OnHand(b, p) + delta
  {
  }

  /** `inventory_level.quantity = v; inventory_level.save()`. */
  function SetLevel(b: Balances, p: ProductId, loc: LocationId, v: int): Balances {
    b.(levels := b.levels[(p, loc) := v])
  }

  // ---------------------------------------------------------------------------
  // Execution (`StockMove.execute_move`)
  // ---------------------------------------------------------------------------

  /** The state after some writes, and the `ValueError` that stopped them, if any. */
  datatype Step = Step(state: Balances, error: Option<string>)

  /** One iteration of the loop in `execute_move`, for a header that `save`
      accepted. A failure keeps the writes made before it in the same line. */
  function ApplyLine(b: Balances, h: Header, l: Line): Step
    requires RequiredLocationsPresent(h)
  {
    var p, q := l.product, l.quantity;
    if h.moveType == INBOUND then
      match UpdateQuantityResult(b, p, q)
      case Failure(e) => Step(b, Some(e))
      case Success(b1) =>
        var (b2, level) := GetOrCreateLevel(b1, p, h.toLocation.value);
        Step(SetLevel(b2, p, h.toLocation.value, level + q), None)
    else if h.moveType == OUTBOUND then
      match UpdateQuantityResult(b, p, -(q as int))
      case Failure(e) => Step(b, Some(e))
      case Success(b1) =>
        var (b2, level) := GetOrCreateLevel(b1, p, h.fromLocation.value);
        if level < q then Step(b2, Some(InsufficientAtLocation))
        else Step(SetLevel(b2, p, h.fromLocation.value, level - q), None)
    else if h.moveType == TRANSFER then
      var (b1, source) := GetOrCreateLevel(b, p, h.fromLocation.value);
      var (b2, dest) := GetOrCreateLevel(b1, p, h.toLocation.value);
      if source < q then Step(b2, Some(InsufficientAtSource))
      else
        // both rows are saved, source first: with one location the second write wins
        Step(SetLevel(SetLevel(b2, p, h.fromLocation.value, source - q), p, h.toLocation.value, dest + q), None)
    else
      Step(b, None)
  }

  /** The whole loop: lines in order, stopping at the first failure with the
      writes made so far left in place. */
  function ExecuteLines(b: Balances, h: Header, lines: seq<Line>): Step
    requires RequiredLocationsPresent(h)
    decreases |lines|
  {
    if lines == [] then Step(b, None)
    else
      var s := ApplyLine(b, h, lines[0]);
      if s.error.Some? then s else ExecuteLines(s.state, h, lines[1..])
  }

  // ---------------------------------------------------------------------------
  // What one line does
  // ---------------------------------------------------------------------------

  /** INBOUND: the global quantity rises by q and so does the destination row.
      A pair seen for the first time is created from the global quantity
      AFTER the rise, so it ends at the old global quantity plus 2q. */
  lemma InboundLine(b: Balances, h: Header, l: Line)
    requires h.moveType == INBOUND && RequiredLocationsPresent(h)
    ensures var s := ApplyLine(b, h, l);
      var p, to := l.product, h.toLocation.value;
      && (s.error.Some? <==> OnHand(b, p) + l.quantity < 0)
      && (s.error.Some? ==> s == Step(b, Some(InsufficientStock)))
      && (s.error.None? ==>
            && OnHand(s.state, p) == OnHand(b, p) + l.quantity
            && ((p, to) in b.levels ==> Level(s.state, p, to) == Level(b, p, to) + l.quantity)
            && ((p, to) !in b.levels ==> Level(s.state, p, to) == OnHand(b, p) + 2 * l.quantity))
  {
  }

  /** OUTBOUND: the global quantity is lowered first (refused if it would go
      negative); then the source row is read, created from the lowered global
      quantity if new, and the line fails if it holds less than q. That
      failure keeps the global write. On success both balances end >= 0. */
  lemma OutboundLine(b: Balances, h: Header, l: Line)
    requires h.moveType == OUTBOUND && RequiredLocationsPresent(h)
    ensures var s := ApplyLine(b, h, l);
      var p, from, q := l.product, h.fromLocation.value, l.quantity;
      var levelRead := if (p, from) in b.levels then b.levels[(p, from)] else OnHand(b, p) - q;
      && (s.error == Some(InsufficientStock) <==> OnHand(b, p) < q)
      && (s.error == Some(InsufficientAtLocation) <==> OnHand(b, p) >= q && levelRead < q)
      && (s.error.Some? ==> s.error == Some(InsufficientStock) || s.error == Some(InsufficientAtLocation))
      && (s.error == Some(InsufficientAtLocation) ==> OnHand(s.state, p) == OnHand(b, p) - q)
      && (s.error.None? ==>
            && OnHand(s.state, p) == OnHand(b, p) - q >= 0
            && Level(s.state, p, from) == levelRead - q >= 0)
  {
  }

  /** TRANSFER between two locations: the global quantity is untouched, the
      line fails exactly when the source holds less than q, and on success
      q leaves the source and reaches the destination, so their sum is kept. */
  lemma TransferLine(b: Balances, h: Header, l: Line)
    requires h.moveType == TRANSFER && RequiredLocationsPresent(h)
    requires h.fromLocation != h.toLocation
    ensures var s := ApplyLine(b, h, l);
      var p, from, to, q := l.product, h.fromLocation.value, h.toLocation.value, l.quantity;
      && s.state.onHand == b.onHand
      && (s.error.Some? <==> Level(b, p, from) < q)
      && (s.error.Some? ==> s.error == Some(InsufficientAtSource))
      && (s.error.None? ==>
            && Level(s.state, p, from) == Level(b, p, from) - q
            && Level(s.state, p, to) == Level(b, p, to) + q
            && Level(s.state, p, from) + Level(s.state, p, to) == Level(b, p, from) + Level(b, p, to))
      && (forall p': ProductId, l': LocationId :: (p', l') != (p, from) && (p', l') != (p, to) ==>
            Level(s.state, p', l') == Level(b, p', l'))
  {
  }

  /** TRANSFER to the location it comes from: both reads see the same row,
      the destination is saved last and wins, so the level ends q HIGHER. */
  lemma TransferToSameLocation(b: Balances, h: Header, l: Line)
    requires h.moveType == TRANSFER && RequiredLocationsPresent(h)
    requires h.fromLocation == h.toLocation
    ensures var s := ApplyLine(b, h, l);
      var p, loc, q := l.product, h.fromLocation.value, l.quantity;
      && s.state.onHand == b.onHand
      && (s.error.Some? <==> Level(b, p, loc) < q)
      && (s.error.None? ==> Level(s.state, p, loc) == Level(b, p, loc) + q)
  {
  }

  /** A move type outside the three choices has no effect, line by line and
      for the whole move. */
  lemma {:induction false} UnknownTypeIsNoOp(b: Balances, h: Header, lines: seq<Line>)
    requires h.moveType !in {INBOUND, OUTBOUND, TRANSFER}
    ensures ExecuteLines(b, h, lines) == Step(b, None)
    decreases |lines|
  {
    if lines != [] {
      UnknownTypeIsNoOp(b, h, lines[1..]);
    }
  }

  // ---------------------------------------------------------------------------
  // What the whole loop does
  // ---------------------------------------------------------------------------

  /** Running the lines of `first + rest` is running `first`, then, if it did
      not fail, `rest` from where it left off: an error in `rest` leaves every
      write of `first` in place. */
  lemma {:induction false} ExecuteLinesAppend(b: Balances, h: Header, first: seq<Line>, rest: seq<Line>)
    requires RequiredLocationsPresent(h)
    ensures var s := ExecuteLines(b, h, first);
      ExecuteLines(b, h, first + rest) ==
        if s.error.Some? then s else ExecuteLines(s.state, h, rest)
    decreases |first|
  {
    if first == [] {
      assert first + rest == rest;
    } else {
      assert (first + rest)[0] == first[0];
      assert (first + rest)[1..] == first[1..] + rest;
      var s := ApplyLine(b, h, first[0]);
      if s.error.None? {
        ExecuteLinesAppend(s.state, h, first[1..], rest);
      }
    }
  }

  /** A single line keeps every balance non-negative, whether it succeeds or
      stops halfway. */
  lemma ApplyLinePreservesNonNegative(b: Balances, h: Header, l: Line)
    requires RequiredLocationsPresent(h) && NonNegative(b)
    ensures NonNegative(ApplyLine(b, h, l).state)
  {
    var p := l.product;
    assert OnHand(b, p) >= 0;
    forall loc: LocationId ensures Level(b, p, loc) >= 0 {
      if (p, loc) in b.levels { assert b.levels[(p, loc)] >= 0; }
    }
    if h.moveType == INBOUND || h.moveType == OUTBOUND {
      var delta := if h.moveType == INBOUND then l.quantity as int else -(l.quantity as int);
      var r := UpdateQuantityResult(b, p, delta);
      if r.Success? {
        var b1 := r.value;
        assert NonNegative(b1);
        var loc := if h.moveType == INBOUND then h.toLocation.value else h.fromLocation.value;
        if (p, loc) in b1.levels { assert b1.levels[(p, loc)] >= 0; }
        assert Level(b1, p, loc) >= 0;
      }
    }
  }

  /** Execution never drives a stored balance below zero, however far it gets. */
  lemma {:induction false} ExecuteLinesPreservesNonNegative(b: Balances, h: Header, lines: seq<Line>)
    requires RequiredLocationsPresent(h) && NonNegative(b)
    ensures NonNegative(ExecuteLines(b, h, lines).state)
    decreases |lines|
  {
    if lines != [] {
      ApplyLinePreservesNonNegative(b, h, lines[0]);
      var s := ApplyLine(b, h, lines[0]);
      if s.error.None? {
        ExecuteLinesPreservesNonNegative(s.state, h, lines[1..]);
      }
    }
  }

  /** A TRANSFER, between any two locations, never changes any product's
      global quantity, however many lines it has and wherever it stops. */
  lemma {:induction false} TransferKeepsGlobalQuantities(b: Balances, h: Header, lines: seq<Line>)
    requires h.moveType == TRANSFER && RequiredLocationsPresent(h)
    ensures ExecuteLines(b, h, lines).state.onHand == b.onHand
    decreases |lines|
  {
    if lines != [] {
      var s := ApplyLine(b, h, lines[0]);
      assert s.state.onHand == b.onHand;
      if s.error.None? {
        TransferKeepsGlobalQuantities(s.state, h, lines[1..]);
      }
    }
  }
}
