/** The database rows a stock move works on, and the model methods that
    change them in place: `Product.update_quantity`,
    `Product.get_inventory_level`, `StockMove.save`, `StockMove.execute_move`
    and the creation of `StockMoveLine` rows. Each method is proved against
    the value-level definitions of `StockMoveModel`. None of these methods is
    atomic: a failure leaves the writes made before it. */
module StockMoveStore {
  import opened Wrappers
  import opened StockMoveModel

  class Inventory {
    /** `Product.quantity_on_hand`, by product. */
    var onHand: map<ProductId, int>
    /** `InventoryLevel.quantity`, by (product, location). */
    var levels: map<(ProductId, LocationId), int>
    /** The `StockMove` rows with their lines; a move's primary key is its index. */
    var moves: seq<StockMove>

    function State(): Balances
      reads this
    {
      Balances(onHand, levels)
    }

    /** The invariant every committed operation keeps. */
    predicate Valid()
      reads this
    {
      NonNegative(State())
    }

    constructor (products: map<ProductId, int>)
      ensures onHand == products && levels == map[] && moves == []
      ensures (forall p :: p in products ==> products[p] >= 0) ==> Valid()
    {
      onHand := products;
      levels := map[];
      moves := [];
    }

    /** `Product.update_quantity(delta)`: refused, with nothing written, when
        the quantity would go negative. */
    method UpdateQuantity(p: ProductId, delta: int) returns (err: Option<string>)
      modifies this
      ensures moves == old(moves)
      ensures var r := UpdateQuantityResult(old(State()), p, delta);
        if r.Failure? then err == Some(r.error) && State() == old(State())
        else err.None? && State() == r.value
    {
      var current := if p in onHand then onHand[p] else 0;
      if current + delta < 0 {
        return Some(InsufficientStock);
      }
      onHand := onHand[p := current + delta];
      err := None;
    }

    /** `Product.get_inventory_level(loc)`: the row for the pair, created from
        the product's current quantity if it did not exist. */
    method GetInventoryLevel(p: ProductId, loc: LocationId) returns (quantity: int)
      modifies this
      ensures moves == old(moves)
      ensures (State(), quantity) == GetOrCreateLevel(old(State()), p, loc)
    {
      if (p, loc) !in levels {
        levels := levels[(p, loc) := if p in onHand then onHand[p] else 0];
      }
      quantity := levels[(p, loc)];
    }

    /** `StockMove.execute_move` on the stored move `id`: its lines in order;
        the first `ValueError` ends the loop and every write made before it
        stays. */
    method ExecuteMove(id: nat) returns (err: Option<string>)
      requires id < |moves| && RequiredLocationsPresent(moves[id].header)
      modifies this
      ensures moves == old(moves)
      ensures Step(State(), err) == ExecuteLines(old(State()), old(moves[id].header), old(moves[id].lines))
    {
      var h, lines := moves[id].header, moves[id].lines;
      var i := 0;
      while i < |lines|
        invariant 0 <= i <= |lines|
        invariant moves == old(moves)
        invariant ExecuteLines(old(State()), h, lines) == ExecuteLines(State(), h, lines[i..])
      {
        assert lines[i..][0] == lines[i] && lines[i..][1..] == lines[i + 1..];
        err := ExecuteLine(h, lines[i]);
        if err.Some? {
          return;
        }
        i := i + 1;
      }
      err := None;
    }

    /** The body of the loop in `execute_move`: one line, dispatched on the
        move type. */
    method ExecuteLine(h: Header, line: Line) returns (err: Option<string>)
      requires RequiredLocationsPresent(h)
      modifies this
      ensures moves == old(moves)
      ensures Step(State(), err) == ApplyLine(old(State()), h, line)
    {
      var p, q := line.product, line.quantity;
      err := None;
      if h.moveType == INBOUND {
        err := UpdateQuantity(p, q);
        if err.Some? {
          return;
        }
        var level := GetInventoryLevel(p, h.toLocation.value);
        levels := levels[(p, h.toLocation.value) := level + q];
      } else if h.moveType == OUTBOUND {
        err := UpdateQuantity(p, -(q as int));
        if err.Some? {
          return;
        }
        var level := GetInventoryLevel(p, h.fromLocation.value);
        if level < q {
          return Some(InsufficientAtLocation);
        }
        levels := levels[(p, h.fromLocation.value) := level - q];
      } else if h.moveType == TRANSFER {
        var source := GetInventoryLevel(p, h.fromLocation.value);
        var dest := GetInventoryLevel(p, h.toLocation.value);
        if source < q {
          return Some(InsufficientAtSource);
        }
        source, dest := source - q, dest + q;
        levels := levels[(p, h.fromLocation.value) := source];
        levels := levels[(p, h.toLocation.value) := dest];
      }
    }

    /** `StockMove.save` for an in-memory move with this header and flag:
        the header checks, then the row is written (appended when `id` is None,
        replaced keeping its lines otherwise), then, when `completed` is set,
        `execute_move` runs on the lines the stored move has. On an execution
        error the row and the partial writes stay. */
    method Save(h: Header, completed: bool, id: Option<nat>) returns (r: Result<nat, string>)
      requires id.Some? ==> id.value < |moves|
      modifies this
      ensures ValidateHeader(h).Some? ==>
        r == Failure(ValidateHeader(h).value) && State() == old(State()) && moves == old(moves)
      ensures ValidateHeader(h).None? ==>
        var key := if id.Some? then id.value else |old(moves)|;
        var lines := if id.Some? then old(moves)[key].lines else [];
        && (id.Some? ==> moves == old(moves)[key := StockMove(h, completed, lines)])
        && (id.None? ==> moves == old(moves) + [StockMove(h, completed, [])])
        && (!completed ==> State() == old(State()) && r == Success(key))
        && (completed ==>
              var s := ExecuteLines(old(State()), h, lines);
              State() == s.state && r == if s.error.Some? then Failure(s.error.value) else Success(key))
    {
      var err := ValidateHeader(h);
      if err.Some? {
        return Failure(err.value);
      }
      var key: nat;
      if id.Some? {
        key := id.value;
        moves := moves[key := StockMove(h, completed, moves[key].lines)];
      } else {
        key := |moves|;
        moves := moves + [StockMove(h, completed, [])];
      }
      r := Success(key);
      if completed {
        var e := ExecuteMove(key);
        if e.Some? {
          r := Failure(e.value);
        }
      }
    }

    /** `StockMoveLine.objects.create(stock_move=..., ...)`: one line appended
        to a stored move; no balance changes. */
    method AddLine(id: nat, line: Line)
      requires id < |moves|
      modifies this
      ensures State() == old(State())
      ensures moves == old(moves)[id := old(moves[id]).(lines := old(moves[id].lines) + [line])]
    {
      moves := moves[id := moves[id].(lines := moves[id].lines + [line])];
    }

    /** `instance.lines.all().delete()`: the stored move keeps no line. */
    method DeleteLines(id: nat)
      requires id < |moves|
      modifies this
      ensures State() == old(State())
      ensures moves == old(moves)[id := old(moves[id]).(lines := [])]
    {
      moves := moves[id := moves[id].(lines := [])];
    }

    /** Undo everything since a savepoint: how `transaction.atomic` leaves
        the rows when its block raises. */
    method Rollback(savedOnHand: map<ProductId, int>, savedLevels: map<(ProductId, LocationId), int>,
                    savedMoves: seq<StockMove>)
      modifies this
      ensures onHand == savedOnHand && levels == savedLevels && moves == savedMoves
    {
      onHand, levels, moves := savedOnHand, savedLevels, savedMoves;
    }
  }
}
