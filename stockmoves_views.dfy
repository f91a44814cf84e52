/** The stock-move endpoints: `create`, `update`, `complete` and
    `by_product`. Each state-changing endpoint runs its writes in one atomic
    block: when a `ValueError` escapes the block, every row is back as it was
    before the call, and the error becomes either an
    `InsufficientStockException` (when its text mentions insufficient stock)
    or a 400 response carrying the message. */
module StockMoveViews {
  import opened Wrappers
  import opened StockMoveModel
  import opened StockMoveStore
  import opened StockMoveSerializer

  const CannotUpdateCompleted: string := "Cannot update a completed stock move"
  const AlreadyCompleted: string := "Move is already completed"
  const ProductIdRequired: string := "product_id parameter is required"

  datatype Response =
    | Created(id: nat)              // 201 with the stored move
    | Ok                            // 200
    | BadRequest(message: string)   // 400 with {'error': message}
    | Invalid(error: FieldError)    // 400 raised by `is_valid(raise_exception=True)`
    | InsufficientStockRaised       // InsufficientStockException propagates
    | NotFound                      // `get_object` found no move with that key
    | Moves(ids: seq<nat>)          // 200 with these moves, in this order

  // ---------------------------------------------------------------------------
  // Error mapping
  // ---------------------------------------------------------------------------

  predicate StartsWith(s: string, prefix: string) {
    |prefix| <= |s| && s[..|prefix|] == prefix
  }

  /** Python's `sub in s` on strings. */
  predicate Contains(s: string, sub: string)
    decreases |s|
  {
    StartsWith(s, sub) || (|s| > 0 && Contains(s[1..], sub))
  }

  /** The `except ValueError as e` clauses of the three endpoints. */
  function ErrorResponse(message: string): Response {
    if Contains(message, InsufficientStock) then InsufficientStockRaised else BadRequest(message)
  }

  /** The stock errors of execution are raised as `InsufficientStockException`;
      a missing location is a 400 that carries the validation message. */
  lemma StockErrorsRaised()
    ensures ErrorResponse(InsufficientStock) == InsufficientStockRaised
    ensures ErrorResponse(InsufficientAtLocation) == InsufficientStockRaised
    ensures ErrorResponse(InsufficientAtSource) == InsufficientStockRaised
  {
    assert InsufficientAtLocation[..18] == InsufficientStock;
    assert InsufficientAtSource[..18] == InsufficientStock;
  }

  /** A header refused by `save` yields a 400 that carries the validation
      message: none of the three messages has a 'k', the last letter of
      "stock". */
  lemma ValidationErrorIsBadRequest(h: Header)
    requires ValidateHeader(h).Some?
    ensures ErrorResponse(ValidateHeader(h).value) == BadRequest(ValidateHeader(h).value)
  {
    ValidationMessagesLackK();
    NoKIsBadRequest(ValidateHeader(h).value);
  }

  lemma ValidationMessagesLackK()
    ensures 'k' !in InboundNeedsDestination
    ensures 'k' !in OutboundNeedsSource
    ensures 'k' !in TransferNeedsBoth
  {
    TransferMessageLacksK();
  }

  lemma TransferMessageLacksK()
    ensures 'k' !in TransferNeedsBoth
  {
    var a, b, c, d := "TRANSFER moves ", "require both ", "from_location ", "and to_location";
    assert TransferNeedsBoth == a + b + c + d;
    assert 'k' !in a;
    assert 'k' !in b;
    assert 'k' !in c;
    assert 'k' !in d;
  }

  lemma NoKIsBadRequest(message: string)
    requires 'k' !in message
    ensures ErrorResponse(message) == BadRequest(message)
  {
    assert InsufficientStock[17] == 'k';
    MissingCharNotContained(message, InsufficientStock, 17);
  }

  /** A text lacking one of the characters of `sub` does not contain `sub`. */
  lemma {:induction false} MissingCharNotContained(s: string, sub: string, i: nat)
    requires i < |sub| && sub[i] !in s
    ensures !Contains(s, sub)
    decreases |s|
  {
    if |sub| <= |s| {
      assert s[..|sub|][i] == s[i] && s[i] in s;
    }
    if |s| > 0 {
      assert forall c :: c in s[1..] ==> c in s;
      MissingCharNotContained(s[1..], sub, i);
    }
  }

  // ---------------------------------------------------------------------------
  // create
  // ---------------------------------------------------------------------------

  /** `StockMoveViewSet.create` on the header fields of a request body: a
      body the serializer refuses (one without `move_type` included) is a
      400 before any write. Otherwise the move is stored as completed (its own save
      executes it while it has no line yet), its lines are added, and
      `execute_move` applies each line once. On any error nothing stays. */
  method Create(inv: Inventory, data: HeaderPatch, lines: seq<Line>) returns (resp: Response)
    modifies inv
    ensures Validate(data, false).Some? ==>
      && resp == Invalid(Validate(data, false).value)
      && inv.State() == old(inv.State()) && inv.moves == old(inv.moves)
    ensures Validate(data, false).None? ==>
      var h := HeaderOf(data);
      var s := ExecuteLines(old(inv.State()), h, lines);
      if s.error.None? then
        && resp == Created(|old(inv.moves)|)
        && inv.moves == old(inv.moves) + [StockMove(h, true, lines)]
        && inv.State() == s.state
      else
        && resp == ErrorResponse(s.error.value)
        && inv.State() == old(inv.State()) && inv.moves == old(inv.moves)
    ensures old(inv.Valid()) ==> inv.Valid()
  {
    var invalid := Validate(data, false);
    if invalid.Some? {
      return Invalid(invalid.value);
    }
    var h := HeaderOf(data);
    CreateBodyCheck(data);
    var savedOnHand, savedLevels, savedMoves := inv.onHand, inv.levels, inv.moves;
    // the serializer has made `save`'s check already, so this save stores the row
    var r := inv.Save(h, true, None);
    var id := r.value;
    var i := 0;
    while i < |lines|
      invariant 0 <= i <= |lines|
      invariant inv.State() == old(inv.State())
      invariant inv.moves == savedMoves + [StockMove(h, true, lines[..i])]
    {
      inv.AddLine(id, lines[i]);
      assert lines[..i + 1] == lines[..i] + [lines[i]];
      i := i + 1;
    }
    assert lines[..i] == lines;
    var e := inv.ExecuteMove(id);
    if e.Some? {
      inv.Rollback(savedOnHand, savedLevels, savedMoves);
      return ErrorResponse(e.value);
    }
    if old(inv.Valid()) {
      ExecuteLinesPreservesNonNegative(old(inv.State()), h, lines);
    }
    resp := Created(id);
  }

  // ---------------------------------------------------------------------------
  // update
  // ---------------------------------------------------------------------------

  /** `StockMoveViewSet.update` (`partial` for a PATCH): a completed move is
      refused; then a body the serializer refuses is a 400 with nothing
      written; otherwise a draft gets the patched header and, when lines are
      given, exactly those lines. The move stays a draft (`completed` is not
      a field the update accepts), so no balance ever changes. */
  method Update(inv: Inventory, id: nat, patch: HeaderPatch, partial: bool, newLines: Option<seq<Line>>)
    returns (resp: Response)
    modifies inv
    ensures inv.State() == old(inv.State())
    ensures id >= |old(inv.moves)| ==> resp == NotFound && inv.moves == old(inv.moves)
    ensures id < |old(inv.moves)| && old(inv.moves[id].completed) ==>
      resp == BadRequest(CannotUpdateCompleted) && inv.moves == old(inv.moves)
    ensures id < |old(inv.moves)| && !old(inv.moves[id].completed) ==>
      var h := Patched(old(inv.moves[id].header), patch);
      if Validate(patch, partial).Some? then
        resp == Invalid(Validate(patch, partial).value) && inv.moves == old(inv.moves)
      else if ValidateHeader(h).Some? then
        resp == ErrorResponse(ValidateHeader(h).value) && inv.moves == old(inv.moves)
      else
        && resp == Ok
        && inv.moves == old(inv.moves)[id := StockMove(h, false,
                          if newLines.Some? then newLines.value else old(inv.moves[id].lines))]
  {
    if id >= |inv.moves| {
      return NotFound;
    }
    if inv.moves[id].completed {
      return BadRequest(CannotUpdateCompleted);
    }
    var invalid := Validate(patch, partial);
    if invalid.Some? {
      return Invalid(invalid.value);
    }
    var savedOnHand, savedLevels, savedMoves := inv.onHand, inv.levels, inv.moves;
    var h := Patched(inv.moves[id].header, patch);
    var r := inv.Save(h, false, Some(id));
    if r.Failure? {
      inv.Rollback(savedOnHand, savedLevels, savedMoves);
      return ErrorResponse(r.error);
    }
    if newLines.Some? {
      var lines := newLines.value;
      inv.DeleteLines(id);
      var i := 0;
      while i < |lines|
        invariant 0 <= i <= |lines|
        invariant inv.State() == old(inv.State())
        invariant inv.moves == savedMoves[id := StockMove(h, false, lines[..i])]
      {
        inv.AddLine(id, lines[i]);
        assert lines[..i + 1] == lines[..i] + [lines[i]];
        i := i + 1;
      }
      assert lines[..i] == lines;
    }
    // the view's second `execute_move` runs only for a completed instance,
    // and this one is a draft that the update cannot complete
    resp := Ok;
  }

  // ---------------------------------------------------------------------------
  // complete
  // ---------------------------------------------------------------------------

  /** The `complete` action: an already completed move is refused and nothing
      is re-applied; a draft is marked completed and saved, which executes its
      lines once. On any error the move stays a draft and no balance changes. */
  method Complete(inv: Inventory, id: nat) returns (resp: Response)
    modifies inv
    ensures id >= |old(inv.moves)| ==>
      resp == NotFound && inv.State() == old(inv.State()) && inv.moves == old(inv.moves)
    ensures id < |old(inv.moves)| && old(inv.moves[id].completed) ==>
      && resp == BadRequest(AlreadyCompleted)
      && inv.State() == old(inv.State()) && inv.moves == old(inv.moves)
    ensures id < |old(inv.moves)| && !old(inv.moves[id].completed) ==>
      var m := old(inv.moves[id]);
      if ValidateHeader(m.header).Some? then
        && resp == ErrorResponse(ValidateHeader(m.header).value)
        && inv.State() == old(inv.State()) && inv.moves == old(inv.moves)
      else
        var s := ExecuteLines(old(inv.State()), m.header, m.lines);
        if s.error.None? then
          && resp == Ok
          && inv.moves == old(inv.moves)[id := m.(completed := true)]
          && inv.State() == s.state
        else
          && resp == ErrorResponse(s.error.value)
          && inv.State() == old(inv.State()) && inv.moves == old(inv.moves)
    ensures old(inv.Valid()) ==> inv.Valid()
  {
    if id >= |inv.moves| {
      return NotFound;
    }
    if inv.moves[id].completed {
      return BadRequest(AlreadyCompleted);
    }
    var savedOnHand, savedLevels, savedMoves := inv.onHand, inv.levels, inv.moves;
    var m := inv.moves[id];
    var r := inv.Save(m.header, true, Some(id));
    if r.Failure? {
      inv.Rollback(savedOnHand, savedLevels, savedMoves);
      return ErrorResponse(r.error);
    }
    if old(inv.Valid()) {
      ExecuteLinesPreservesNonNegative(old(inv.State()), m.header, m.lines);
    }
    resp := Ok;
  }

  /** Completing twice applies the lines once: the second call is refused and
      leaves the balances the first one produced. */
  method CompleteTwice(inv: Inventory, id: nat) returns (first: Response, second: Response)
    requires id < |inv.moves| && !inv.moves[id].completed
    requires RequiredLocationsPresent(inv.moves[id].header)
    modifies inv
    ensures first == Ok ==>
      && second == BadRequest(AlreadyCompleted)
      && inv.State() == ExecuteLines(old(inv.State()), old(inv.moves[id].header), old(inv.moves[id].lines)).state
  {
    first := Complete(inv, id);
    second := Complete(inv, id);
  }

  // ---------------------------------------------------------------------------
  // by_product
  // ---------------------------------------------------------------------------

  predicate HasLineFor(m: StockMove, p: ProductId) {
    exists i :: 0 <= i < |m.lines| && m.lines[i].product == p
  }

  /** The keys of the moves among `moves` having a line for `p`, each once,
      newest (highest key) first. */
  function MovesWithProduct(moves: seq<StockMove>, p: ProductId): (ids: seq<nat>)
    ensures forall k: nat :: k in ids <==> k < |moves| && HasLineFor(moves[k], p)
    ensures forall i, j :: 0 <= i < j < |ids| ==> ids[i] > ids[j]
    decreases |moves|
  {
    if moves == [] then []
    else
      var last := |moves| - 1;
      var rest := MovesWithProduct(moves[..last], p);
      assert forall k: nat :: k < last ==> moves[..last][k] == moves[k];
      forall i | 0 <= i < |rest| ensures rest[i] < last {
        assert rest[i] in rest;
      }
      if HasLineFor(moves[last], p) then [last] + rest else rest
  }

  /** `by_product`: a missing or empty `product_id` is a 400; otherwise every
      move with a line for the product, each once, newest first. */
  function ByProduct(moves: seq<StockMove>, productId: Option<ProductId>): (r: Response)
    ensures productId.None? <==> r == BadRequest(ProductIdRequired)
    ensures productId.Some? ==>
      r.Moves? && (forall k: nat :: k in r.ids <==> k < |moves| && HasLineFor(moves[k], productId.value))
  {
    if productId.None? then BadRequest(ProductIdRequired)
    else Moves(MovesWithProduct(moves, productId.value))
  }
}
