/** The checks the move serializer makes on a request body before the
    `create` and `update` endpoints touch any row (`is_valid`). First come
    the field checks the model fields imply: `move_type` is required on a
    full write and must be one of the declared codes. Then, when the fields
    pass, the serializer's own `validate` runs. `validate` reads only the
    fields the request SUPPLIES, never the stored move. A refusal is a 400
    keyed by the field it concerns. */
module StockMoveSerializer {
  import opened Wrappers
  import opened StockMoveModel

  const MoveTypeField: string := "move_type"
  const NonFieldErrors: string := "non_field_errors"
  const FieldRequired: string := "This field is required."
  const InboundNeedsDestinationLocation: string := "INBOUND moves require a destination location"
  const OutboundNeedsSourceLocation: string := "OUTBOUND moves require a source location"
  const TransferNeedsBothLocations: string := "TRANSFER moves require both source and destination locations"

  /** A validation error: the field it is keyed by and its message. */
  datatype FieldError = FieldError(field: string, message: string)

  /** The header fields a request body supplies. `None` is a field left out;
      a location supplied as `Some(None)` is an explicit null. */
  datatype HeaderPatch = HeaderPatch(
    moveType: Option<string>,
    fromLocation: Option<Option<LocationId>>,
    toLocation: Option<Option<LocationId>>)

  /** The body of a `create`: every header field, absent locations as null. */
  function Supplying(h: Header): HeaderPatch {
    HeaderPatch(Some(h.moveType), Some(h.fromLocation), Some(h.toLocation))
  }

  /** `move_type` is declared with choices, so its serializer field accepts
      only the codes of `MOVE_TYPES`. */
  predicate IsMoveTypeCode(code: string) {
    code == INBOUND || code == OUTBOUND || code == TRANSFER
  }

  lemma MoveTypeCodesAreChoices(code: string)
    ensures IsMoveTypeCode(code) <==>
      exists k :: 0 <= k < |MoveTypeChoices| && MoveTypeChoices[k].0 == code
  {
    if IsMoveTypeCode(code) {
      var k := if code == INBOUND then 0 else if code == OUTBOUND then 1 else 2;
      assert MoveTypeChoices[k].0 == code;
    }
  }

  /** The message of a choice field refusing `code`. */
  function InvalidChoice(code: string): string {
    "\"" + code + "\" is not a valid choice."
  }

  /** `data.get(field)`: a location left out reads as null. */
  function Read(field: Option<Option<LocationId>>): Option<LocationId> {
    if field.Some? then field.value else None
  }

  /** `StockMoveCreateSerializer.validate`: the checks of `save`, with other
      wording, made on the supplied fields alone. Without a supplied
      `move_type` nothing is checked. */
  function ValidateSupplied(data: HeaderPatch): (err: Option<string>)
    ensures data.moveType.None? ==> err.None?
    ensures data.moveType.Some? ==>
      (err.None? <==> RequiredLocationsPresent(Header(data.moveType.value, Read(data.fromLocation), Read(data.toLocation))))
    ensures err == Some(InboundNeedsDestinationLocation) <==>
      data.moveType == Some(INBOUND) && Read(data.toLocation).None?
    ensures err == Some(OutboundNeedsSourceLocation) <==>
      data.moveType == Some(OUTBOUND) && Read(data.fromLocation).None?
    ensures err == Some(TransferNeedsBothLocations) <==>
      data.moveType == Some(TRANSFER) && (Read(data.fromLocation).None? || Read(data.toLocation).None?)
  {
    var moveType, from, to := data.moveType, Read(data.fromLocation), Read(data.toLocation);
    if moveType == Some(INBOUND) && to.None? then Some(InboundNeedsDestinationLocation)
    else if moveType == Some(OUTBOUND) && from.None? then Some(OutboundNeedsSourceLocation)
    else if moveType == Some(TRANSFER) && (from.None? || to.None?) then Some(TransferNeedsBothLocations)
    else None
  }

  /** `is_valid`: the field checks, then `validate` only when they pass.
      `partial` is a PATCH, on which a left-out `move_type` is not required. */
  function Validate(data: HeaderPatch, partial: bool): (r: Option<FieldError>)
    ensures r.None? <==>
      (data.moveType.Some? || partial) &&
      (data.moveType.Some? ==> IsMoveTypeCode(data.moveType.value) && ValidateSupplied(data).None?)
    ensures data.moveType.None? && !partial ==> r == Some(FieldError(MoveTypeField, FieldRequired))
    ensures data.moveType.Some? && !IsMoveTypeCode(data.moveType.value) ==>
      r == Some(FieldError(MoveTypeField, InvalidChoice(data.moveType.value)))
    ensures r.Some? && r.value.field == NonFieldErrors ==>
      ValidateSupplied(data) == Some(r.value.message)
  {
    if data.moveType.None? && !partial then Some(FieldError(MoveTypeField, FieldRequired))
    else if data.moveType.Some? && !IsMoveTypeCode(data.moveType.value) then
      Some(FieldError(MoveTypeField, InvalidChoice(data.moveType.value)))
    else
      var err := ValidateSupplied(data);
      if err.Some? then Some(FieldError(NonFieldErrors, err.value)) else None
  }

  /** The header a full body describes, absent locations read as null. */
  function HeaderOf(data: HeaderPatch): Header
    requires data.moveType.Some?
  {
    Header(data.moveType.value, Read(data.fromLocation), Read(data.toLocation))
  }

  /** A create body is accepted iff it supplies one of the three codes and
      the header it describes passes `save`'s check. */
  lemma CreateBodyCheck(data: HeaderPatch)
    ensures Validate(data, false).None? <==>
      data.moveType.Some? && IsMoveTypeCode(data.moveType.value) && ValidateHeader(HeaderOf(data)).None?
    ensures data.moveType.None? ==> Validate(data, false) == Some(FieldError(MoveTypeField, FieldRequired))
  {
  }

  /** On a `create`, the serializer accepts a header iff its code is one of
      the choices and `save`'s check accepts it: `save` then never refuses. */
  lemma CreateCheckCoversSave(h: Header)
    ensures Validate(Supplying(h), false).None? <==> IsMoveTypeCode(h.moveType) && ValidateHeader(h).None?
  {
    assert Read(Supplying(h).fromLocation) == h.fromLocation;
    assert Read(Supplying(h).toLocation) == h.toLocation;
  }

  /** A body that supplies a move type needing a location, but not that
      location, is refused whatever the stored move holds: `validate` never
      reads the stored move. */
  lemma StoredLocationsNotConsulted(moveType: string, partial: bool)
    requires NeedsSource(moveType) || NeedsDestination(moveType)
    ensures Validate(HeaderPatch(Some(moveType), None, None), partial).Some?
  {
  }

  /** The `setattr` loop of the serializer's `update`: each supplied field
      replaces the stored one. */
  function Patched(h: Header, patch: HeaderPatch): (r: Header)
    ensures patch == HeaderPatch(None, None, None) ==> r == h
    ensures patch.moveType.Some? ==> r.moveType == patch.moveType.value
    ensures patch.moveType.None? ==> r.moveType == h.moveType
    ensures patch.fromLocation.Some? ==> r.fromLocation == patch.fromLocation.value
    ensures patch.fromLocation.None? ==> r.fromLocation == h.fromLocation
    ensures patch.toLocation.Some? ==> r.toLocation == patch.toLocation.value
    ensures patch.toLocation.None? ==> r.toLocation == h.toLocation
  {
    Header(
      if patch.moveType.Some? then patch.moveType.value else h.moveType,
      if patch.fromLocation.Some? then patch.fromLocation.value else h.fromLocation,
      if patch.toLocation.Some? then patch.toLocation.value else h.toLocation)
  }

  /** A body the serializer accepts that supplies every header field leaves a
      patched header `save` accepts: only a partial body can be refused by
      `save` after the serializer. */
  lemma FullPatchPassesSave(h: Header, patch: HeaderPatch, partial: bool)
    requires patch.moveType.Some? && patch.fromLocation.Some? && patch.toLocation.Some?
    requires Validate(patch, partial).None?
    ensures ValidateHeader(Patched(h, patch)).None?
  {
  }
}
