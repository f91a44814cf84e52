/** The web client's label for a stock-move type. */
module Formatters {
  import StockMoveModel

  /** The lookup table of `formatStockMoveType`. */
  const MoveTypeLabels: map<string, string> :=
    map["INBOUND" := "Inbound", "OUTBOUND" := "Outbound", "TRANSFER" := "Transfer"]

  /** `types[type] || type`: the label of a known code; any other string,
      including a known code in another letter case, comes back unchanged. */
  function FormatStockMoveType(moveType: string): (r: string)
    ensures r == moveType || (moveType in MoveTypeLabels && r == MoveTypeLabels[moveType])
    ensures r != moveType ==> r in MoveTypeLabels.Values
  {
    if moveType in MoveTypeLabels && MoveTypeLabels[moveType] != "" then MoveTypeLabels[moveType]
    else moveType
  }

  /** The client shows the same label the server declares for each code,
      and knows no other code. */
  lemma LabelsMatchServerChoices()
    ensures forall k :: 0 <= k < |StockMoveModel.MoveTypeChoices| ==>
      FormatStockMoveType(StockMoveModel.MoveTypeChoices[k].0) == StockMoveModel.MoveTypeChoices[k].1
    ensures forall code :: code in MoveTypeLabels <==>
      exists k :: 0 <= k < |StockMoveModel.MoveTypeChoices| && StockMoveModel.MoveTypeChoices[k].0 == code
  {
    var choices := StockMoveModel.MoveTypeChoices;
    assert choices[0].0 == "INBOUND" && choices[1].0 == "OUTBOUND" && choices[2].0 == "TRANSFER";
  }

  /** A label is not a code, so formatting twice changes nothing more. */
  lemma FormatIdempotent(moveType: string)
    ensures FormatStockMoveType(FormatStockMoveType(moveType)) == FormatStockMoveType(moveType)
  {
    assert "Inbound" !in MoveTypeLabels by {
      assert "Inbound"[1] != "INBOUND"[1];
      assert "Inbound"[1] != "OUTBOUND"[1];
      assert "Inbound"[1] != "TRANSFER"[1];
    }
    assert "Outbound" !in MoveTypeLabels by {
      assert "Outbound"[1] != "INBOUND"[1];
      assert "Outbound"[1] != "OUTBOUND"[1];
      assert "Outbound"[1] != "TRANSFER"[1];
    }
    assert "Transfer" !in MoveTypeLabels by {
      assert "Transfer"[1] != "INBOUND"[1];
      assert "Transfer"[1] != "OUTBOUND"[1];
      assert "Transfer"[1] != "TRANSFER"[1];
    }
  }

  /** Matching is case-sensitive: a code in lower case is not recognised. */
  lemma FormatIsCaseSensitive(moveType: string)
    requires |moveType| > 0 && 'a' <= moveType[0] <= 'z'
    ensures FormatStockMoveType(moveType) == moveType
  {
    assert moveType !in MoveTypeLabels by {
      assert moveType[0] != "INBOUND"[0] && moveType[0] != "OUTBOUND"[0] && moveType[0] != "TRANSFER"[0];
    }
  }
}
