/** The logic of the import dialog (`src/components/ImportWizard.tsx`): the
    manual-entry rows, the confirm button, and the hand-over of parsed and
    uploaded tables to the importer. React state becomes explicit arguments
    and results; the file reader's output is an argument. */
module ImportWizard {
  import opened Wrappers
  import opened Models
  import Text
  import ImportService

  /** One editable row of the manual tab. */
  datatype ManualRow = ManualRow(id: string, ticker: string, quantity: real, avgCost: Option<real>)

  /** The manual tab opens with one blank row. */
  const InitialRows: seq<ManualRow> := [ManualRow("1", "", 0.0, None)]

  /** `addManualRow`; `newId` stands for the clock reading used as id. */
  function AddManualRow(rows: seq<ManualRow>, newId: string): (r: seq<ManualRow>)
    ensures |r| == |rows| + 1 && r[..|rows|] == rows
    ensures r[|rows|] == ManualRow(newId, "", 0.0, None)
  {
    rows + [ManualRow(newId, "", 0.0, None)]
  }

  /** `removeManualRow`: every row with that id goes; the rest stay in
      order. */
  function RemoveManualRow(rows: seq<ManualRow>, id: string): (r: seq<ManualRow>)
    ensures forall x :: x in r ==> x in rows && x.id != id
    ensures forall x :: x in rows && x.id != id ==> x in r
    ensures |r| <= |rows|
  {
    if rows == [] then []
    else (if rows[0].id != id then [rows[0]] else []) + RemoveManualRow(rows[1..], id)
  }

  /** The fields the manual tab edits, with the value already converted as
      the inputs convert it. */
  datatype FieldUpdate = SetTicker(ticker: string) | SetQuantity(quantity: real) | SetAvgCost(avgCost: Option<real>)

  function ApplyUpdate(row: ManualRow, u: FieldUpdate): ManualRow {
    match u
    case SetTicker(t) => row.(ticker := t)
    case SetQuantity(q) => row.(quantity := q)
    case SetAvgCost(c) => row.(avgCost := c)
  }

  /** `updateManualRow`: the named field of the rows with that id takes the
      value; nothing else changes. */
  function UpdateManualRow(rows: seq<ManualRow>, id: string, u: FieldUpdate): (r: seq<ManualRow>)
    ensures |r| == |rows|
    ensures forall i :: 0 <= i < |rows| ==> r[i].id == rows[i].id
    ensures forall i :: 0 <= i < |rows| && rows[i].id != id ==> r[i] == rows[i]
    ensures forall i :: 0 <= i < |rows| && rows[i].id == id ==>
      match u
      case SetTicker(t) => r[i].ticker == t && r[i].quantity == rows[i].quantity && r[i].avgCost == rows[i].avgCost
      case SetQuantity(q) => r[i].quantity == q && r[i].ticker == rows[i].ticker && r[i].avgCost == rows[i].avgCost
      case SetAvgCost(c) => r[i].avgCost == c && r[i].ticker == rows[i].ticker && r[i].quantity == rows[i].quantity
  {
    seq(|rows|, i requires 0 <= i < |rows| => if rows[i].id == id then ApplyUpdate(rows[i], u) else rows[i])
  }

  /** The rows the confirm button takes: those with a ticker that is not
      blank. */
  predicate HasTicker(row: ManualRow) {
    Text.Trim(row.ticker) != ""
  }

  /** `handleManualConfirm`: the rows with a ticker, in order, upper-cased
      (not trimmed), quantity and cost copied. */
  function ManualConfirm(rows: seq<ManualRow>): (r: seq<Position>)
    ensures |r| <= |rows|
    ensures rows == [] ==> r == []
  {
    if rows == [] then []
    else
      ConfirmRow(rows[0]) + ManualConfirm(rows[1..])
  }

  /** What one row contributes to the confirmed positions. */
  function ConfirmRow(x: ManualRow): seq<Position> {
    if HasTicker(x) then [Position(Text.Upper(x.ticker), x.quantity, x.avgCost)] else []
  }

  /** The confirmed positions are exactly the upper-cased rows with a
      ticker. */
  lemma {:induction false} ConfirmExact(rows: seq<ManualRow>)
    ensures forall p :: p in ManualConfirm(rows) ==>
      exists x :: x in rows && HasTicker(x) && p == Position(Text.Upper(x.ticker), x.quantity, x.avgCost)
    ensures forall x :: x in rows && HasTicker(x) ==> Position(Text.Upper(x.ticker), x.quantity, x.avgCost) in ManualConfirm(rows)
  {
    if rows != [] {
      ConfirmExact(rows[1..]);
      assert ManualConfirm(rows) == ConfirmRow(rows[0]) + ManualConfirm(rows[1..]);
      forall p | p in ManualConfirm(rows)
        ensures exists x :: x in rows && HasTicker(x) && p == Position(Text.Upper(x.ticker), x.quantity, x.avgCost)
      {
        if p in ConfirmRow(rows[0]) {
          assert rows[0] in rows;
        } else {
          var x :| x in rows[1..] && HasTicker(x) && p == Position(Text.Upper(x.ticker), x.quantity, x.avgCost);
          assert x in rows;
        }
      }
      forall x | x in rows && HasTicker(x)
        ensures Position(Text.Upper(x.ticker), x.quantity, x.avgCost) in ManualConfirm(rows)
      {
        if x != rows[0] {
          assert x in rows[1..];
        }
      }
    }
  }

  /** The confirm button is disabled when no row has a ticker. */
  function ConfirmDisabled(rows: seq<ManualRow>): (r: bool)
    ensures r <==> forall x :: x in rows ==> !HasTicker(x)
  {
    if rows == [] then true else !HasTicker(rows[0]) && ConfirmDisabled(rows[1..])
  }

  // ----- table import -----

  /** `handlePasteParse`: blank text does nothing; other text is parsed. */
  function HandlePasteParse(pasteValue: string, split: (string, char) -> ImportService.Grid): (r: Option<ValidationResult>)
    ensures r.None? <==> Text.Trim(pasteValue) == ""
    ensures r.Some? ==> r.value == ImportService.ParseText(pasteValue, split)
  {
    if Text.Trim(pasteValue) == "" then None else Some(ImportService.ParseText(pasteValue, split))
  }

  /** `handlePasteConfirm`: without a parsed table nothing is imported;
      otherwise the positions of its valid rows. */
  function HandlePasteConfirm(validation: Option<ValidationResult>): (r: Option<seq<Position>>)
    ensures r.None? <==> validation.None?
    ensures r.Some? ==> r.value == ImportService.ValidatePositions(validation.value.validRows)
  {
    match validation
    case None => None
    case Some(v) => Some(ImportService.ValidatePositions(v.validRows))
  }

  datatype UploadKind = Spreadsheet | CommaSeparated | Unsupported

  /** The extension test of `handleFileUpload`: case-sensitive, `.xlsx`
      first. */
  function UploadKindOf(fileName: string): (r: UploadKind)
    ensures r == Spreadsheet <==> Text.EndsWith(fileName, ".xlsx")
    ensures r == CommaSeparated <==> !Text.EndsWith(fileName, ".xlsx") && Text.EndsWith(fileName, ".csv")
    ensures r == Unsupported <==> !Text.EndsWith(fileName, ".xlsx") && !Text.EndsWith(fileName, ".csv")
  {
    if Text.EndsWith(fileName, ".xlsx") then Spreadsheet
    else if Text.EndsWith(fileName, ".csv") then CommaSeparated
    else Unsupported
  }

  /** `handleFileUpload`: `sheet` is the workbook reader's first sheet and
      `text` the decoded bytes of the same file; other extensions give no
      result. */
  function HandleFileUpload(fileName: string, sheet: Option<ImportService.Grid>, text: string,
                            split: (string, char) -> ImportService.Grid): (r: Option<ValidationResult>)
    ensures r.None? <==> UploadKindOf(fileName) == Unsupported
    ensures UploadKindOf(fileName) == Spreadsheet ==> r == Some(ImportService.ParseXlsx(sheet))
    ensures UploadKindOf(fileName) == CommaSeparated ==> r == Some(ImportService.ParseCsv(text, split))
  {
    match UploadKindOf(fileName)
    case Spreadsheet => Some(ImportService.ParseXlsx(sheet))
    case CommaSeparated => Some(ImportService.ParseCsv(text, split))
    case Unsupported => None
  }

  // ----- lemmas -----

  /** The opening state has nothing to confirm. */
  lemma InitialCannotConfirm()
    ensures ConfirmDisabled(InitialRows) && ManualConfirm(InitialRows) == []
  {
    assert !HasTicker(InitialRows[0]);
  }

  /** The button is disabled exactly when confirming would import nothing. */
  lemma {:induction false} ConfirmDisabledIff(rows: seq<ManualRow>)
    ensures ConfirmDisabled(rows) <==> ManualConfirm(rows) == []
  {
    if rows != [] {
      ConfirmDisabledIff(rows[1..]);
    }
  }

  /** Removing a freshly added row restores the list. */
  lemma {:induction false} RemoveAdded(rows: seq<ManualRow>, newId: string)
    requires forall x :: x in rows ==> x.id != newId
    ensures RemoveManualRow(AddManualRow(rows, newId), newId) == rows
  {
    if rows != [] {
      assert AddManualRow(rows, newId)[1..] == AddManualRow(rows[1..], newId);
      RemoveAdded(rows[1..], newId);
    } else {
      assert RemoveManualRow(AddManualRow(rows, newId), newId) == [] + RemoveManualRow([], newId);
    }
  }

  /** Removal works row by row: it distributes over concatenation, so the
      kept rows keep their order. */
  lemma {:induction false} RemoveDistributes(a: seq<ManualRow>, b: seq<ManualRow>, id: string)
    ensures RemoveManualRow(a + b, id) == RemoveManualRow(a, id) + RemoveManualRow(b, id)
  {
    if a != [] {
      assert (a + b)[1..] == a[1..] + b;
      RemoveDistributes(a[1..], b, id);
    } else {
      assert a + b == b;
    }
  }

  /** Confirming works row by row too. */
  lemma {:induction false} ConfirmDistributes(a: seq<ManualRow>, b: seq<ManualRow>)
    ensures ManualConfirm(a + b) == ManualConfirm(a) + ManualConfirm(b)
  {
    if a != [] {
      assert (a + b)[1..] == a[1..] + b;
      ConfirmDistributes(a[1..], b);
      assert (a + b)[0] == a[0];
      assert ManualConfirm(a + b) == ConfirmRow(a[0]) + ManualConfirm(a[1..] + b);
    } else {
      assert a + b == b;
    }
  }

  /** Applying the same edit twice is applying it once. */
  lemma UpdateIdempotent(rows: seq<ManualRow>, id: string, u: FieldUpdate)
    ensures UpdateManualRow(UpdateManualRow(rows, id, u), id, u) == UpdateManualRow(rows, id, u)
  {
  }

  /** Every confirmed ticker is non-blank and upper-case. */
  lemma ConfirmedTickers(rows: seq<ManualRow>)
    ensures forall p :: p in ManualConfirm(rows) ==> Text.Trim(p.ticker) != "" && Text.Upper(p.ticker) == p.ticker
  {
    forall p | p in ManualConfirm(rows)
      ensures Text.Trim(p.ticker) != "" && Text.Upper(p.ticker) == p.ticker
    {
      ConfirmExact(rows);
      var x :| x in rows && HasTicker(x) && p == Position(Text.Upper(x.ticker), x.quantity, x.avgCost);
      UpperKeepsNonBlank(x.ticker);
      Text.UpperIdempotent(x.ticker);
    }
  }

  /** Upper-casing changes only letters, so a non-blank string stays
      non-blank. */
  lemma UpperKeepsNonBlank(s: string)
    requires Text.Trim(s) != ""
    ensures Text.Trim(Text.Upper(s)) != ""
  {
    var i :| 0 <= i < |s| && !Text.IsWhitespace(s[i]);
    assert !Text.IsWhitespace(Text.Upper(s)[i]);
  }

  /** Every position a pasted or uploaded table hands over came from an
      accepted row: a ticker, a positive quantity, a non-negative cost if
      any. */
  lemma ConfirmedTablePositionsAccepted(v: ValidationResult)
    requires forall q :: q in v.validRows ==> ImportService.IsAcceptedRow(q)
    ensures
      var r := HandlePasteConfirm(Some(v)).value;
      forall p :: p in r ==> p.ticker != "" && p.quantity > 0.0 && (p.avgCost.Some? ==> p.avgCost.value >= 0.0)
  {
  }

  /** Every table the dialog can produce meets that requirement. */
  lemma ProducedTablesAccepted(fileName: string, sheet: Option<ImportService.Grid>, text: string,
                               split: (string, char) -> ImportService.Grid)
    ensures
      var r := HandleFileUpload(fileName, sheet, text, split);
      r.Some? ==> forall q :: q in r.value.validRows ==> ImportService.IsAcceptedRow(q)
    ensures
      var r := HandlePasteParse(text, split);
      r.Some? ==> forall q :: q in r.value.validRows ==> ImportService.IsAcceptedRow(q)
  {
  }
}
