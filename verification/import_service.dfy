/** The holdings table importer (`src/services/importService.ts`): pasted
    text or a spreadsheet grid becomes a `ValidationResult`. The text and the
    spreadsheet paths share one grid-level routine, `ParseGrid`; the two
    adapters differ only in what an empty input yields. The delimiter-aware
    splitter (Papa.parse) and the workbook reader are foreign code and enter
    as a function parameter and as the grid they produce. */
module ImportService {
  import opened Wrappers
  import opened Models
  import Text
  import Decimal

  type Grid = seq<seq<string>>

  const TickerSynonyms: seq<string> := ["ticker", "symbol", "symbol/cusip", "instrument"]
  const QuantitySynonyms: seq<string> := ["quantity", "qty", "shares", "units"]
  const CostSynonyms: seq<string> := ["entry price", "avg cost", "average cost", "purchase price", "entry", "cost"]

  /** Only the first few rows (and the first few lines of text) are inspected. */
  const ScanLimit: nat := 5

  function Min(a: int, b: int): int {
    if a <= b then a else b
  }

  // ----- delimiter detection -----

  function CountInLines(lines: seq<string>, c: char): nat {
    if lines == [] then 0 else Text.CountChar(lines[0], c) + CountInLines(lines[1..], c)
  }

  /** Occurrences of `c` in `text` before its `k`-th line break, i.e. in its
      first `k` lines. */
  ghost function CountInFirstLines(text: string, c: char, k: nat): nat {
    if text == [] || k == 0 then 0
    else if text[0] == '\n' then CountInFirstLines(text[1..], c, k - 1)
    else (if text[0] == c then 1 else 0) + CountInFirstLines(text[1..], c, k)
  }

  /** Tab when tabs outnumber both commas and semicolons in the first five
      lines, else semicolon when semicolons outnumber commas, else comma
      (also for empty text). */
  function DetectDelimiter(text: string): (d: char)
    ensures
      var tabs := CountInFirstLines(text, '\t', ScanLimit);
      var commas := CountInFirstLines(text, ',', ScanLimit);
      var semicolons := CountInFirstLines(text, ';', ScanLimit);
      && (d == '\t' <==> tabs > commas && tabs > semicolons)
      && (d == ';' <==> !(tabs > commas && tabs > semicolons) && semicolons > commas)
      && (d == ',' <==> !(tabs > commas && tabs > semicolons) && semicolons <= commas)
    ensures text == "" ==> d == ','
  {
    var lines := Text.Split(text, '\n');
    var head := lines[..Min(ScanLimit, |lines|)];
    var tabs := CountInLines(head, '\t');
    var commas := CountInLines(head, ',');
    var semicolons := CountInLines(head, ';');
    CountInSplitLines(text, '\t', ScanLimit);
    CountInSplitLines(text, ',', ScanLimit);
    CountInSplitLines(text, ';', ScanLimit);
    if tabs > commas && tabs > semicolons then '\t'
    else if semicolons > commas then ';'
    else ','
  }

  /** Counting over the first `k` pieces of a split at line breaks is counting
      in the text up to its `k`-th line break. */
  lemma {:induction false} CountInSplitLines(text: string, c: char, k: nat)
    requires c != '\n'
    ensures
      var lines := Text.Split(text, '\n');
      CountInLines(lines[..Min(k, |lines|)], c) == CountInFirstLines(text, c, k)
  {
    var lines := Text.Split(text, '\n');
    if text == [] || k == 0 {
      if k > 0 {
        assert lines[..Min(k, |lines|)] == [""];
      }
    } else if text[0] == '\n' {
      var rest := Text.Split(text[1..], '\n');
      CountInSplitLines(text[1..], c, k - 1);
      assert lines[..Min(k, |lines|)] == [""] + rest[..Min(k - 1, |rest|)];
    } else {
      var rest := Text.Split(text[1..], '\n');
      CountInSplitLines(text[1..], c, k);
      var head := lines[..Min(k, |lines|)];
      assert head[0] == [text[0]] + rest[0];
      assert ([text[0]] + rest[0])[1..] == rest[0];
      assert head[1..] == rest[1..Min(k, |rest|)];
      assert rest[..Min(k, |rest|)][1..] == rest[1..Min(k, |rest|)];
    }
  }

  // ----- header row and columns -----

  /** `normalizeHeader`: lower-cased and trimmed. */
  function NormalizeHeader(h: string): string {
    Text.Trim(Text.Lower(h))
  }

  function NormalizeRow(row: seq<string>): (r: seq<string>)
    ensures |r| == |row|
    ensures forall i :: 0 <= i < |row| ==> r[i] == NormalizeHeader(row[i])
  {
    seq(|row|, i requires 0 <= i < |row| => NormalizeHeader(row[i]))
  }

  /** The (normalised) header text contains one of the synonyms. */
  predicate MentionsAny(h: string, synonyms: seq<string>) {
    exists k :: 0 <= k < |synonyms| && Text.Contains(h, synonyms[k])
  }

  /** A row with a ticker-like cell and a quantity-like cell. */
  predicate LooksLikeHeader(row: seq<string>) {
    && (exists i :: 0 <= i < |row| && MentionsAny(NormalizeHeader(row[i]), TickerSynonyms))
    && (exists i :: 0 <= i < |row| && MentionsAny(NormalizeHeader(row[i]), QuantitySynonyms))
  }

  datatype HeaderRow = HeaderRow(index: nat, headers: seq<string>)

  function FindHeaderFrom(rows: Grid, i: nat): (r: HeaderRow)
    requires i <= Min(ScanLimit, |rows|)
    ensures |rows| == 0 ==> r == HeaderRow(0, [])
    ensures |rows| > 0 ==> r.index < |rows| && r.headers == NormalizeRow(rows[r.index])
    ensures r.index == 0 || i <= r.index < Min(ScanLimit, |rows|)
    decreases Min(ScanLimit, |rows|) - i
  {
    if i == Min(ScanLimit, |rows|) then
      HeaderRow(0, if |rows| > 0 then NormalizeRow(rows[0]) else [])
    else if LooksLikeHeader(rows[i]) then
      HeaderRow(i, NormalizeRow(rows[i]))
    else
      FindHeaderFrom(rows, i + 1)
  }

  /** Some row in `[lo, hi)` looks like a header. */
  predicate HeaderLikeIn(rows: Grid, lo: nat, hi: nat)
    requires hi <= |rows|
  {
    exists j :: lo <= j < hi && LooksLikeHeader(rows[j])
  }

  /** The scan from row `i` stops at the first header-like row at or after
      `i` within the first five rows, and falls back to row 0 when there is
      none. */
  lemma FindHeaderFromFirst(rows: Grid, i: nat)
    requires i <= Min(ScanLimit, |rows|)
    ensures HeaderLikeIn(rows, i, Min(ScanLimit, |rows|)) ==>
      && i <= FindHeaderFrom(rows, i).index < Min(ScanLimit, |rows|)
      && LooksLikeHeader(rows[FindHeaderFrom(rows, i).index])
      && forall j :: i <= j < FindHeaderFrom(rows, i).index ==> !LooksLikeHeader(rows[j])
    ensures !HeaderLikeIn(rows, i, Min(ScanLimit, |rows|)) ==> FindHeaderFrom(rows, i).index == 0
  {
    if HeaderLikeIn(rows, i, Min(ScanLimit, |rows|)) {
      FindHeaderFromFound(rows, i);
    } else {
      FindHeaderFromNone(rows, i);
    }
  }

  lemma {:induction false} FindHeaderFromFound(rows: Grid, i: nat)
    requires i <= Min(ScanLimit, |rows|) && HeaderLikeIn(rows, i, Min(ScanLimit, |rows|))
    ensures i <= FindHeaderFrom(rows, i).index < Min(ScanLimit, |rows|)
    ensures LooksLikeHeader(rows[FindHeaderFrom(rows, i).index])
    ensures forall j :: i <= j < FindHeaderFrom(rows, i).index ==> !LooksLikeHeader(rows[j])
    decreases Min(ScanLimit, |rows|) - i
  {
    var hi := Min(ScanLimit, |rows|);
    if !LooksLikeHeader(rows[i]) {
      assert HeaderLikeIn(rows, i + 1, hi) by {
        var j :| i <= j < hi && LooksLikeHeader(rows[j]);
        assert i + 1 <= j;
      }
      FindHeaderFromFound(rows, i + 1);
      var r := FindHeaderFrom(rows, i + 1);
      assert FindHeaderFrom(rows, i) == r;
      forall j | i <= j < r.index ensures !LooksLikeHeader(rows[j]) {
        if j != i {
          assert i + 1 <= j < r.index;
        }
      }
    }
  }

  lemma {:induction false} FindHeaderFromNone(rows: Grid, i: nat)
    requires i <= Min(ScanLimit, |rows|) && !HeaderLikeIn(rows, i, Min(ScanLimit, |rows|))
    ensures FindHeaderFrom(rows, i).index == 0
    decreases Min(ScanLimit, |rows|) - i
  {
    var hi := Min(ScanLimit, |rows|);
    if i < hi {
      assert !LooksLikeHeader(rows[i]);
      assert !HeaderLikeIn(rows, i + 1, hi) by {
        forall j | i + 1 <= j < hi ensures !LooksLikeHeader(rows[j]) {
          assert i <= j < hi;
        }
      }
      FindHeaderFromNone(rows, i + 1);
    }
  }

  /** `findHeaderRow`: the header row's index and normalised cells; which
      row is chosen is stated by `HeaderRowIsFirstHeaderLike`. */
  function FindHeaderRow(rows: Grid): (r: HeaderRow)
    ensures |rows| == 0 ==> r == HeaderRow(0, [])
    ensures |rows| > 0 ==> r.index < Min(ScanLimit, |rows|) && r.headers == NormalizeRow(rows[r.index])
  {
    FindHeaderFrom(rows, 0)
  }

  /** The header row is the first of the first five rows that looks like a
      header; when none does, row 0 is used. */
  lemma HeaderRowIsFirstHeaderLike(rows: Grid)
    ensures forall j :: 0 <= j < FindHeaderRow(rows).index ==> !LooksLikeHeader(rows[j])
    ensures (exists j :: 0 <= j < Min(ScanLimit, |rows|) && LooksLikeHeader(rows[j]))
      <==> |rows| > 0 && LooksLikeHeader(rows[FindHeaderRow(rows).index])
    ensures !(exists j :: 0 <= j < Min(ScanLimit, |rows|) && LooksLikeHeader(rows[j])) ==> FindHeaderRow(rows).index == 0
  {
    FindHeaderFromFirst(rows, 0);
    var r := FindHeaderRow(rows);
    if |rows| > 0 && LooksLikeHeader(rows[r.index]) {
      assert HeaderLikeIn(rows, 0, Min(ScanLimit, |rows|)) by {
        assert r.index < Min(ScanLimit, |rows|);
      }
    }
  }

  datatype Columns = Columns(ticker: int, quantity: int, cost: int)

  /** `idx` is -1 when no header mentions a synonym, else the first header
      that does. */
  ghost predicate IsFirstMatch(headers: seq<string>, synonyms: seq<string>, idx: int) {
    if idx == -1 then forall j :: 0 <= j < |headers| ==> !MentionsAny(headers[j], synonyms)
    else
      && 0 <= idx < |headers|
      && MentionsAny(headers[idx], synonyms)
      && forall j :: 0 <= j < idx ==> !MentionsAny(headers[j], synonyms)
  }

  function FirstMatchFrom(headers: seq<string>, synonyms: seq<string>, i: nat): (idx: int)
    requires i <= |headers|
    ensures idx == -1 || i <= idx < |headers|
    ensures idx == -1 ==> forall j :: i <= j < |headers| ==> !MentionsAny(headers[j], synonyms)
    ensures idx != -1 ==> MentionsAny(headers[idx], synonyms) && forall j :: i <= j < idx ==> !MentionsAny(headers[j], synonyms)
    decreases |headers| - i
  {
    if i == |headers| then -1
    else if MentionsAny(headers[i], synonyms) then i
    else FirstMatchFrom(headers, synonyms, i + 1)
  }

  /** `findColumnIndices`: each field resolved independently to its first
      matching column (one column may serve several fields). */
  function FindColumnIndices(headers: seq<string>): (c: Columns)
    ensures IsFirstMatch(headers, TickerSynonyms, c.ticker)
    ensures IsFirstMatch(headers, QuantitySynonyms, c.quantity)
    ensures IsFirstMatch(headers, CostSynonyms, c.cost)
  {
    Columns(
      FirstMatchFrom(headers, TickerSynonyms, 0),
      FirstMatchFrom(headers, QuantitySynonyms, 0),
      FirstMatchFrom(headers, CostSynonyms, 0))
  }

  // ----- rows -----

  /** The trimmed text of a cell; a cell past the end of the row (or at
      index -1) reads as empty, as `row[idx]?.trim()` is then undefined. */
  function CellText(row: seq<string>, idx: int): string {
    if 0 <= idx < |row| then Text.Trim(row[idx]) else ""
  }

  /** `parseFloat(s.replace(/,/g, ""))`: thousands separators dropped. */
  function ParseNumber(s: string): Option<real> {
    Decimal.ParseFloat(Text.RemoveChar(s, ','))
  }

  /** A thousands separator is dropped and the fraction is read:
      `a,b.c` reads as the digits of `a`, `b` and `c` scaled down by the
      length of `c` (`1,234.50` is 1234.5). */
  lemma ParseNumberThousands(a: string, b: string, c: string)
    requires |a| >= 1 && Decimal.AllDigits(a) && Decimal.AllDigits(b) && Decimal.AllDigits(c)
    ensures Decimal.AllDigits(a + b + c)
    ensures ParseNumber(a + "," + b + "." + c) == Some(Decimal.DigitsValue(a + b + c) as real / Decimal.Pow10(|c|))
  {
    Decimal.DigitsConcat(a, b);
    Decimal.DigitsConcat(a + b, c);
    DropThousandsSeparator(a, b, c);
    Decimal.UnsignedPrefixOfDecimal(a + b, c, "");
    Decimal.ParseFloatOfDigitStart((a + b) + "." + c + "");
  }

  /** Digits followed by text that cannot continue a number read as the
      digits alone (`12abc` is 12). */
  lemma ParseNumberIgnoresTail(a: string, rest: string)
    requires |a| >= 1 && Decimal.AllDigits(a) && ',' !in rest
    requires rest == [] || (!Decimal.IsDigit(rest[0]) && rest[0] != '.' && rest[0] != 'e' && rest[0] != 'E')
    ensures ParseNumber(a + rest) == Some(Decimal.DigitsValue(a) as real)
  {
    assert Text.RemoveChar(a + rest, ',') == a + rest by {
      NoCommaInDigits(a);
      Text.RemoveCharConcat(a, rest, ',');
      Text.RemoveCharAbsent(a, ',');
      Text.RemoveCharAbsent(rest, ',');
    }
    Decimal.UnsignedPrefixOfInteger(a, rest);
    Decimal.ParseFloatOfDigitStart(a + rest);
  }

  lemma DropThousandsSeparator(a: string, b: string, c: string)
    requires Decimal.AllDigits(a) && Decimal.AllDigits(b) && Decimal.AllDigits(c)
    ensures Text.RemoveChar(a + "," + b + "." + c, ',') == (a + b) + "." + c + ""
  {
    var head, tail := a + ",", b + "." + c;
    assert a + "," + b + "." + c == head + tail;
    Text.RemoveCharConcat(head, tail, ',');
    DropSeparatorAfter(a);
    KeepPointedDigits(b, c);
    assert a + tail == (a + b) + "." + c + "";
  }

  lemma DropSeparatorAfter(a: string)
    requires Decimal.AllDigits(a)
    ensures Text.RemoveChar(a + ",", ',') == a
  {
    NoCommaInDigits(a);
    Text.RemoveCharConcat(a, ",", ',');
    Text.RemoveCharAbsent(a, ',');
    assert Text.RemoveChar(",", ',') == "";
  }

  lemma KeepPointedDigits(b: string, c: string)
    requires Decimal.AllDigits(b) && Decimal.AllDigits(c)
    ensures Text.RemoveChar(b + "." + c, ',') == b + "." + c
  {
    var tail := b + "." + c;
    NoCommaInDigits(b);
    NoCommaInDigits(c);
    forall i | 0 <= i < |tail| ensures tail[i] != ',' {
      if i < |b| { assert tail[i] == b[i]; }
      else if i > |b| { assert tail[i] == c[i - |b| - 1]; }
    }
    Text.RemoveCharAbsent(tail, ',');
  }

  lemma NoCommaInDigits(s: string)
    requires Decimal.AllDigits(s)
    ensures ',' !in s
  {
    forall i | 0 <= i < |s| ensures s[i] != ',' {
      assert Decimal.IsDigit(s[i]);
    }
  }

  predicate IsPositive(n: Option<real>) {
    n.Some? && n.value > 0.0
  }

  /** No cost column, an empty cost cell, or a cost that reads as >= 0. */
  predicate CostAcceptable(row: seq<string>, cols: Columns) {
    var cost := CellText(row, cols.cost);
    cols.cost == -1 || cost == "" || (ParseNumber(cost).Some? && ParseNumber(cost).value >= 0.0)
  }

  /** `parseRow`: `None` drops the row (blank ticker); an error-free row is
      an accepted one. The order in which errors apply is stated by
      `ParseRowErrorOrder`. */
  function ParseRow(row: seq<string>, cols: Columns): (r: Option<PreviewRow>)
    ensures r.None? <==> CellText(row, cols.ticker) == ""
    ensures r.Some? ==> r.value.ticker == Text.Upper(CellText(row, cols.ticker))
    ensures r.Some? && r.value.error.None? ==> IsAcceptedRow(r.value)
  {
    var ticker := Text.Upper(CellText(row, cols.ticker));
    var qtyText := CellText(row, cols.quantity);
    var costText := if cols.cost != -1 then CellText(row, cols.cost) else "";
    Text.UpperEmptyIff(CellText(row, cols.ticker));
    if ticker == "" then None
    else if qtyText == "" then Some(PreviewRow(ticker, 0.0, None, Some(MissingQuantity)))
    else
      var quantity := ParseNumber(qtyText);
      if quantity.None? || quantity.value <= 0.0 then Some(PreviewRow(ticker, 0.0, None, Some(InvalidQuantity)))
      else if costText == "" then Some(PreviewRow(ticker, quantity.value, None, None))
      else
        var cost := ParseNumber(costText);
        if cost.None? || cost.value < 0.0 then Some(PreviewRow(ticker, quantity.value, None, Some(InvalidAvgCost)))
        else Some(PreviewRow(ticker, quantity.value, Some(cost.value), None))
  }

  /** The errors of `parseRow` apply in the order missing quantity, invalid
      quantity, invalid cost; a row is error-free exactly when its quantity
      reads as positive and its cost is absent or reads as non-negative. */
  lemma ParseRowErrorOrder(row: seq<string>, cols: Columns)
    requires CellText(row, cols.ticker) != ""
    ensures
      var r := ParseRow(row, cols).value;
      var qty := CellText(row, cols.quantity);
      && (qty == "" ==> r.error == Some(MissingQuantity) && r.quantity == 0.0)
      && (qty != "" && !IsPositive(ParseNumber(qty)) ==> r.error == Some(InvalidQuantity) && r.quantity == 0.0)
      && (r.error == Some(InvalidAvgCost) ==> r.quantity > 0.0 && ParseNumber(qty) == Some(r.quantity))
      && (IsPositive(ParseNumber(qty)) && !CostAcceptable(row, cols) ==>
            r.error == Some(InvalidAvgCost) && r.quantity == ParseNumber(qty).value)
      && (r.error.None? <==> IsPositive(ParseNumber(qty)) && CostAcceptable(row, cols))
      && (r.error.None? ==>
           && ParseNumber(qty) == Some(r.quantity)
           && (r.avgCost.None? <==> cols.cost == -1 || CellText(row, cols.cost) == ""))
      && (r.error.Some? ==> r.avgCost.None?)
  {
    var ticker := Text.Upper(CellText(row, cols.ticker));
    var qty := CellText(row, cols.quantity);
    Text.UpperEmptyIff(CellText(row, cols.ticker));
    if qty == "" {
      assert ParseRow(row, cols) == Some(PreviewRow(ticker, 0.0, None, Some(MissingQuantity)));
    } else if !IsPositive(ParseNumber(qty)) {
      assert ParseRow(row, cols) == Some(PreviewRow(ticker, 0.0, None, Some(InvalidQuantity)));
    } else {
      var q := ParseNumber(qty).value;
      var costText := if cols.cost != -1 then CellText(row, cols.cost) else "";
      if costText == "" {
        assert ParseRow(row, cols) == Some(PreviewRow(ticker, q, None, None));
      } else {
        var cost := ParseNumber(costText);
        if cost.None? || cost.value < 0.0 {
          assert ParseRow(row, cols) == Some(PreviewRow(ticker, q, None, Some(InvalidAvgCost)));
        } else {
          assert ParseRow(row, cols) == Some(PreviewRow(ticker, q, Some(cost.value), None));
        }
      }
    }
  }

  /** A row the importer accepts. */
  predicate IsAcceptedRow(p: PreviewRow) {
    && p.error.None?
    && p.ticker != ""
    && p.quantity > 0.0
    && (p.avgCost.Some? ==> p.avgCost.value >= 0.0)
  }

  /** Data rows with a blank ticker cell. */
  ghost function BlankTickerRows(data: Grid, cols: Columns): nat {
    if data == [] then 0 else (if CellText(data[0], cols.ticker) == "" then 1 else 0) + BlankTickerRows(data[1..], cols)
  }

  type Outcome = Option<PreviewRow>

  /** `parseRow` applied to every data row. */
  function ParseRows(data: Grid, cols: Columns): (r: seq<Outcome>)
    ensures |r| == |data|
    ensures forall i :: 0 <= i < |data| ==> r[i] == ParseRow(data[i], cols)
  {
    seq(|data|, i requires 0 <= i < |data| => ParseRow(data[i], cols))
  }

  /** Rows whose parse dropped them. */
  ghost function DroppedCount(outcomes: seq<Outcome>): nat {
    if outcomes == [] then 0 else (if outcomes[0].None? then 1 else 0) + DroppedCount(outcomes[1..])
  }

  datatype Partition = Partition(valid: seq<PreviewRow>, invalid: seq<InvalidRow>)

  /** The body of the loop over the data rows: outcome `i` belongs to row
      number `first + i`; dropped rows go nowhere, rows with an error become
      invalid rows, the rest valid rows. */
  function Classify(outcomes: seq<Outcome>, first: nat): (p: Partition)
    ensures |p.valid| + |p.invalid| + DroppedCount(outcomes) == |outcomes|
    ensures forall q :: q in p.valid ==> q.error.None?
    ensures forall k :: 0 <= k < |p.invalid| ==> first <= p.invalid[k].rowNumber < first + |outcomes|
    ensures forall k, l :: 0 <= k < l < |p.invalid| ==> p.invalid[k].rowNumber < p.invalid[l].rowNumber
  {
    if outcomes == [] then Partition([], [])
    else
      var rest := Classify(outcomes[1..], first + 1);
      var parsed := outcomes[0];
      if parsed.None? then rest
      else if parsed.value.error.Some? then
        Partition(rest.valid, [InvalidRow(first, parsed.value.error.value)] + rest.invalid)
      else
        Partition([parsed.value] + rest.valid, rest.invalid)
  }

  /** `row` names outcome `row.rowNumber - first`, which carries its error. */
  predicate Reports(outcomes: seq<Outcome>, first: nat, row: InvalidRow) {
    && first <= row.rowNumber < first + |outcomes|
    && outcomes[row.rowNumber - first].Some?
    && outcomes[row.rowNumber - first].value.error == Some(row.error)
  }

  /** Each invalid row names an outcome that carries that error. */
  lemma {:induction false} InvalidRowsReportTheirRow(outcomes: seq<Outcome>, first: nat)
    ensures forall row :: row in Classify(outcomes, first).invalid ==> Reports(outcomes, first, row)
  {
    if outcomes != [] {
      InvalidRowsReportTheirRow(outcomes[1..], first + 1);
      var rest := Classify(outcomes[1..], first + 1);
      forall row | row in rest.invalid
        ensures Reports(outcomes, first, row)
      {
        assert Reports(outcomes[1..], first + 1, row);
        assert outcomes[row.rowNumber - first] == outcomes[1..][row.rowNumber - (first + 1)];
      }
    }
  }

  /** An outcome that carries an error is reported, under its own number. */
  lemma {:induction false} InvalidRowComplete(outcomes: seq<Outcome>, first: nat, i: nat)
    requires i < |outcomes| && outcomes[i].Some? && outcomes[i].value.error.Some?
    ensures InvalidRow(first + i, outcomes[i].value.error.value) in Classify(outcomes, first).invalid
  {
    if i > 0 {
      assert outcomes[1..][i - 1] == outcomes[i];
      InvalidRowComplete(outcomes[1..], first + 1, i - 1);
    }
  }

  /** The valid rows are exactly the error-free outcomes. */
  lemma {:induction false} ValidRowsExact(outcomes: seq<Outcome>, first: nat)
    ensures
      var p := Classify(outcomes, first);
      && (forall q :: q in p.valid ==> Some(q) in outcomes)
      && (forall i :: 0 <= i < |outcomes| && outcomes[i].Some? && outcomes[i].value.error.None? ==>
            outcomes[i].value in p.valid)
  {
    if outcomes != [] {
      ValidRowsExact(outcomes[1..], first + 1);
      forall i | 1 <= i < |outcomes|
        ensures outcomes[i] == outcomes[1..][i - 1]
      {
      }
    }
  }

  /** Classification works outcome by outcome: the valid rows of a
      concatenation are those of each part in turn, and so are the reported
      rows, the second part numbered on from the first. */
  lemma ClassifyDistributes(a: seq<Outcome>, b: seq<Outcome>, first: nat)
    ensures Classify(a + b, first).valid == Classify(a, first).valid + Classify(b, first + |a|).valid
    ensures Classify(a + b, first).invalid == Classify(a, first).invalid + Classify(b, first + |a|).invalid
  {
    ClassifyValidDistributes(a, b, first);
    ClassifyInvalidDistributes(a, b, first);
  }

  lemma {:induction false} ClassifyValidDistributes(a: seq<Outcome>, b: seq<Outcome>, first: nat)
    ensures Classify(a + b, first).valid == Classify(a, first).valid + Classify(b, first + |a|).valid
  {
    if a == [] {
      assert a + b == b;
    } else {
      assert (a + b)[0] == a[0];
      assert (a + b)[1..] == a[1..] + b;
      ClassifyValidDistributes(a[1..], b, first + 1);
      var tail := Classify(b, first + |a|).valid;
      var rest := Classify(a[1..], first + 1).valid;
      if a[0].Some? && a[0].value.error.None? {
        assert [a[0].value] + (rest + tail) == ([a[0].value] + rest) + tail;
      }
    }
  }

  lemma {:induction false} ClassifyInvalidDistributes(a: seq<Outcome>, b: seq<Outcome>, first: nat)
    ensures Classify(a + b, first).invalid == Classify(a, first).invalid + Classify(b, first + |a|).invalid
  {
    if a == [] {
      assert a + b == b;
    } else {
      assert (a + b)[0] == a[0];
      assert (a + b)[1..] == a[1..] + b;
      ClassifyInvalidDistributes(a[1..], b, first + 1);
      var tail := Classify(b, first + |a|).invalid;
      var rest := Classify(a[1..], first + 1).invalid;
      if a[0].Some? && a[0].value.error.Some? {
        var row := InvalidRow(first, a[0].value.error.value);
        assert [row] + (rest + tail) == ([row] + rest) + tail;
      }
    }
  }

  /** Every error-free parse is an accepted row. */
  lemma OutcomesAccepted(data: Grid, cols: Columns)
    ensures forall o :: o in ParseRows(data, cols) && o.Some? && o.value.error.None? ==> IsAcceptedRow(o.value)
  {
    var outcomes := ParseRows(data, cols);
    forall o | o in outcomes && o.Some? && o.value.error.None?
      ensures IsAcceptedRow(o.value)
    {
      var i :| 0 <= i < |outcomes| && outcomes[i] == o;
      assert o == ParseRow(data[i], cols);
    }
  }

  /** A row is dropped exactly when its ticker cell is blank. */
  lemma {:induction false} DroppedAreBlankTickers(data: Grid, cols: Columns)
    ensures DroppedCount(ParseRows(data, cols)) == BlankTickerRows(data, cols)
  {
    if data != [] {
      DroppedAreBlankTickers(data[1..], cols);
      assert ParseRows(data, cols)[1..] == ParseRows(data[1..], cols);
    }
  }

  /** Parses and classifies the data rows; `data[i]` is row `first + i`. */
  function ClassifyData(data: Grid, cols: Columns, first: nat): (p: Partition)
    ensures |p.valid| + |p.invalid| + BlankTickerRows(data, cols) == |data|
    ensures forall q :: q in p.valid ==> IsAcceptedRow(q)
    ensures forall k :: 0 <= k < |p.invalid| ==> first <= p.invalid[k].rowNumber < first + |data|
    ensures forall k, l :: 0 <= k < l < |p.invalid| ==> p.invalid[k].rowNumber < p.invalid[l].rowNumber
  {
    var outcomes := ParseRows(data, cols);
    ValidRowsExact(outcomes, first);
    OutcomesAccepted(data, cols);
    DroppedAreBlankTickers(data, cols);
    Classify(outcomes, first)
  }

  /** The result of a failure of the whole table. */
  function TableFailure(e: ImportError): ValidationResult {
    ValidationResult([], [InvalidRow(0, e)], 0, 1)
  }

  /** The header row has a ticker-like and a quantity-like column. */
  predicate ColumnsResolved(headers: seq<string>) {
    && (exists j :: 0 <= j < |headers| && MentionsAny(headers[j], TickerSynonyms))
    && (exists j :: 0 <= j < |headers| && MentionsAny(headers[j], QuantitySynonyms))
  }

  /** Both required columns are found exactly when the header row has a
      ticker-like and a quantity-like column. */
  lemma ResolvedIff(headers: seq<string>)
    ensures ColumnsResolved(headers) <==>
      FindColumnIndices(headers).ticker != -1 && FindColumnIndices(headers).quantity != -1
  {
    var cols := FindColumnIndices(headers);
    if cols.ticker != -1 && cols.quantity != -1 {
      assert MentionsAny(headers[cols.ticker], TickerSynonyms);
      assert MentionsAny(headers[cols.quantity], QuantitySynonyms);
    }
  }

  /** The pipeline shared by `parseTable` and `parseXLSX` once a non-empty
      grid is at hand: locate the header, resolve the columns (failing as a
      whole when ticker or quantity is missing), then parse the rows below
      the header; rows above it are ignored. */
  function ParseGrid(rows: Grid): (r: ValidationResult)
    ensures r.totalImported == |r.validRows| && r.totalSkipped == |r.invalidRows|
    ensures forall q :: q in r.validRows ==> IsAcceptedRow(q)
    ensures !ColumnsResolved(FindHeaderRow(rows).headers) <==> r == TableFailure(UndetectedColumns)
    ensures ColumnsResolved(FindHeaderRow(rows).headers) ==>
      r == ParseBelowHeader(rows, FindHeaderRow(rows).index, FindColumnIndices(FindHeaderRow(rows).headers))
  {
    var h := FindHeaderRow(rows);
    var cols := FindColumnIndices(h.headers);
    ResolvedIff(h.headers);
    if cols.ticker == -1 || cols.quantity == -1 then
      TableFailure(UndetectedColumns)
    else
      assert |rows| > 0;
      var r := ParseBelowHeader(rows, h.index, cols);
      assert r.invalidRows == [] || r.invalidRows[0].rowNumber >= 2;
      assert r != TableFailure(UndetectedColumns);
      r
  }

  /** The rows below the header, numbered from `headerIndex + 2`. */
  function ParseBelowHeader(rows: Grid, headerIndex: nat, cols: Columns): (r: ValidationResult)
    requires headerIndex < |rows|
    ensures r.totalImported == |r.validRows| && r.totalSkipped == |r.invalidRows|
    ensures forall q :: q in r.validRows ==> IsAcceptedRow(q)
    ensures |r.validRows| + |r.invalidRows| + BlankTickerRows(rows[headerIndex + 1..], cols) == |rows| - headerIndex - 1
    ensures forall k :: 0 <= k < |r.invalidRows| ==> headerIndex + 2 <= r.invalidRows[k].rowNumber <= |rows|
    ensures forall k, l :: 0 <= k < l < |r.invalidRows| ==> r.invalidRows[k].rowNumber < r.invalidRows[l].rowNumber
  {
    var part := ClassifyData(rows[headerIndex + 1..], cols, headerIndex + 2);
    ValidationResult(part.valid, part.invalid, |part.valid|, |part.invalid|)
  }

  const EmptyResult := ValidationResult([], [], 0, 0)

  /** `parseTable` once the splitter has produced the grid: an empty grid is
      an empty result, not an error. */
  function ParseTable(grid: Grid): (r: ValidationResult)
    ensures |grid| == 0 ==> r == EmptyResult
    ensures |grid| > 0 ==> r == ParseGrid(grid)
  {
    if |grid| == 0 then EmptyResult else ParseGrid(grid)
  }

  /** `parseTable(text)`: detect the delimiter, split with it, parse the grid.
      `split` stands for Papa.parse with `skipEmptyLines`. */
  function ParseText(text: string, split: (string, char) -> Grid): (r: ValidationResult)
    ensures r.totalImported == |r.validRows| && r.totalSkipped == |r.invalidRows|
    ensures split(text, DetectDelimiter(text)) == [] ==> r == EmptyResult
    ensures r == ParseTable(split(text, DetectDelimiter(text)))
    ensures forall q :: q in r.validRows ==> IsAcceptedRow(q)
  {
    ParseTable(split(text, DetectDelimiter(text)))
  }

  /** `parseCSV` is `parseTable`. */
  function ParseCsv(content: string, split: (string, char) -> Grid): (r: ValidationResult)
    ensures r == ParseText(content, split)
    ensures r.totalImported == |r.validRows| && r.totalSkipped == |r.invalidRows|
  {
    ParseText(content, split)
  }

  /** `parseXLSX` once the workbook reader has produced the first sheet (or
      found none): no sheet and an empty sheet are both "No data found". */
  function ParseXlsx(sheet: Option<Grid>): (r: ValidationResult)
    ensures r.totalImported == |r.validRows| && r.totalSkipped == |r.invalidRows|
    ensures sheet.None? || sheet.value == [] <==> r == TableFailure(NoData)
    ensures sheet.Some? && sheet.value != [] ==> r == ParseGrid(sheet.value)
  {
    match sheet
    case None => TableFailure(NoData)
    case Some(rows) => if |rows| == 0 then TableFailure(NoData) else ParseGrid(rows)
  }

  // ----- positions -----

  function ToPosition(p: PreviewRow): Position {
    Position(p.ticker, p.quantity, p.avgCost)
  }

  /** `validatePositions`: the error-free rows, in order, with ticker,
      quantity and average cost copied. */
  function ValidatePositions(rows: seq<PreviewRow>): (r: seq<Position>)
    ensures |r| <= |rows|
    ensures forall q :: q in r ==> exists p :: p in rows && p.error.None? && ToPosition(p) == q
    ensures forall p :: p in rows && p.error.None? ==> ToPosition(p) in r
  {
    if rows == [] then []
    else
      var rest := ValidatePositions(rows[1..]);
      (if rows[0].error.None? then [ToPosition(rows[0])] else []) + rest
  }

  /** `validatePositions` works row by row, so it keeps the order. */
  lemma {:induction false} ValidatePositionsDistributes(a: seq<PreviewRow>, b: seq<PreviewRow>)
    ensures ValidatePositions(a + b) == ValidatePositions(a) + ValidatePositions(b)
  {
    if a == [] {
      assert a + b == b;
    } else {
      var head := if a[0].error.None? then [ToPosition(a[0])] else [];
      assert ValidatePositions(a + b) == head + ValidatePositions(a[1..] + b) by {
        assert (a + b)[0] == a[0];
        assert (a + b)[1..] == a[1..] + b;
      }
      ValidatePositionsDistributes(a[1..], b);
      assert ValidatePositions(a) == head + ValidatePositions(a[1..]);
      assert head + (ValidatePositions(a[1..]) + ValidatePositions(b)) == (head + ValidatePositions(a[1..])) + ValidatePositions(b);
    }
  }

  // ----- lemmas -----

  /** Line `row.rowNumber` (1-based) of the grid parses to a row carrying
      `row.error`. */
  predicate LineReports(rows: Grid, cols: Columns, row: InvalidRow) {
    && 1 <= row.rowNumber <= |rows|
    && ParseRow(rows[row.rowNumber - 1], cols).Some?
    && ParseRow(rows[row.rowNumber - 1], cols).value.error == Some(row.error)
  }

  /** Each reported row number is the 1-based line of the grid whose parse
      carries the reported error. */
  lemma InvalidRowsPointAtTheirLine(rows: Grid, headerIndex: nat, cols: Columns)
    requires headerIndex < |rows|
    ensures forall row :: row in ParseBelowHeader(rows, headerIndex, cols).invalidRows ==>
      headerIndex + 2 <= row.rowNumber && LineReports(rows, cols, row)
  {
    var data := rows[headerIndex + 1..];
    var first := headerIndex + 2;
    var outcomes := ParseRows(data, cols);
    InvalidRowsReportTheirRow(outcomes, first);
    var r := ParseBelowHeader(rows, headerIndex, cols);
    assert r.invalidRows == Classify(outcomes, first).invalid;
    forall row | row in r.invalidRows
      ensures headerIndex + 2 <= row.rowNumber && LineReports(rows, cols, row)
    {
      assert Reports(outcomes, first, row);
      assert outcomes[row.rowNumber - first] == ParseRow(rows[row.rowNumber - 1], cols);
    }
  }

  /** Every line below the header whose parse carries an error is reported,
      under its 1-based line number. */
  lemma ErrorLinesAreReported(rows: Grid, headerIndex: nat, cols: Columns)
    requires headerIndex < |rows|
    ensures forall k :: headerIndex + 1 <= k < |rows| && ParseRow(rows[k], cols).Some? && ParseRow(rows[k], cols).value.error.Some? ==>
      InvalidRow(k + 1, ParseRow(rows[k], cols).value.error.value) in ParseBelowHeader(rows, headerIndex, cols).invalidRows
  {
    var outcomes := ParseRows(rows[headerIndex + 1..], cols);
    var lines := ParseRows(rows, cols);
    forall k | headerIndex + 1 <= k < |rows|
      ensures outcomes[k - headerIndex - 1] == lines[k]
    {
      assert rows[headerIndex + 1..][k - headerIndex - 1] == rows[k];
    }
    ErrorOutcomesReported(outcomes, lines, headerIndex);
    assert ParseBelowHeader(rows, headerIndex, cols).invalidRows == Classify(outcomes, headerIndex + 2).invalid;
  }

  /** The same over any outcomes that are those of the lines below the
      header. */
  lemma ErrorOutcomesReported(outcomes: seq<Outcome>, lines: seq<Outcome>, headerIndex: nat)
    requires headerIndex < |lines| && |outcomes| == |lines| - headerIndex - 1
    requires forall k :: headerIndex + 1 <= k < |lines| ==> outcomes[k - headerIndex - 1] == lines[k]
    ensures forall k :: headerIndex + 1 <= k < |lines| && lines[k].Some? && lines[k].value.error.Some? ==>
      InvalidRow(k + 1, lines[k].value.error.value) in Classify(outcomes, headerIndex + 2).invalid
  {
    forall k | headerIndex + 1 <= k < |lines| && lines[k].Some? && lines[k].value.error.Some?
      ensures InvalidRow(k + 1, lines[k].value.error.value) in Classify(outcomes, headerIndex + 2).invalid
    {
      var i := k - headerIndex - 1;
      assert outcomes[i] == lines[k];
      InvalidRowComplete(outcomes, headerIndex + 2, i);
    }
  }

  /** The valid rows are exactly the error-free parses of the lines below
      the header. */
  lemma ValidRowsAreErrorFreeLines(rows: Grid, headerIndex: nat, cols: Columns)
    requires headerIndex < |rows|
    ensures
      var r := ParseBelowHeader(rows, headerIndex, cols);
      && (forall q :: q in r.validRows ==> exists n :: headerIndex + 1 <= n < |rows| && ParseRow(rows[n], cols) == Some(q))
      && (forall n :: headerIndex + 1 <= n < |rows| && ParseRow(rows[n], cols).Some? && ParseRow(rows[n], cols).value.error.None? ==>
            ParseRow(rows[n], cols).value in r.validRows)
  {
    var data := rows[headerIndex + 1..];
    var first := headerIndex + 2;
    var outcomes := ParseRows(data, cols);
    ValidRowsExact(outcomes, first);
    var r := ParseBelowHeader(rows, headerIndex, cols);
    assert r.validRows == Classify(outcomes, first).valid;
    forall q | q in r.validRows
      ensures exists n :: headerIndex + 1 <= n < |rows| && ParseRow(rows[n], cols) == Some(q)
    {
      var i :| 0 <= i < |outcomes| && outcomes[i] == Some(q);
      assert ParseRow(rows[headerIndex + 1 + i], cols) == Some(q);
    }
    forall n | headerIndex + 1 <= n < |rows|
      ensures outcomes[n - headerIndex - 1] == ParseRow(rows[n], cols)
    {
    }
  }
}
