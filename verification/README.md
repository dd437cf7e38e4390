# Portfolio import and stock-picker client — a Dafny model

This project models the logic core of a browser portfolio application, together with the small serverless proxy in front of its stock-picker engine.

- **Holdings importer.** Reads pasted text, CSV files and spreadsheet sheets. It detects the delimiter, finds the header row and the ticker, quantity and cost columns, and parses each line into a preview row. It then splits the rows into valid rows, reported rows and dropped rows.
- **Stock-picker client.** Resolves the run URL, builds the request payload, and maps the engine's answer back into the application's `EngineResult`.
- **Local stores.** The portfolio store and the recommendation history.
- **Import dialog logic.** The manual rows, paste parsing and the upload dispatch.
- **Holdings table.** The ticker search, the column sort and the header-click state machine.
- **Risk slider.** The description under the slider.
- **Recommendation page.** Its two list helpers.
- **Proxy.** The request handler.

Every operation is a pure function over immutable data. Browser storage is an explicit store value. Random UUIDs and clock readings are parameters. The CSV splitter and the spreadsheet reader are parameters too, so the importer works on a grid of string cells.

Modules, one per source file, plus four helper modules:

- `Wrappers`: `Option` and `Result`.
- `Text`: ASCII lower and upper case, JavaScript `trim`, `split`, `join`, `includes` and `endsWith`, with the split/join round trips.
- `Decimal`: the prefix parser behind `parseFloat`.
- `Sorting`: an insertion sort over numeric or textual keys, proved sorted and a permutation.
- `Models`: the shared records of `src/types`.
- `ImportService`, `StockPicker`, `PortfolioService`, `HistoryService`, `ImportWizard`, `HoldingsTable`, `RiskSlider`, `RecommendationPage`, `Proxy`.

Two behaviours of the code are easy to misread; both are modelled as written:

- The proxy forwards a request header whose value is an empty list, as an empty string. An empty array is truthy in JavaScript, so the `!value` test does not skip it. `Proxy.ListValuesForwarded` states this.
- When the engine's body cannot be read, the proxy answers 502 with the response headers it had already copied. When the call itself fails, it answers 502 with no headers.

## Model

| member | source | states |
|---|---|---|
| ImportService.DetectDelimiter | src/services/importService.ts:22-37 | Counting only the first five lines: tab when tabs outnumber both commas and semicolons, semicolon when semicolons outnumber commas, comma otherwise (also for empty text) |
| ImportService.CountInSplitLines | src/services/importService.ts:23-32 | Counting a character line by line over the first five split lines is counting it in the text before the fifth line break |
| ImportService.FindHeaderRow | src/services/importService.ts:39-59 | The header row is one of the first five rows and its headers are that row lower-cased and trimmed; an empty grid gives row 0 with no headers |
| ImportService.HeaderRowIsFirstHeaderLike | src/services/importService.ts:42-58 | No row before the chosen one looks like a header; the chosen row is header-like whenever one of the first five is; with none it falls back to row 0 |
| ImportService.FindHeaderFrom | src/services/importService.ts:42-56 | The header scan from a given row stops at row 0 or at a row between it and the fifth, and returns that row's normalised cells |
| ImportService.FindHeaderFromFirst | src/services/importService.ts:42-56 | The header scan from a given row finds the first header-like row at or after it within the first five, else row 0 |
| ImportService.FirstMatchFrom | src/services/importService.ts:70-89 | The column search returns -1 exactly when no later header mentions a synonym, otherwise the first header that does |
| ImportService.FindColumnIndices | src/services/importService.ts:61-92 | Ticker, quantity and cost columns are each independently the first header containing one of that column's synonyms, or -1 |
| ImportService.ResolvedIff | src/services/importService.ts:147-149 | The table can be read exactly when some header names a ticker and some header names a quantity |
| ImportService.ParseRow | src/services/importService.ts:94-131 | A line is skipped exactly when its trimmed ticker cell is blank or missing; otherwise the ticker is upper-cased; a line without error has positive quantity and a cost that is absent or non-negative |
| ImportService.ParseRowErrorOrder | src/services/importService.ts:108-130 | A blank quantity is "Missing quantity"; a quantity that does not read as positive is "Invalid quantity"; a positive quantity with a cost that does not read as non-negative is exactly the invalid-cost case and keeps the quantity; a line is error-free exactly when the quantity is positive and the cost absent or non-negative, and then keeps both numbers |
| ImportService.Classify | src/services/importService.ts:163-180 | Valid plus reported plus dropped lines account for every line; valid rows carry no error; reported line numbers lie in range and strictly increase |
| ImportService.InvalidRowsReportTheirRow | src/services/importService.ts:175-176 | Every reported row names a parsed line that carries exactly that error |
| ImportService.InvalidRowComplete | src/services/importService.ts:175-176 | Every parsed line with an error is reported, under its own line number |
| ImportService.ValidRowsExact | src/services/importService.ts:177-178 | The valid rows are exactly the error-free parsed lines |
| ImportService.ClassifyDistributes | src/services/importService.ts:163-180 | Sorting lines into valid and invalid works block by block: the rows of a table are those of its first part followed by those of its second, with line numbers carried on, so both lists keep source order |
| ImportService.OutcomesAccepted | src/services/importService.ts:108-130 | Every error-free parsed line meets the acceptance conditions |
| ImportService.DroppedAreBlankTickers | src/services/importService.ts:100-106 | The lines silently dropped are exactly those with a blank ticker cell |
| ImportService.ClassifyData | src/services/importService.ts:163-187 | Over the data lines: valid, reported and blank-ticker lines add up to all lines; valid rows are accepted; reported numbers count from the first data line and increase |
| ImportService.ParseGrid | src/services/importService.ts:146-187 | Unresolved columns give exactly the single column-detection error row; otherwise the lines below the header are parsed; totals match the row lists |
| ImportService.ParseBelowHeader | src/services/importService.ts:163-187 | All lines below the header are accounted for; reported numbers are 1-based grid lines after the header, strictly increasing |
| ImportService.InvalidRowsPointAtTheirLine | src/services/importService.ts:163-176 | Each reported row number is the 1-based grid line whose parse has that error |
| ImportService.ErrorLinesAreReported | src/services/importService.ts:163-176 | Every line below the header whose parse has an error is reported under its 1-based line number |
| ImportService.ErrorOutcomesReported | src/services/importService.ts:167-176 | Shifting the line index by the header position, each erroneous line is reported with its own error |
| ImportService.ValidRowsAreErrorFreeLines | src/services/importService.ts:167-179 | Each valid row is the error-free parse of some line below the header |
| ImportService.ParseTable | src/services/importService.ts:134-144 | An empty grid gives an empty result with zero totals; any other grid goes through the shared routine |
| ImportService.ParseText | src/services/importService.ts:134-139 | Text is the table of its lines split on the delimiter detected from the text itself; valid rows are accepted and totals match the lists |
| ImportService.ParseCsv | src/services/importService.ts:190-192 | CSV content is read exactly as pasted text is |
| ImportService.ParseXlsx | src/services/importService.ts:194-234 | A missing or empty first sheet gives exactly the single no-data error row; any other sheet goes through the shared routine |
| ImportService.ValidatePositions | src/services/importService.ts:263-271 | The positions are exactly the error-free rows' ticker, quantity and cost |
| ImportService.ValidatePositionsDistributes | src/services/importService.ts:263-271 | Positions come out row by row, so the rows' order is kept |
| StockPicker.ResolveRunUrl | src/services/stockPickerRunService.ts:15-21 | The URL always ends in the run path; a URL already ending in it is kept; otherwise one trailing slash is dropped before appending |
| StockPicker.ResolveRunUrlIdempotent | src/services/stockPickerRunService.ts:15-21 | Resolving a resolved URL changes nothing |
| StockPicker.RunUrlIsProxyBase | src/services/stockPickerRunService.ts:13-21 | The configured base already names the run endpoint and is used unchanged |
| StockPicker.MapStrategy | src/services/stockPickerRunService.ts:41-45 | Case-insensitively "growth" and "diversify" map to their strategies, anything else to HOLD |
| StockPicker.MapAction | src/services/stockPickerRunService.ts:47-53 | Case-insensitive action names map to their actions; a missing or unknown decision is WAIT |
| StockPicker.MapStrategyRoundTrip | src/services/stockPickerRunService.ts:41-45 | Every strategy's lower-case name maps back to it |
| StockPicker.MapActionRoundTrip | src/services/stockPickerRunService.ts:47-53 | Every action's lower-case name maps back to it |
| StockPicker.MappingsIgnoreCase | src/services/stockPickerRunService.ts:41-53 | Upper-casing a name does not change its mapping |
| StockPicker.NumberOr0 | src/services/stockPickerRunService.ts:61-63 | A missing allocation figure reads as 0 |
| StockPicker.MapAllocation | src/services/stockPickerRunService.ts:55-65 | No allocation gives all zeros; each missing key gives 0 and each present key its value |
| StockPicker.MapAllocationRoundTrip | src/services/stockPickerRunService.ts:55-65 | A breakdown survives the trip through the engine's record |
| StockPicker.StringOr | src/services/stockPickerRunService.ts:69-74 | A missing or empty string falls back; a non-empty one is kept |
| StockPicker.DefaultRuleId | src/services/stockPickerRunService.ts:69 | A generated rule id is "rule_" followed by the decimal numeral of the position plus one |
| StockPicker.MapRule | src/services/stockPickerRunService.ts:68-75 | Every string field of a mapped rule is non-empty; a missing id is rule_ plus the 1-based position; no name and no rationale gives "Rule" |
| StockPicker.MapRuleTrace | src/services/stockPickerRunService.ts:67-76 | One rule per trace entry, in order, each mapped with its own position |
| StockPicker.MapRuleRoundTrip | src/services/stockPickerRunService.ts:67-76 | A rule with non-empty strings survives the trip through the engine's record |
| StockPicker.MapRuleDefaults | src/services/stockPickerRunService.ts:69-74 | An empty trace entry gets every documented fallback |
| StockPicker.MapRuleNameFallsBackToRationale | src/services/stockPickerRunService.ts:70-74 | A rule without a name is named after its rationale key |
| StockPicker.DefaultRuleIdsDistinct | src/services/stockPickerRunService.ts:69 | Generated ids at different positions differ |
| StockPicker.MapRuleTraceDefaultIdsDistinct | src/services/stockPickerRunService.ts:67-76 | A trace with no ids gets pairwise distinct ids |
| StockPicker.FirstResult | src/services/stockPickerRunService.ts:82-88 | Fails, with the documented message, exactly when the response holds no result; otherwise the first listed one |
| StockPicker.Summary | src/services/stockPickerRunService.ts:148 | The summary line names the engine's request id and the number of shortlisted assets |
| StockPicker.ToEngineResult | src/services/stockPickerRunService.ts:138-151 | Fails exactly without a result; otherwise the amount is 0, nothing invalidates, there is no recession probability, and strategy, action, allocation and rules are mapped |
| StockPicker.ToEngineResultRoundTrip | src/services/stockPickerRunService.ts:138-151 | A result of the produced shape, written as the engine's record, maps back to itself |
| StockPicker.StrategyFromRiskTolerance | src/services/stockPickerRunService.ts:91-95 | Growth from 67, diversify from 34 below 67, hold below 34 |
| StockPicker.StrategyMonotone | src/services/stockPickerRunService.ts:91-95 | A higher risk tolerance never gives a more cautious strategy |
| StockPicker.PayloadStrategyRoundTrip | src/services/stockPickerRunService.ts:91-95 | The strategy sent to the engine reads back as itself |
| StockPicker.BuildPayload | src/services/stockPickerRunService.ts:119-136 | The payload carries the run id, the cash and the strategy for the tolerance, with one entry per position in order: a missing cost sent as 0, plus the currency |
| StockPicker.BuildPayloadRecoversPositions | src/services/stockPickerRunService.ts:129-134 | A position with a known cost is recovered exactly from its payload entry |
| PortfolioService.FindIndex | src/services/portfolioService.ts:100 | The index of the first portfolio with that id, or none when no portfolio has it |
| PortfolioService.GetPortfolio | src/services/portfolioService.ts:80-83 | The first stored portfolio with that id, and none exactly when no portfolio has it |
| PortfolioService.GetPositions | src/services/portfolioService.ts:85-88 | The stored positions of the id, or none when nothing is stored |
| PortfolioService.CreatePortfolio | src/services/portfolioService.ts:52-78 | The new portfolio is appended with the given fields and both timestamps set to now; its positions are stored; other positions are kept; it becomes current |
| PortfolioService.UpdatePortfolio | src/services/portfolioService.ts:90-125 | An unknown id fails with "Portfolio not found" and writes nothing; otherwise the first match is replaced in place, supplied fields override, and the timestamp is refreshed; positions are replaced only when supplied |
| PortfolioService.GetPortfolioSnapshot | src/services/portfolioService.ts:127-139 | Fails for an unknown id; otherwise the portfolio's three figures and its positions |
| PortfolioService.CreateThenGet | src/services/portfolioService.ts:52-88 | A portfolio created under a fresh id is found again with its positions and is current |
| PortfolioService.CreateKeepsOthers | src/services/portfolioService.ts:68-74 | Creating leaves every other id's portfolio and positions unchanged |
| PortfolioService.FindIndexAppend | src/services/portfolioService.ts:68-69 | Appending a portfolio with another id does not change any lookup |
| PortfolioService.CreateThenSnapshot | src/services/portfolioService.ts:127-139 | The snapshot of a freshly created portfolio gives back the stored figures and positions |
| PortfolioService.UpdateThenGet | src/services/portfolioService.ts:106-116 | After an update the portfolio is found with the new fields and every other slot is untouched |
| PortfolioService.FindIndexUpdate | src/services/portfolioService.ts:115 | Replacing the first match by a portfolio with the same id keeps it the first match |
| PortfolioService.EmptyUpdateTouchesOnlyTimestamp | src/services/portfolioService.ts:107-113 | An update that supplies nothing changes only the timestamp |
| PortfolioService.UpdateIdempotent | src/services/portfolioService.ts:106-122 | Updating twice with the same fields equals updating once, apart from the timestamp |
| HistoryService.SaveRecommendation | src/services/historyService.ts:23-47 | One record is appended after the earlier ones, holding the ids, the time and every engine-result field |
| HistoryService.OfPortfolio | src/services/historyService.ts:51-52 | Exactly the stored records of that portfolio |
| HistoryService.GetRecommendations | src/services/historyService.ts:49-54 | Exactly the portfolio's records, as a permutation of them, newest first by creation time |
| HistoryService.GetRecommendation | src/services/historyService.ts:56-59 | The first record with that id, and none exactly when no record has it |
| HistoryService.SaveThenList | src/services/historyService.ts:23-54 | A saved record is listed for its portfolio; the list grows by one and keeps every earlier record |
| HistoryService.OfPortfolioAppend | src/services/historyService.ts:42-52 | Filtering after appending one record is filtering before, plus that record if it matches |
| HistoryService.SaveKeepsOtherPortfolios | src/services/historyService.ts:42-54 | Saving for one portfolio leaves another portfolio's list unchanged |
| HistoryService.SaveThenGet | src/services/historyService.ts:42-59 | A record saved under a fresh id is found again by that id |
| ImportWizard.AddManualRow | src/components/ImportWizard.tsx:100-105 | One blank row with the new id is appended and the others are kept |
| ImportWizard.RemoveManualRow | src/components/ImportWizard.tsx:107-109 | Exactly the rows without that id remain |
| ImportWizard.UpdateManualRow | src/components/ImportWizard.tsx:111-117 | The rows with that id get the new field value and everything else is kept |
| ImportWizard.ManualConfirm | src/components/ImportWizard.tsx:119-128 | Confirming never yields more positions than rows, and nothing from no rows |
| ImportWizard.ConfirmExact | src/components/ImportWizard.tsx:119-128 | The confirmed positions are exactly the rows with a non-blank ticker, upper-cased, with their quantity and cost |
| ImportWizard.ConfirmDistributes | src/components/ImportWizard.tsx:119-128 | Confirming works row by row, so the order is kept |
| ImportWizard.ConfirmedTickers | src/components/ImportWizard.tsx:119-126 | Every confirmed ticker is non-blank and upper-case |
| ImportWizard.ConfirmDisabled | src/components/ImportWizard.tsx:381 | The button is disabled exactly when no row has a non-blank ticker |
| ImportWizard.ConfirmDisabledIff | src/components/ImportWizard.tsx:119-128 | The button is disabled exactly when confirming would import nothing |
| ImportWizard.InitialCannotConfirm | src/components/ImportWizard.tsx:35-37 | The opening single blank row cannot be confirmed |
| ImportWizard.RemoveAdded | src/components/ImportWizard.tsx:100-109 | Removing a freshly added row restores the list |
| ImportWizard.RemoveDistributes | src/components/ImportWizard.tsx:107-109 | Removal works row by row, so the order is kept |
| ImportWizard.UpdateIdempotent | src/components/ImportWizard.tsx:111-117 | Applying the same edit twice is applying it once |
| ImportWizard.HandlePasteParse | src/components/ImportWizard.tsx:41-50 | Blank pasted text does nothing; other text is read by the importer |
| ImportWizard.HandlePasteConfirm | src/components/ImportWizard.tsx:52-56 | Without a parsed table nothing is imported; otherwise the importer's positions of its valid rows |
| ImportWizard.UploadKindOf | src/components/ImportWizard.tsx:66-72 | Case-sensitively, ".xlsx" means spreadsheet, otherwise ".csv" means CSV, anything else is unsupported |
| ImportWizard.HandleFileUpload | src/components/ImportWizard.tsx:58-78 | A spreadsheet goes to the sheet reader, a CSV to the text reader, and an unsupported name produces nothing |
| ImportWizard.ConfirmedTablePositionsAccepted | src/components/ImportWizard.tsx:52-56 | Every position handed over from a table comes from an accepted row |
| ImportWizard.ProducedTablesAccepted | src/components/ImportWizard.tsx:41-78 | Every table produced by pasting or uploading contains only accepted rows |
| HoldingsTable.HandleSort | src/components/HoldingsTable.tsx:61-68 | Clicking the current column flips its direction; another column becomes current, largest first |
| HoldingsTable.SortToggleTwice | src/components/HoldingsTable.tsx:61-68 | Two clicks on the current column restore the state |
| HoldingsTable.ClickTwiceNewColumn | src/components/HoldingsTable.tsx:61-68 | Two clicks on a new column leave it sorted smallest first |
| HoldingsTable.FilterByTicker | src/components/HoldingsTable.tsx:36-38 | Exactly the holdings whose lower-cased ticker contains the lower-cased search term |
| HoldingsTable.EmptySearchKeepsAll | src/components/HoldingsTable.tsx:36-38 | An empty search keeps every holding, in order |
| HoldingsTable.SortKey | src/components/HoldingsTable.tsx:41-54 | The ticker column compares as text; every other column compares as a number |
| HoldingsTable.FilteredAndSorted | src/components/HoldingsTable.tsx:35-59 | The displayed rows are a permutation of the matches, ordered by the current column in its direction |
| HoldingsTable.DisplayedAreMatches | src/components/HoldingsTable.tsx:35-59 | A holding is displayed exactly when it matches the search |
| HoldingsTable.NumericColumnOrdered | src/components/HoldingsTable.tsx:51-54 | Numeric columns come out non-decreasing ascending and non-increasing descending, a missing cost counting as 0 |
| HoldingsTable.TickerColumnOrdered | src/components/HoldingsTable.tsx:45-49 | The ticker column comes out in text order, reversed when descending |
| Sorting.Sort | src/components/HoldingsTable.tsx:41-55 | The comparator sort returns a permutation of its input ordered by the key |
| RiskSlider.Scan | src/components/RiskToleranceSlider.tsx:44-49 | The scan settles on its starting candidate or one of the keys |
| RiskSlider.ScanNearest | src/components/RiskToleranceSlider.tsx:44-49 | The scan ends on a key at least as near as every other; among equally near keys, on the smallest |
| RiskSlider.ClosestKey | src/components/RiskToleranceSlider.tsx:40-49 | The chosen key is one of the table's five keys |
| RiskSlider.ClosestKeyNearest | src/components/RiskToleranceSlider.tsx:40-49 | The chosen key is a nearest one, and the smallest of the nearest ones |
| RiskSlider.GetDescription | src/components/RiskToleranceSlider.tsx:39-52 | The description is one of the table's entries |
| RiskSlider.ClosestKeyBands | src/components/RiskToleranceSlider.tsx:39-52 | Over all values: up to 12.5 gives 0, up to 37.5 gives 25, up to 62.5 gives 50, up to 87.5 gives 75, above that 100 |
| RiskSlider.BandsOfIntegers | src/components/RiskToleranceSlider.tsx:10-37 | On whole numbers the nearest keys give the bands 0-12, 13-37, 38-62, 63-87, 88-100 |
| RiskSlider.LabelBands | src/components/RiskToleranceSlider.tsx:39-52 | Every slider position shows the label of its band |
| RiskSlider.KeysShowTheirEntry | src/components/RiskToleranceSlider.tsx:39-52 | A value equal to a key shows that key's own entry |
| RecommendationPage.CleanPieceIsClean | src/pages/RecommendationPage.tsx:26 | A cleaned piece is either empty or a trimmed, upper-case ticker |
| RecommendationPage.CleanPieces | src/pages/RecommendationPage.tsx:26-27 | Cleaning never yields more tickers than pieces |
| RecommendationPage.CleanPiecesMembers | src/pages/RecommendationPage.tsx:26-27 | A ticker is kept exactly when it is non-empty and some piece cleans to it |
| RecommendationPage.CleanPiecesDistributes | src/pages/RecommendationPage.tsx:26-27 | Cleaning works piece by piece: the tickers of two runs of pieces are those of the first followed by those of the second |
| RecommendationPage.CleanPiecesAreClean | src/pages/RecommendationPage.tsx:26-27 | Every kept piece is a clean ticker |
| RecommendationPage.CleanPiecesOfClean | src/pages/RecommendationPage.tsx:26-27 | Clean tickers pass through cleaning unchanged |
| RecommendationPage.ParseDecisionTickers | src/pages/RecommendationPage.tsx:21-28 | No decision or an empty one gives no tickers; every ticker is clean; at most one more ticker than "+" signs; a ticker is listed exactly when it is non-empty and some "+"-separated piece cleans to it |
| RecommendationPage.DecisionConcat | src/pages/RecommendationPage.tsx:21-28 | Two baskets joined by "+" read as the tickers of the first followed by those of the second |
| RecommendationPage.DecisionRoundTrip | src/pages/RecommendationPage.tsx:21-28 | Clean tickers joined with "+" read back as the same list |
| RecommendationPage.FlattenShortlist | src/pages/RecommendationPage.tsx:30-32 | As many suggestions as all buckets together, and a suggestion is present exactly when some bucket holds it |
| RecommendationPage.FlattenDistributes | src/pages/RecommendationPage.tsx:30-32 | Flattening works bucket by bucket, so the order is kept |
| Proxy.BuildUpstreamHeaders | api/proxy/stock-picker/run.ts:18-35 | No forwarded header is hop-by-hop, and every forwarded name is lower-case |
| Proxy.UpstreamHeadersExact | api/proxy/stock-picker/run.ts:18-35 | A name is forwarded exactly when some non-empty, non-hop-by-hop header sets it; its value is that of the last such header, with a list joined by ", " |
| Proxy.ListValuesForwarded | api/proxy/stock-picker/run.ts:21-29 | A list value is forwarded joined by ", ", even when empty; an empty string value is skipped |
| Proxy.FilterResponseHeaders | api/proxy/stock-picker/run.ts:52-55 | A response header is relayed exactly when its name is not hop-by-hop |
| Proxy.FilterKeepsClean | api/proxy/stock-picker/run.ts:52-55 | Headers with no hop-by-hop name are all relayed, unchanged and in order |
| Proxy.FilterDistributes | api/proxy/stock-picker/run.ts:52-55 | Relaying works header by header, so the order is kept |
| Proxy.FilterIdempotent | api/proxy/stock-picker/run.ts:52-55 | Relaying relayed headers changes nothing |
| Proxy.Handle | api/proxy/stock-picker/run.ts:37-63 | A request reaches the engine exactly for POST, with the body and the headers built from the client's; other methods get 405; the status is 405, 502 or the engine's |
| Proxy.MethodGate | api/proxy/stock-picker/run.ts:38-41 | Any method other than exactly "POST" gets 405 with "Allow: POST", and nothing is sent |
| Proxy.PassThrough | api/proxy/stock-picker/run.ts:50-58 | A readable engine response is relayed with its status, cleaned headers and text |
| Proxy.Transparent | api/proxy/stock-picker/run.ts:43-58 | With clean response headers the engine gets a POST of the body with the built headers, and the client gets the engine's status, headers and text unchanged |
| Proxy.BadGateway | api/proxy/stock-picker/run.ts:59-62 | A failed call, or a body that cannot be read, gives 502 "Bad Gateway" |
| Decimal.ParseFloat | src/services/importService.ts:112-119 | A number is read only from text that contains a digit |
| Decimal.ParseFloatOfDigitStart | src/services/importService.ts:112-119 | Text starting with a digit reads as its longest unsigned numeric prefix |
| Decimal.UnsignedPrefixOfInteger | src/services/importService.ts:112-119 | Digits followed by text that cannot continue a number read as the integer of the digits |
| Decimal.UnsignedPrefixOfDecimal | src/services/importService.ts:112-119 | `a.b` followed by no exponent reads as the digits of `a` and `b` scaled down by the length of `b` |
| ImportService.ParseNumberThousands | src/services/importService.ts:112-119 | A thousands separator is dropped before reading: `a,b.c` reads as the digits of `a`, `b` and `c` scaled down by the length of `c` (`1,234.50` is 1234.5) |
| ImportService.ParseNumberIgnoresTail | src/services/importService.ts:112-119 | A quantity such as `12abc` reads as its leading digits (12) |

## Left out

- Papa Parse and the spreadsheet reader are parameters: a split function from text and delimiter to a grid, and the first sheet as an optional grid. Their quoting and cell typing are not modelled, and every cell is a string.
- Numbers are unbounded reals, not IEEE doubles. `NaN` and `Infinity` are not modelled. `parseFloat` is modelled as a decimal prefix parser with an optional exponent; the text "Infinity" is not recognised.
- Case mapping is ASCII only: `toLowerCase`/`toUpperCase` leave every non-ASCII letter unchanged. `localeCompare` is modelled as lexicographic code-unit order.
- Sorting.Sort: stability (ties keep their input order) is not stated, only that the result is ordered and a permutation.
- `localStorage`, `sessionStorage` and the JSON round trip are replaced by an explicit store value. Unreadable stored JSON is not modelled.
- `crypto.randomUUID` and `new Date()` are parameters.
- `runPortfolio` (the network call), `saveLastRun` and `getLastRun` are left out. They are I/O around the modelled mappers.
- `setCurrentPortfolioId` and `getCurrentPortfolioId` are modelled only through the store's current id, which `createPortfolio` sets.
- `mapInvalidationConditions` always returns an empty list, and `ToEngineResult` states that directly.
- StockPicker.MapRuleTrace: the `String(...)` and `Number(...)` coercions of non-string and non-number trace fields are not modelled. Fields are typed, so a 0 or a non-string value cannot be given.
- StockPicker.FirstResult: `Object.values` orders integer-like keys first. The results are given as an already ordered list.
- Async execution, React state and rendering, the mock engine and the dashboard page are left out.
- HoldingsTable: the `null` sort field (never reached from the initial state) and sorting by `id` are left out.
- The proxy's `fetch` is a parameter: its outcome is given as no response, or a status, headers and an optional body text. Serialising the request body with `JSON.stringify` is taken as a given string.
- Header-value validation by `Headers.set` and whitespace normalisation are not modelled.
- Node's case-insensitive overwrite of repeated response header names is not modelled: relayed headers are an ordered list.
- Proxy.Handle: the validity of the status code passed to `res.status` is not checked.
