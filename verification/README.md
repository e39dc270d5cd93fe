# BILLING_VIA_AI: a Dafny model of the kiosk's billing core

BILLING_VIA_AI is a self-checkout kiosk. A camera watches a tray, and a push
button on an Arduino sends the line `1` over a serial link. The first press
freezes the last camera frame. A YOLO detector then finds the dishes and a
CNN classifies each one. The labels are deduplicated and priced from the menu
(`MENU.json`). The bill is shown and appended to a CSV ledger (`history.csv`).
The next press returns the display to the live feed.

This project models the three pieces of sequential logic in
`BILLING_VIA_AI.py`. Each is a pure function over immutable data.

- **Capture, label, dedup, price** (`Labels`, `Menu`, `Pipeline`).
  - The detector and classifier become a sequence of per-region `Outcome`s:
    `Raised` for a crop or classify step that threw, or the raw class index.
  - `Labels.LabelOf` is the fixed `CNN_LABELS` table.
  - `Menu.PriceOf` is the first-match price scan over menu entries, whose
    names are canonicalised by `Labels.Canonical` (spaces become `_`, then
    upper-case).
  - `Pipeline.Process` is the region loop. As in the code, it builds two
    separate lists: `items` holds the accepted labels, and `prices` holds
    the prices that were found. `Amount()` is `sum(prices)`.
- **Ledger** (`History`).
  - Rows carry `STT`, an opaque time string, the six `Mon` slots,
    `Thanhtien` and `Total`.
  - `History.Append` adds one row numbered `len + 1`, with the first six
    labels padded with `""`. It then recomputes the whole `Total` column as
    the running sum (`History.Cumulate`).
  - The kiosk always starts from a truncated ledger
    (`History.Initialize(true, _)`).
- **Trigger state machine** (`Trigger`).
  - `Trigger.Step` handles one serial line. The line is stripped
    (`Trigger.Strip`) and only `1` counts. A `1` runs a capture when
    `captured` is false and a reset when it is true.
  - `Trigger.Capture` returns early when no frame has been read yet.
  - A capture can raise in two places. If the detection call raises,
    nothing has changed. If saving to the ledger raises, the result is
    already displayed and `is_live` is already false. Either way the step
    ends in `Abort`, the serial loop's bare `except` swallows it, and
    `captured` stays unset.
  - The shown result keeps the bill as the capture builds it (`items` and
    the separate `prices`). It also keeps the display lines, each dish with
    its own price (see Findings).
  - `Trigger.Poll` is one tick of `_loop_serial`. It stops right after the
    first line that raises and leaves the unread lines in the buffer.
  - `Trigger.Run` is the plain fold over all lines. `Trigger.CameraTick` is
    the frame refresh, which is gated on `is_live`.

All source paths below are relative to the repository root.

## Model

| member | source | states |
|---|---|---|
| Labels.LabelOf | BILLING_VIA_AI.py:45-49 | The label table maps exactly the indices 0..9. Every label is non-empty and already in canonical form, so a matching menu name can be found for it. |
| Labels.LabelOfInjective | BILLING_VIA_AI.py:45-49 | Distinct indices have distinct labels, so deduplicating labels is the same as deduplicating recognised classes. |
| Labels.CanonicalShape | BILLING_VIA_AI.py:280 | `MON.replace(' ','_').upper()` turns every space into `_` and every ASCII lower-case letter into its upper-case form, and leaves every other character alone. The result is canonical, with no space and no lower-case ASCII letter left. |
| Labels.CanonicalIdempotent | BILLING_VIA_AI.py:280 | Canonicalising twice gives the same as canonicalising once. |
| Labels.CanonicalFixesCanonical | BILLING_VIA_AI.py:280 | A name already in label form is left unchanged. |
| Pipeline.CanonicalExamples | BILLING_VIA_AI.py:280 | The mixed-case menu names `CanhChua` and `com` reach the labels `CANHCHUA` and `COM`. |
| Menu.PriceOfIsFirstMatch | BILLING_VIA_AI.py:279-282 | Both directions of the first-match rule. A price is found exactly when the first matching entry exists and has a price. When it exists, the lookup returns that entry's price or nothing. |
| Menu.PriceOfSkipsOtherNames | BILLING_VIA_AI.py:279-282 | A readable entry that does not name the label can be removed from the menu without changing the price found. |
| Pipeline.PricesOf | BILLING_VIA_AI.py:279-282 | Each item adds at most one price, so `len(prices) <= len(items)`. |
| Pipeline.PricesOfFull | BILLING_VIA_AI.py:279-282 | `len(prices) == len(items)` holds exactly when every listed item is priced. |
| Pipeline.ProcessInvariant | BILLING_VIA_AI.py:270-284 | After the loop, `items` has no duplicates. A label is in `items` exactly when some region classified to it. `prices` is the list of found prices for `items`, in item order. |
| Pipeline.ProcessIsFirstOccurrences | BILLING_VIA_AI.py:270-278 | `items` lists each recognised label in order of its first successful classification. |
| Pipeline.FirstOccurrencesSnoc | BILLING_VIA_AI.py:277-278 | One loop iteration keeps the first-occurrence ordering. A repeated label is skipped, and a new label is appended at the end. |
| Pipeline.ProcessItemsAreTheFirstOccurrences | BILLING_VIA_AI.py:270-278 | The first-occurrence description determines `items`. Any list that meets it is the one the loop builds. |
| Pipeline.ProcessSkip | BILLING_VIA_AI.py:270-284 | A region whose iteration changes nothing can be removed from the detector's output without changing the bill, and the regions after it are still processed. |
| Pipeline.SkipsUnrecognisedRegion | BILLING_VIA_AI.py:272-284 | A region whose crop or classification raises, or whose index is not in the label table, adds nothing to `items` or `prices` and does not stop later regions. |
| Pipeline.SkipsRepeatedLabel | BILLING_VIA_AI.py:277 | A region whose label an earlier region already produced is neither listed nor billed again. |
| Pipeline.AmountCountsEveryItem | BILLING_VIA_AI.py:286 | `sum(prices)` counts every priced item, including those past the six ledger slots. Splitting the items at any point splits the amount into the two parts' sums. |
| Pipeline.ScenarioDuplicateDish | BILLING_VIA_AI.py:270-286 | For regions CANHCHUA, CANHCHUA, COM priced 15000 and 5000: `items = [CANHCHUA, COM]` and the amount is 20000. |
| Pipeline.ScenarioUnpricedDish | BILLING_VIA_AI.py:276-286 | A dish with no menu entry is still listed but adds no price. For GACHIEN (unpriced) and COM (5000): `items = [GACHIEN, COM]`, `prices = [5000]`, amount 5000. |
| Pipeline.ScenarioMenuPrices | BILLING_VIA_AI.py:279-282 | The menu `CanhChua`/15000, `com`/5000 prices CANHCHUA and COM and does not price GACHIEN. |
| Pipeline.ZipLines | BILLING_VIA_AI.py:299 | The display pairs `items[i]` with `prices[i]` and stops at the shorter list. |
| Pipeline.ZipMisattributesPrice | BILLING_VIA_AI.py:299 | With GACHIEN unpriced and COM at 5000, the display shows GACHIEN at 5000 and does not show COM. |
| Pipeline.ItemLines | BILLING_VIA_AI.py:299 | Corrected display: one line per listed dish, showing that dish's own price, or no price when the menu has none. |
| Pipeline.ItemLinesShowBillPrices | BILLING_VIA_AI.py:299-306 | The prices on the corrected lines, in order, are exactly the bill's `prices` list, so they add up to the total shown. |
| Pipeline.ZipRightWhenAllPriced | BILLING_VIA_AI.py:299 | When every listed dish is priced, the positional zip agrees line by line with the corrected display. |
| Pipeline.PricedListIsLookup | BILLING_VIA_AI.py:279-282 | When every item is priced, `prices[i]` is the price of `items[i]`. |
| History.Slots | BILLING_VIA_AI.py:347 | `Mon1..Mon6` hold `items[0..5]`, padded with `""` when there are fewer than six items. |
| History.SlotsRoundTrip | BILLING_VIA_AI.py:347 | Reading the slots back up to the first empty one gives exactly the first six items. |
| History.Cumulate | BILLING_VIA_AI.py:351-352 | `cumsum` keeps every other column. Each row's `Total` is the sum of `Thanhtien` over that row and all rows before it. |
| History.Append | BILLING_VIA_AI.py:337-353 | The ledger gains exactly one row with `STT = len + 1`, the given time, the padded slots and the full amount. Earlier rows keep every column except `Total`, and the `Total` column holds running sums. |
| History.AppendKeepsValid | BILLING_VIA_AI.py:345-352 | An append keeps the ledger well kept: rows numbered 1, 2, 3, …, six slots each, and running totals. |
| History.AppendAllKeepsValid | BILLING_VIA_AI.py:345-352 | Any number of appends keeps the ledger well kept. |
| History.AppendToMissingFile | BILLING_VIA_AI.py:339-345 | When the ledger file is missing, the append starts again at row 1, and that row's total is its own amount. |
| History.LedgerFromFreshStart | BILLING_VIA_AI.py:158 | Starting from the ledger truncated at start-up (lines 179-184), the k-th append is row k. That row has `STT = k` (line 345), the k-th time stamp and items, and the k-th amount. |
| History.FreshTotalsAreAmounts | BILLING_VIA_AI.py:351-352 | On a freshly truncated ledger, row k's `Total` is the sum of the first k amounts. |
| History.ScenarioThreeCaptures | BILLING_VIA_AI.py:345-352 | Three captures billed 10000, 0 and 5000 give rows 1, 2, 3 with totals 10000, 10000, 15000. |
| Trigger.TrimStartShape | BILLING_VIA_AI.py:248 | The leading part of `strip()` removes a whitespace prefix and all of it. |
| Trigger.TrimEndShape | BILLING_VIA_AI.py:248 | The trailing part of `strip()` removes a whitespace suffix and all of it. |
| Trigger.TriggerShape | BILLING_VIA_AI.py:248-249 | A line is recognised exactly when it is a single `1` with only whitespace around it. |
| Trigger.Step | BILLING_VIA_AI.py:245-263 | Only a `1` line changes state. When `captured` is true, `1` resets: `captured` becomes false, the view is live, the result is cleared and the ledger is untouched. When `captured` is false, `1` captures, and `captured` becomes true exactly when the capture does not raise. Without a frame, only `captured` changes. With a frame, the step raises exactly when the detection or the save raises. A detection that raises changes nothing. A save that raises (lines 340, 353) leaves the result shown and the view frozen (line 294), with the ledger unchanged. Otherwise the display freezes on the bill, and the bill is appended to the ledger (line 286). |
| Trigger.Poll | BILLING_VIA_AI.py:245-259 | One serial tick consumes at least one waiting line. The lines it leaves unread are a suffix of the buffer. |
| Trigger.PollStopsAtRaise | BILLING_VIA_AI.py:246-257 | A tick that leaves lines unread stopped right after a raising line. The lines before that one were each handled in order, and the tick ends in the state the raising line left. |
| Trigger.PollStopsAtFirstRaise | BILLING_VIA_AI.py:246-257 | The first line that raises ends the tick. The tick returns the state that line left, and every later line stays unread in the buffer. The lines before it are handled in order. |
| Trigger.PollDrainsWithoutFailure | BILLING_VIA_AI.py:247-255 | When no capture can raise, one tick reads the whole buffer and handles every line in order. |
| Trigger.PollThenRun | BILLING_VIA_AI.py:245-259 | Running a poll and then folding over the lines it left unread gives the same as folding over the whole buffer. |
| Trigger.DrainIsRun | BILLING_VIA_AI.py:245-259 | A swallowed exception only defers the remaining lines. Polling until the buffer is empty gives the same result as handling every line once, where a failed capture keeps what it changed before it raised. |
| Trigger.CameraTick | BILLING_VIA_AI.py:232-237 | While a result is shown the frame stays frozen. While live, a successful read makes a frame available. Nothing else changes. |
| Trigger.StartInv | BILLING_VIA_AI.py:150-158 | A new session is live, has nothing captured and has an empty ledger. It satisfies the invariant, and also "live whenever nothing is captured". |
| Trigger.StepKeepsInv | BILLING_VIA_AI.py:245-263 | Every line, including one whose capture raises, keeps the invariant: the view is live exactly when no result is shown (`is_live`, lines 294 and 381), and the ledger is well kept. |
| Trigger.RunKeepsInv | BILLING_VIA_AI.py:245-259 | The invariant holds after any sequence of lines. |
| Trigger.StepKeepsSettled | BILLING_VIA_AI.py:250-255 | When the ledger save does not raise, a line also keeps "live whenever nothing is captured". |
| Trigger.RunKeepsSettled | BILLING_VIA_AI.py:245-259 | Over lines whose captures never fail in the save, "live whenever nothing is captured" holds throughout. |
| Trigger.SaveFailureRecaptures | BILLING_VIA_AI.py:250-252 | A save that raises (lines 340, 353) after the display froze at line 294 leaves `captured` false while the result is shown. The next `1` then captures again instead of resetting, and a successful second capture appends a ledger row. |
| Trigger.CameraTickKeepsInv | BILLING_VIA_AI.py:232-237 | The camera loop keeps the invariant, including "live whenever nothing is captured". |
| Trigger.RunIgnoresOtherLines | BILLING_VIA_AI.py:249 | Lines that do not strip to `1` cause no transition. |
| Trigger.RunParity | BILLING_VIA_AI.py:249-255 | With no failing detection, after n recognised triggers `captured` has flipped exactly when n is odd. |
| Trigger.RunLedgerGrowth | BILLING_VIA_AI.py:250-252 | With a frame and no failures, n triggers append one row per capture: (n+1)/2 rows from an uncaptured state and n/2 rows from a captured one. |
| Trigger.RunWithoutFrame | BILLING_VIA_AI.py:262-263 | With no frame yet, captures write nothing to the ledger, but `captured` still toggles on every trigger. |
| Trigger.ScenarioPressTwice | BILLING_VIA_AI.py:245-259 | After a frame is read, the first `1` shows the result and writes row 1. A second `1\n` returns to live and writes nothing. |
| Trigger.ScenarioZeroLines | BILLING_VIA_AI.py:247-249 | Repeated `0` lines, with or without line endings, leave a fresh session unchanged. |

## Left out

- The tkinter UI is presentation only and is not modelled. This covers `CommandMenuApp`, backgrounds, overlays, button hit-testing, text placement in `_display_result`, `tap_to_send_money`, `_show_history`, `close` and the fullscreen toggles. The displayed result is modelled only as its lines and total.
- Camera I/O and `_zoom_frame` (float division by `ZOOM_FACTOR`, `cv2.resize`) are left out. The frame is reduced to "a frame has been read" (`hasFrame`), and frame contents are not modelled.
- YOLO and CNN inference, `np.argmax`, crops, normalisation and the annotated copy with drawn boxes are foreign ML and image calls. They are replaced by the sequence of region outcomes.
- Serial I/O, `in_waiting`, `readline`, `decode(errors='ignore')` and `find_arduino_port` are hardware plumbing. Lines arrive as decoded strings, each paired with the detection a capture on it would run.
- The timing between the two polling loops is not modelled. `Trigger.Drain` assumes no camera tick and no new data between serial ticks.
- The pandas CSV read/write, `os.makedirs` and `resource_path` are file I/O. The ledger is an in-memory sequence of rows. A missing file reads as empty (`History.Read`). Other read errors, and write errors, are modelled only as `Trigger.SaveFails`, which leaves the ledger unchanged. The empty-to-NaN change when empty slots are read back is not modelled.
- `datetime.now()` is clock I/O. The time stamp is an opaque string supplied with each detection.
- `_load_menu` (JSON parsing, the error dialog, the `[]` fallback) is file I/O. The menu is a parameter, a list of entries whose `MON`/`GIA` fields may be missing.
- A `GIA` value that is not a number is not modelled. Prices are integers, so the `TypeError` that `sum(prices)` could raise does not arise.
- Exceptions from the tkinter canvas calls in `_display_result` are not modelled. A raising `pd.read_csv` (other than a missing file) or `df.to_csv` is modelled as `SaveFails`: the ledger is unchanged and nothing is written.
- Labels.Canonical: only ASCII letters are upper-cased, but Python's `str.upper` also maps some non-ASCII characters, and a few of them map to ASCII (`ı` becomes `I`, `ſ` becomes `S`).
- Trigger.Strip: strips ASCII whitespace only (space, tab to carriage return, 0x1c-0x1f). Python's `strip` also removes Unicode whitespace such as U+00A0.
- pandas stores the `Total` column as 64-bit integers. The model's integers are unbounded, so overflow past 2^63 is not modelled.
- Trigger.Capture: the shown result keeps the bill as the code keeps it. Its display lines are the corrected `Pipeline.ItemLines`, not the positional zip the code draws at line 299. The as-written drawing is `Pipeline.ZipLines` of the stored bill (see Findings).

Facts about the code that the model keeps:

- The ledger is truncated at every start (lines 158 and 183-184).
- An append starts from an empty table only when the file is missing (line 341).
- A menu entry whose `MON` cannot be read ends the price scan for that label (lines 280 and 283). The label stays listed but unpriced.
- Items and prices are two separate lists (lines 266, 278 and 281). An unpriced item has no element in `prices`.

## Findings

| source | as written | input that shows it | evidently intended | confidence | as-written member | corrected member |
|---|---|---|---|---|---|---|
| BILLING_VIA_AI.py:299 | `zip(items, prices)` pairs dish i with the i-th price found, but an unpriced dish adds no element to `prices`. | The menu prices only `com` (5000), and the regions classify as GACHIEN then COM. Then `items = [GACHIEN, COM]` and `prices = [5000]`, so the display shows "GACHIEN 5000" and does not show COM. | Each listed dish is shown next to its own price, or with no price when the menu has none. | not executed; follows from the code as read | Pipeline.ZipMisattributesPrice | Pipeline.ItemLines |
