# Resource monitor: per-core and per-stick rows

A Dafny model of the data logic inside `ResourceMonitor.update_stats` of a
small PyQt desktop resource monitor. Once a second the monitor refreshes two
tabs whose rows it grows on demand:

- the **CPU** tab holds one label/bar pair per logical core, `Core i`;
- the **Memory** tab holds one pair per synthetic 8 GiB "RAM stick". The
  number of sticks is the total memory divided by 8 GiB, rounded up. The used
  bytes are poured into the sticks from the left through a running counter.

Each tab's layout is a flat list of widgets. Item `2i` is the label and item
`2i + 1` the bar of row `i`. For each new value `i`, the code compares `i`
with `count() // 2`. When `i` is past the last row it appends a fresh pair.
Otherwise it reuses pair `i`. Either way it then writes the value through
`update_resource`: the bar gets `int(value)`, the label gets the name and
value. Rows are never removed.

Files:

- `Basics.dfy`: the shared helpers `Option`, `Min` and `Max`.
- `Display.dfy`: truncation toward zero (`int(x)`), the decimal rendering of
  an index and the resource names `Core i` / `RAM Stick i`.
- `Sticks.dfy`: the stick count, the running counter, the per-stick
  percentage and what the partition promises (shape, order, conservation).
- `Layout.dfy`: the layout as a class over a `seq` of widgets, with the
  row view and the reconciliation function `Reconciled` and its lemmas.
- `Monitor.dfy`: the monitor class holding the two layouts. It has the two
  loops of `update_stats` as methods, each proved against `Reconciled`.

The operating system's readings are parameters: a sequence of per-core
percentages (`real`), and total and used memory (naturals, in bytes).
Percentages are exact reals, because the source divides with Python's true
division. The stick size is a parameter `> 0` of the partition functions.
The code's value `8 * 1024**3` is the constant `Sticks.StickSize`.

## Model

| member | source | states |
|---|---|---|
| `Display.Truncate` | rssmanager.py:194 | `int(value)` rounds toward zero: for `x >= 0` the result is the largest integer not above `x`, for `x < 0` the smallest not below it |
| `Display.TruncatePercent` | rssmanager.py:194 | a percentage in [0, 100] gives a bar value in [0, 100] that equals its floor and never exceeds it |
| `Display.TruncateDoesNotRound` | rssmanager.py:194 | 42.6 and 42.36 both give bar value 42; -2.5 gives -2 |
| `Display.Decimal` | rssmanager.py:153 | an index is written as at least one decimal digit, with no leading zero unless it is 0 |
| `Display.DecimalRoundTrip` | rssmanager.py:153 | reading the decimal text of an index back gives the index |
| `Display.ResourceName` | rssmanager.py:160 | the name `f"Core {i}"` (and, at :179, `f"RAM Stick {i}"`): prefix, a space and `Decimal(i)`; characterised by `ResourceNameInjective` |
| `Display.ResourceNameInjective` | rssmanager.py:153-160 | two rows of one section have the same name `Core i` exactly when they have the same index |
| `Sticks.StickCount` | rssmanager.py:166-167 | the stick count `n` is the ceiling of total over stick size: `total <= n*s`, `(n-1)*s < total` when `n > 0`, and `n == 0` exactly when total is 0 |
| `Sticks.StickCountUnique` | rssmanager.py:167 | any count with those two bounds is the stick count, so the expression is exactly the ceiling |
| `Sticks.StickCountOfMultiple` | rssmanager.py:167 | an exact multiple `k*s` gives `k` sticks: no remainder stick |
| `Sticks.StickCountExamples` | rssmanager.py:166-167 | with 8 GiB sticks, 16 GiB gives 2, 20 GiB gives 3, 8 GiB + 1 byte gives 2 |
| `Sticks.StickSize` | rssmanager.py:166 | the stick size `8 * 1024 * 1024 * 1024` bytes, 8 GiB; used by `StickUsages` in `UpdateSticks` and by the examples |
| `Sticks.Remaining` | rssmanager.py:165-180 | the counter before stick `i`, `max(0, used - i*s)`: never above `used`, 0 exactly when `used <= i*s`, and otherwise `used` minus the `i` sticks already filled; characterised step by step by `RemainingStep` |
| `Sticks.RemainingStep` | rssmanager.py:180 | the counter starts at the used bytes. Each `max(0, used - s)` step keeps it non-negative and never raises it. It drops by exactly `s` while it holds at least `s`, and otherwise becomes 0 |
| `Sticks.RemainingAntitone` | rssmanager.py:180 | the counter never grows from one stick to a later one |
| `Sticks.StickUsage` | rssmanager.py:178 | `min(100, r/s*100)` times the stick size is 100 times `min(r, s)`; it lies in [0, 100], is 100 exactly when `r >= s` and 0 exactly when `r == 0` |
| `Sticks.StickUsageMonotone` | rssmanager.py:178 | more bytes left on the counter never give a smaller percentage |
| `Sticks.UsagesUpTo` | rssmanager.py:169-180 | the percentages of the first `n` sticks: exactly `n` of them, each a percentage in [0, 100] |
| `Sticks.StickUsages` | rssmanager.py:167-180 | the values the stick loop writes: one per stick, `StickCount(total)` of them, each in [0, 100]; characterised by `StickShape` and `SticksShowAllUsed` |
| `Sticks.StickShape` | rssmanager.py:169-180 | stick `i` is at 100 when `(i+1)*s <= used` and at 0 when `used <= i*s`. It is partial exactly when `i*s < used < (i+1)*s`, and then it shows the exact fraction `(used - i*s)/s` |
| `Sticks.UsagesNonIncreasing` | rssmanager.py:169-180 | stick percentages never increase from left to right |
| `Sticks.AtMostOnePartial` | rssmanager.py:169-180 | at most one stick is partially filled |
| `Sticks.StickShownBytes` | rssmanager.py:178-180 | the bytes one stick's percentage stands for are the bytes it takes from the counter, `min(r, s)` |
| `Sticks.ShownBytesOfFills` | rssmanager.py:169-180 | when each of `n` sticks shows what it took from the counter, together they show `min(used, n*s)` bytes |
| `Sticks.SticksShowAllUsed` | rssmanager.py:163-180 | when used does not exceed total, the sticks together show exactly the used bytes |
| `Sticks.StickUsagesExample` | rssmanager.py:163-180 | 20 GiB total with 10 GiB used shows `[100, 25, 0]` |
| `Layout.Written` | rssmanager.py:193-195 | the row `update_resource` leaves: the label reports the name and value, the bar holds `int(value)`; characterised by `RowsOfWrite` and `RowLayout.UpdateResource` |
| `Layout.RowsOfAppendPair` | rssmanager.py:153-156 | appending a label and a bar keeps the label/bar alternation and adds exactly one unwritten row at the end |
| `Layout.RowsOfWrite` | rssmanager.py:193-195 | writing the label and bar of pair `i` changes row `i` alone, to the written row |
| `Layout.Step` | rssmanager.py:152-160 | one pass of the loop: the row count grows by one exactly when `i` is past the last row. The written row sits at `i` (at the end when appended), and every other row is kept |
| `Layout.Reconciled` | rssmanager.py:151-180 | the rows either loop leaves, one `Step` per value in order; characterised by `ReconciledShape`, `ReconciledGrows` and `ReconciledIdempotent` |
| `Layout.StepShape` | rssmanager.py:152-160 | at `i <= count()//2`, appending a fresh pair and then writing it gives the same rows as the step. The row count becomes `max(old, i+1)` and index names are kept |
| `Layout.ReconciledNext` | rssmanager.py:151-160 | the unfolding of `Reconciled` at a prefix `values[..i + 1]`: one more pass is one more `Step`. It is the bridge the loop invariants of `UpdateCores` and `UpdateSticks` use, not a property of its own |
| `Layout.ReconciledShape` | rssmanager.py:151-160 | after reconciling `n` values there are `max(old, n)` rows. Row `i < n` shows value `i` under name `i`, with bar `int(value)`. Every row at or past `n` is as it was |
| `Layout.ReconciledGrows` | rssmanager.py:151-156 | rows never shrink; rows named for their indices stay so; if every row was written, every row still is |
| `Layout.ReconciledIdempotent` | rssmanager.py:151-160 | reconciling the same values twice gives the same rows as once |
| `Layout.AfterTicks` | rssmanager.py:150-180 | the rows of one section after one `Reconciled` per once-a-second tick, in order; characterised by `AfterTicksRowCount` |
| `Layout.AfterTicksRowCount` | rssmanager.py:150-160 | after any run of ticks the row count is the larger of the starting count and the longest tick |
| `Layout.RowLayout.constructor` | rssmanager.py:41 | a new layout is empty |
| `Layout.RowLayout.Count` | rssmanager.py:152 | Qt's `count()`, the number of widgets; the row view `Rows()` has `Count() / 2` rows (the `count() // 2` of :152 and :170) |
| `Layout.RowLayout.AddWidget` | rssmanager.py:155-156 | `addWidget` puts the widget at the end and changes nothing else |
| `Layout.RowLayout.UpdateResource` | rssmanager.py:193-195 | for a percentage in [0, 100] on pair `i`, the bar becomes `int(value)` and the label shows the name and value. The item count is kept, and the row view changes at `i` only |
| `Monitor.ResourceMonitor.constructor` | rssmanager.py:41-54 | both section layouts start empty, separate and well formed |
| `Monitor.ResourceMonitor.EnsureRow` | rssmanager.py:152-159 | when `i >= count()//2` a fresh pair named for `i` is appended; otherwise the layout is untouched. Afterwards row `i` exists |
| `Monitor.ResourceMonitor.UpdateCores` | rssmanager.py:150-160 | for per-core percentages in [0, 100], the per-core loop leaves exactly `Reconciled(old rows, "Core", percents)`: `max(old, n)` rows, each pair still named for its index |
| `Monitor.ResourceMonitor.UpdateSticks` | rssmanager.py:163-180 | the stick loop, with its running counter, leaves exactly `Reconciled(old rows, "RAM Stick", StickUsages(total, used, 8 GiB))` |
| `Monitor.ResourceMonitor.UpdateStats` | rssmanager.py:149-180 | for per-core percentages in [0, 100], one tick reconciles both sections, each against its own layout |

## Left out

- Qt widget construction, styles, tabs, scroll areas, the tray icon and its
  menu, and window dragging (rssmanager.py:15-135, 197-203): presentation.
- The `QTimer` wiring, `main()` and the Windows AppUserModelID call through
  `ctypes` (rssmanager.py:137-140, 205-220): event loop and foreign calls.
- The psutil reads (`cpu_percent`, `virtual_memory`, `disk_usage`,
  `cpu_count`): their results are the methods' parameters.
- The three fixed Overview rows (rssmanager.py:145-147): these are the same
  `update_resource` on fixed widgets fed straight from psutil, so they are
  not modelled as separate rows.
- The label text `f'{name}: {value:.1f}%'`, the fresh caption `"Core i:"`
  and the System Info text (rssmanager.py:153, 171, 183-188, 195): a label
  holds its name and exact value, and decimal rendering of floats is not
  modelled.
- The `try`/`except` around the tick (rssmanager.py:143, 190-191): a failure
  part-way through can leave a partial update, which has no contract beyond
  the logged message.
- Float rounding: percentages and the division at rssmanager.py:178 are
  exact reals, not IEEE doubles.
- Widget identity: widgets are values in the layout's item list. The model
  writes a label or bar by replacing its item, where the source mutates the
  object that `itemAt` returns. Aliasing between widgets is not modelled.
- The value of a fresh progress bar before its first write is not modelled
  (`Bar(None)`): the loop writes every new pair right after creating it.
- `Remaining` and `StickUsage` take `used` as a natural. What psutil reports
  (used at most total) matters only to `Sticks.SticksShowAllUsed`, which
  requires it; everything else holds for any used value.
- The stick percentage is clamped only from above by `min(100, ...)`. The
  lower bound 0 holds because the running counter never goes negative.
- The bar's range: Qt's `QProgressBar.setValue` ignores a value outside
  the bar's range (0..100 by default), which the model does not represent.
  `Layout.RowLayout.UpdateResource` and the methods that call it therefore
  take only percentages in [0, 100]. psutil reports per-core percentages
  in that range, and `Sticks.StickUsage` proves it for the sticks.
