# Paysplit allocation model

A Dafny model of the allocation logic in the paysplit widget
(`static/paysplit/paysplit.js`). The widget splits an amount across up to ten named
categories. Each category has an integer percentage share. The user changes the
split in four ways: adding a category, deleting one, dragging the divider between
two neighbouring categories, and nudging a divider with the arrow keys.

The project has three modules:

- `Allocation` (allocation.dfy): the data model (`Category`, `Refusal`, `Outcome`,
  `Op`), the constants (ten-category limit, ten-percent borrow cap, colour palette)
  and one pure function per operation: `Added`, `Deleted`, `Renamed`, `Dragged`
  (with its two cases `Borrowed` and `Slid`), `KeyAdjusted`. It also holds the two
  views: the total with its warning, and the divider positions (`DividerAt`).
- `AllocationLaws` (laws.dfy): lemmas about those functions. They cover
  conservation of the total, which indices each operation changes, the exact
  shares handed out, where the dividers end up, and the invariant `Healthy`:
  one to ten categories, no negative share, shares adding up to 100. `Healthy`
  is preserved by every operation, so from the defaults every share stays in
  [0, 100] whatever the user does.
- `PaySplit` (paysplit.dfy): the script's module-level state as a class `Widget`.
  Its fields are `categories`, `colorIndex`, `isDragging` and `dragDivider`. Each
  handler is a method that updates them in place, with the source's loops and
  loop invariants. Each method is proved to produce exactly the corresponding
  `Allocation` function of the old state. The add, delete, rename, drag and
  keyboard handlers are also proved to keep `Healthy`, and a confirmed reset
  ends in a `Healthy` list. Loading a saved list takes that list as it is, so
  `LoadSavedValues` makes no `Healthy` promise. The scans inside
  the handlers are stand-alone read-only methods: the largest-share scan, the
  prefix sum before a divider, and the donor search.

Modelling choices:

- Percentages are mathematical integers. The source only adds, subtracts,
  halves and divides them by a positive count, and the values stay small, so
  JavaScript numbers hold them exactly. Every division in the source has a
  positive divisor, so Dafny's `/` and `%` agree with `Math.floor(a / b)` and `%`
  there.
- `Math.round(x)` is `(x + 0.5).Floor`, which rounds halves up. The drag target
  is passed in as an exact `real` percentage of the bar's width. The model clamps
  it to [0, 100] as the source does.
- Dialogs become arguments. `confirm` is a boolean (`confirmed`). An `alert`, a
  "no" answer, and the TypeError thrown when a missing index is read all become
  a `Refusal` result, with the list unchanged.
- `deleteCategory` hands a deleted share back only when it is positive
  (paysplit.js:172). Deleting a negative share therefore raises the total by its
  size; `DeleteConservesTotal` states the total for every sign.
- In the normal drag case the right share is `max(0, pair - left)`
  (paysplit.js:364-365). For a negative pair both shares become 0
  (`SlideNegativePair`).
- A mouse drag never brings the left share of a positive pair to 0, but it can
  bring the right share to 0. The target is held half a percent inside the
  span (paysplit.js:357) and `Math.round` rounds halves up (paysplit.js:360), so
  the left end gives 1 and the right end gives the whole pair. For example,
  dragging divider 0 of the defaults to 100 gives {100, 0} (`SlideEdges`).
- `colorIndex` is 2 after the defaults (paysplit.js:41). It is left alone when a
  saved list is loaded (paysplit.js:17-19).
- Shares stay in [0, 100] only from a `Healthy` list. Adding to an all-zero list
  drives the donor to -1 (paysplit.js:141-142, `AddOnAllZeroGoesNegative`).

## Model

| member | source | states |
|---|---|---|
| `PaySplit.Widget.constructor` | static/paysplit/paysplit.js:2-10 | the script starts with no categories, colour counter 0 and no drag session |
| `PaySplit.Widget.InitializeDefaultCategories` | static/paysplit/paysplit.js:36-42 | the list becomes Savings 50 / Spending 50 with the first two colours, the counter becomes 2, and the result is Healthy |
| `AllocationLaws.DefaultsHealthy` | static/paysplit/paysplit.js:37-40 | the default list is Healthy: two categories, each at 50 |
| `PaySplit.Widget.LoadSavedValues` | static/paysplit/paysplit.js:13-28 | a parsed saved list is taken as is and keeps the colour counter; no saved list or a parse failure gives the defaults |
| `PaySplit.Widget.ResetToDefaults` | static/paysplit/paysplit.js:95-109 | with confirmation the list and counter return to the defaults, which are `Healthy`; without it nothing changes |
| `Allocation.MaxIndex` | static/paysplit/paysplit.js:130-138 | the index holds a share no smaller than any other, and every earlier index holds a strictly smaller one (first occurrence wins ties) |
| `PaySplit.FindMaxIndex` | static/paysplit/paysplit.js:131-138 | the scan's loop finds exactly that first largest share |
| `AllocationLaws.AddRefusedOnlyAtLimit` | static/paysplit/paysplit.js:114-117 | add is refused with CategoryLimitExceeded exactly when 10 or more categories exist; otherwise the list grows by one, with the new colour at the end |
| `AllocationLaws.AddToEmpty` | static/paysplit/paysplit.js:122-128 | adding to an empty list yields exactly one category, "Category 1", at 100 |
| `AllocationLaws.AddTakesFromFirstLargest` | static/paysplit/paysplit.js:130-148 | only the first largest category changes; it loses max(1, floor(largest/2)), which the new last category "Category n+1" receives |
| `AllocationLaws.AddConservesTotal` | static/paysplit/paysplit.js:140-148 | adding to a non-empty list leaves the sum of shares unchanged |
| `AllocationLaws.AddKeepsNonNegative` | static/paysplit/paysplit.js:140-142 | with no negative share and a positive total, no share goes negative and the new category gets at least 1 |
| `AllocationLaws.AddOnAllZeroGoesNegative` | static/paysplit/paysplit.js:140-142 | on an all-zero list the donor is driven to -1, so non-negativity needs a positive share |
| `PaySplit.Widget.AddCategory` | static/paysplit/paysplit.js:112-154 | the handler computes Added on the old list with the colour the counter selects, advances the counter only on success, reports the refusal otherwise, and keeps Healthy |
| `AllocationLaws.DeleteRefusals` | static/paysplit/paysplit.js:158-166 | delete is refused exactly when at most one category exists (MinimumCategoryViolation), the index does not exist (NoSuchCategory), or the user declines |
| `AllocationLaws.DeleteKeepsOrder` | static/paysplit/paysplit.js:168-169 | one category fewer; the survivors keep their names, colours and relative order |
| `AllocationLaws.DeleteGains` | static/paysplit/paysplit.js:171-182 | each survivor gains floor(d/n), and the first d mod n gain one more; survivors are unchanged when d <= 0 |
| `AllocationLaws.SharesAddUp` | static/paysplit/paysplit.js:173-181 | the floor-plus-remainder shares sum to exactly the deleted share (0 when it is not positive) |
| `AllocationLaws.RedistributedTotal` | static/paysplit/paysplit.js:171-182 | handing back a share d raises the survivors' total by max(0, d) |
| `AllocationLaws.DeleteConservesTotal` | static/paysplit/paysplit.js:168-182 | delete preserves the sum of shares when the deleted share is non-negative (and raises it by -d when negative) |
| `AllocationLaws.RedistributedNonNegative` | static/paysplit/paysplit.js:168-182 | handing a deleted share back to a list with no negative share leaves no share negative |
| `PaySplit.Widget.DeleteCategory` | static/paysplit/paysplit.js:157-187 | the handler and its redistribution loop compute Deleted on the old list, report refusals, and keep Healthy |
| `PaySplit.Widget.UpdateCategoryName` | static/paysplit/paysplit.js:190-193 | renaming changes only the name at the index and keeps `Healthy`; a missing index throws and changes nothing |
| `AllocationLaws.RenameKeepsHealthy` | static/paysplit/paysplit.js:190-193 | renaming keeps a Healthy list Healthy |
| `PaySplit.Widget.StartDrag` | static/paysplit/paysplit.js:277-281 | a drag session opens on the given divider; the list is untouched |
| `PaySplit.Widget.Drag` | static/paysplit/paysplit.js:284-368 | outside a session, or with fewer than two categories, nothing changes; otherwise the list becomes Dragged for the session's divider and pointer, and Healthy is kept |
| `PaySplit.Widget.StopDrag` | static/paysplit/paysplit.js:371-377 | the session closes; the list is saved exactly when a session was active |
| `PaySplit.CumulativeBefore` | static/paysplit/paysplit.js:304-308 | the loop computes the sum of the shares left of the divider's left category |
| `Allocation.PositiveBelow` | static/paysplit/paysplit.js:319-326 | the result is the nearest index below the pair with a positive share, or none, and then every index below is non-positive |
| `Allocation.PositiveFrom` | static/paysplit/paysplit.js:328-337 | the result is the first index from the given one upward with a positive share, or none, and then all are non-positive |
| `PaySplit.FindDonor` | static/paysplit/paysplit.js:315-337 | the two scanning loops return exactly Donor: left of the pair first, then right |
| `AllocationLaws.DonorIsNearest` | static/paysplit/paysplit.js:315-337 | a donor lies outside the pair, has a positive share and is the nearest such index (left side first); there is none exactly when every other share is non-positive |
| `AllocationLaws.BorrowLaw` | static/paysplit/paysplit.js:339-347 | the donor gives b = min(10, share) > 0; the pair becomes floor(b/2) and b - floor(b/2) with names and colours untouched; only these three indices change and the total equals the old total minus the old pair (so a zero pair conserves it); with no donor nothing changes |
| `PaySplit.BorrowIntoPair` | static/paysplit/paysplit.js:314-351 | the zero-pair branch computes Borrowed |
| `AllocationLaws.SlideLaw` | static/paysplit/paysplit.js:354-365 | for a positive pair the left share ends in [1, pair], the right share is pair minus it, other indices and all names and colours are untouched, and the total is conserved |
| `AllocationLaws.SlideFollowsPointer` | static/paysplit/paysplit.js:356-365 | no other divider moves; when the pointer is at least half a percent inside the pair's span, the dragged divider lands on the pointer rounded half-up |
| `AllocationLaws.SlideEdges` | static/paysplit/paysplit.js:357-365 | for a positive pair, a pointer at or past the pair's right end gives the whole pair to the left share and 0 to the right; a pointer at or before its left end leaves the left share 1 |
| `AllocationLaws.SlideNegativePair` | static/paysplit/paysplit.js:363-365 | a pair with a negative sum has both shares set to 0 |
| `PaySplit.MovePair` | static/paysplit/paysplit.js:353-365 | the normal branch computes Slid |
| `AllocationLaws.DragOutOfRange` | static/paysplit/paysplit.js:299-302 | a divider without a right neighbour leaves the list unchanged |
| `AllocationLaws.DragConservesTotal` | static/paysplit/paysplit.js:298-367 | on a list with no negative share every drag step keeps the length, the total, and non-negativity |
| `AllocationLaws.KeyChangeValues` | static/paysplit/paysplit.js:390-397 | ArrowLeft/ArrowDown step by -1, ArrowRight/ArrowUp by +1, and every other key by 0 |
| `AllocationLaws.KeyNoOp` | static/paysplit/paysplit.js:381-397 | a key event not from a divider, at a divider without a right neighbour, or with a non-arrow key changes nothing |
| `AllocationLaws.KeyStepLaw` | static/paysplit/paysplit.js:401-411 | the step is one of -5, -1, 1, 5 (x5 with Shift); the left share becomes clamp(left + step, 0, pair) and the right share is pair minus it; the pair's names and colours, the pair sum, all other indices, the total and all other dividers are unchanged |
| `PaySplit.Widget.HandleKeyboard` | static/paysplit/paysplit.js:380-415 | the handler computes KeyAdjusted on the old list and keeps Healthy |
| `PaySplit.Widget.UpdateDisplay` | static/paysplit/paysplit.js:432-473 | the loop's total is the sum of the shares, the warning shows exactly when it is not 100, and each amount is totalAmount x percentage / 100 |
| `AllocationLaws.HealthyBounded` | static/paysplit/paysplit.js:465-473 | under Healthy every share is in [0, 100] and no warning shows |
| `PaySplit.Widget.UpdateDividerPositions` | static/paysplit/paysplit.js:418-429 | there is one divider fewer than categories; divider k sits at the sum of the shares of categories 0..k |
| `AllocationLaws.DividersInOrder` | static/paysplit/paysplit.js:419-424 | with no negative share the dividers are in non-decreasing left-to-right order |
| `AllocationLaws.LastDividerLeavesLastShare` | static/paysplit/paysplit.js:419-424 | the last divider plus the last share is the total |
| `AllocationLaws.AddKeepsHealthy` | static/paysplit/paysplit.js:112-154 | add keeps a Healthy list Healthy |
| `AllocationLaws.DeleteKeepsHealthy` | static/paysplit/paysplit.js:157-187 | delete keeps a Healthy list Healthy |
| `AllocationLaws.ApplyKeepsHealthy` | static/paysplit/paysplit.js:112-411 | each of add, delete, rename, drag and key step keeps a Healthy list Healthy |
| `AllocationLaws.RunKeepsHealthy` | static/paysplit/paysplit.js:112-411 | any sequence of those operations keeps a Healthy list Healthy |
| `AllocationLaws.FromDefaultsAlwaysBounded` | static/paysplit/paysplit.js:36-42 | after any sequence of operations from the defaults there are 1 to 10 categories, every share is in [0, 100], and the total is 100 |
| `AllocationLaws.ExampleAddToDefaults` | static/paysplit/paysplit.js:130-148 | adding to the defaults gives Savings 25, Spending 50, "Category 3" 25 |
| `AllocationLaws.ExampleDelete` | static/paysplit/paysplit.js:168-182 | deleting the 40 of {40, 30, 30} gives {50, 50} |
| `AllocationLaws.ExampleShiftRight` | static/paysplit/paysplit.js:401-411 | Shift+ArrowRight on {50, 50} gives {55, 45} |

## Left out

- `static/cat/cat.js`: pure presentation (random placement, CSS transitions, a timed sprite swap) with no allocation logic.
- Rendering (`renderCategories`, `createDividers`, the `innerHTML` templates, z-index, ARIA attributes, the >10% / >0% segment labels) and the DOM writes in `updateDisplay` and `updateDividerPositions`: the model returns the numbers those functions write.
- Persistence: `localStorage` reads and writes, `JSON.parse`/`JSON.stringify` and every `saveValues` call. `LoadSavedValues` receives the already-parsed list, or None for "absent or unparsable". `StopDrag` reports whether it would save.
- The total-amount input: the `parseFloat` clamp to [0, 999999999] (lines 62-67), the `|| 0` fallback and the reset to 1000 are floating-point DOM plumbing. `UpdateDisplay` takes the amount as a parameter.
- UpdateDisplay: amounts are exact real products; floating-point rounding and the `toFixed(2)` money formatting are not modelled.
- Widget.Drag: the pixel-to-percent conversion from `getBoundingClientRect` and the touch/mouse coordinates (lines 292-295) are not modelled. The pointer arrives as an exact real percentage, and rounding exactly at .5 follows exact arithmetic, not doubles.
- The `updateDisplay()` calls inside the handlers: the view is its own method.
- Event wiring: `initSliders`, listener registration, `preventDefault`, the `DOMContentLoaded` bootstrap. The `bar-divider` class test in `handleKeyboard` becomes the `focus` argument (None when the event did not come from a divider).
- The redundant `borrowAmount > 0` test (line 340) is not a separate branch: a donor always has a positive share, so the amount is always positive (`BorrowLaw` proves it).
