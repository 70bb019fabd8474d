/** The allocation model of the paysplit widget: an ordered list of categories,
    each holding an integer percentage share, and the integer arithmetic that the
    widget's gestures apply to those shares. Every operation is stated here as a
    pure function of the list; the widget's state machine (module PaySplit) is
    proved to compute exactly these functions. */
module Allocation {

  datatype Option<T> = None | Some(value: T)

  /** One allocation bucket. Its identity is its position in the list. */
  datatype Category = Category(name: string, percentage: int, color: string)

  /** Why an operation left the list as it was: the two notices the widget shows
      with `alert`, the user answering "no" to a `confirm`, and the TypeError the
      code throws when it reads a category at an index that does not exist. */
  datatype Refusal =
    | CategoryLimitExceeded
    | MinimumCategoryViolation
    | Declined
    | NoSuchCategory

  datatype Outcome<T> = Done(value: T) | Refused(reason: Refusal)

  /** At most this many categories may exist. */
  const MaxCategories: nat := 10

  /** The most a zeroed pair borrows from a donor in one drag step. */
  const BorrowCap: int := 10

  /** The display colours, handed out round-robin. */
  const Palette: seq<string> :=
    ["#4CAF50", "#2196F3", "#FF9800", "#E91E63", "#9C27B0",
     "#00BCD4", "#FF5722", "#795548", "#607D8B", "#FFC107"]

  function ColorFor(colorIndex: nat): string
  {
    Palette[colorIndex % |Palette|]
  }

  function Min(a: int, b: int): int { if a <= b then a else b }
  function Max(a: int, b: int): int { if a >= b then a else b }
  function MinR(a: real, b: real): real { if a <= b then a else b }
  function MaxR(a: real, b: real): real { if a >= b then a else b }

  /** JavaScript's Math.round: halves go up. */
  function Round(x: real): int { (x + 0.5).Floor }

  function DigitChar(d: nat): char
    requires d < 10
  {
    "0123456789"[d]
  }

  /** Decimal rendering of a natural number, as a template literal prints it. */
  function NatToString(n: nat): string
    decreases n
  {
    if n < 10 then [DigitChar(n)] else NatToString(n / 10) + [DigitChar(n % 10)]
  }

  /** Sum of the percentages, accumulated left to right. */
  function Total(cs: seq<Category>): int
  {
    if cs == [] then 0 else Total(cs[..|cs| - 1]) + cs[|cs| - 1].percentage
  }

  /** The list a first visit starts from: Savings and Spending at 50% each. */
  function Defaults(): seq<Category>
  {
    [Category("Savings", 50, Palette[0]), Category("Spending", 50, Palette[1])]
  }

  /** The condition under which the widget's bar is fully allocated: between one
      and ten categories, no negative share, and the shares adding up to 100. */
  predicate Healthy(cs: seq<Category>)
  {
    && 1 <= |cs| <= MaxCategories
    && (forall k :: 0 <= k < |cs| ==> cs[k].percentage >= 0)
    && Total(cs) == 100
  }

  /** The warning under the bar is shown exactly when the shares do not add up to 100. */
  predicate WarningShown(cs: seq<Category>)
  {
    Total(cs) != 100
  }

  /** The money amount shown for a share of `percentage` percent of `totalAmount`. */
  function AmountFor(totalAmount: real, percentage: int): real
  {
    totalAmount * percentage as real / 100.0
  }

  /** Position of divider k (between categories k and k+1), in percent of the
      bar: the sum of the shares of categories 0..k. */
  function DividerAt(cs: seq<Category>, k: nat): int
    requires k + 1 < |cs|
  {
    Total(cs[..k + 1])
  }

  // ----- adding a category -----

  /** The first category holding the largest share. */
  function MaxIndex(cs: seq<Category>): (k: nat)
    requires cs != []
    ensures k < |cs|
    ensures forall j :: 0 <= j < |cs| ==> cs[j].percentage <= cs[k].percentage
    ensures forall j :: 0 <= j < k ==> cs[j].percentage < cs[k].percentage
  {
    if |cs| == 1 then 0
    else
      var k := MaxIndex(cs[..|cs| - 1]);
      if cs[|cs| - 1].percentage > cs[k].percentage then |cs| - 1 else k
  }

  /** Half of the largest share, rounded down, but at least 1. The divisor is
      positive, so Dafny's `/` rounds down exactly as Math.floor does. */
  function TakeAmount(largest: int): int
  {
    Max(1, largest / 2)
  }

  /** addCategory: refused at the limit; an empty list gets one category at 100%;
      otherwise the first largest category gives TakeAmount of its share to a new
      category appended at the end. */
  function Added(cs: seq<Category>, color: string): Outcome<seq<Category>>
  {
    if |cs| >= MaxCategories then Refused(CategoryLimitExceeded)
    else if cs == [] then Done([Category("Category 1", 100, color)])
    else
      var m := MaxIndex(cs);
      var take := TakeAmount(cs[m].percentage);
      Done(cs[m := cs[m].(percentage := cs[m].percentage - take)]
           + [Category("Category " + NatToString(|cs| + 1), take, color)])
  }

  // ----- deleting a category -----

  /** The list with the category at `index` spliced out. */
  function Without(cs: seq<Category>, index: nat): seq<Category>
    requires index < |cs|
  {
    cs[..index] + cs[index + 1..]
  }

  /** What survivor k (of n) receives when a share d is handed back: the floor of
      d/n, plus one for each of the first d mod n survivors; nothing unless d > 0. */
  function Share(d: int, n: nat, k: nat): int
    requires n > 0
  {
    if d > 0 then d / n + (if k < d % n then 1 else 0) else 0
  }

  function Redistributed(s: seq<Category>, d: int): seq<Category>
    requires s != []
  {
    seq(|s|, k requires 0 <= k < |s| => s[k].(percentage := s[k].percentage + Share(d, |s|, k)))
  }

  /** deleteCategory(index), with `confirmed` standing for the user's answer to
      the confirmation dialog. The length check comes first; the dialog's text
      reads the category's name, so an index past the end throws before the
      dialog appears. */
  function Deleted(cs: seq<Category>, index: nat, confirmed: bool): Outcome<seq<Category>>
  {
    if |cs| <= 1 then Refused(MinimumCategoryViolation)
    else if index >= |cs| then Refused(NoSuchCategory)
    else if !confirmed then Refused(Declined)
    else Done(Redistributed(Without(cs, index), cs[index].percentage))
  }

  /** updateCategoryName(index, newName). */
  function Renamed(cs: seq<Category>, index: nat, newName: string): Outcome<seq<Category>>
  {
    if index >= |cs| then Refused(NoSuchCategory)
    else Done(cs[index := cs[index].(name := newName)])
  }

  // ----- moving a divider -----

  /** The list with the two shares at divider i set to `left` and `right`. */
  function SetPair(cs: seq<Category>, i: nat, left: int, right: int): seq<Category>
    requires i + 1 < |cs|
  {
    cs[i := cs[i].(percentage := left)][i + 1 := cs[i + 1].(percentage := right)]
  }

  /** The nearest index below j holding a positive share. */
  function PositiveBelow(cs: seq<Category>, j: nat): (r: Option<nat>)
    requires j <= |cs|
    ensures r.Some? ==> r.value < j && cs[r.value].percentage > 0
    ensures r.Some? ==> forall m :: r.value < m < j ==> cs[m].percentage <= 0
    ensures r.None? ==> forall m :: 0 <= m < j ==> cs[m].percentage <= 0
  {
    if j == 0 then None
    else if cs[j - 1].percentage > 0 then Some(j - 1)
    else PositiveBelow(cs, j - 1)
  }

  /** The first index at or above j holding a positive share. */
  function PositiveFrom(cs: seq<Category>, j: nat): (r: Option<nat>)
    decreases |cs| - j
    ensures r.Some? ==> j <= r.value < |cs| && cs[r.value].percentage > 0
    ensures r.Some? ==> forall m :: j <= m < r.value ==> cs[m].percentage <= 0
    ensures r.None? ==> forall m :: j <= m < |cs| ==> cs[m].percentage <= 0
  {
    if j >= |cs| then None
    else if cs[j].percentage > 0 then Some(j)
    else PositiveFrom(cs, j + 1)
  }

  /** The category a zeroed pair at divider i borrows from: scanning left from
      i-1 down to 0 first, then right from i+2 upward. */
  function Donor(cs: seq<Category>, i: nat): Option<nat>
    requires i + 1 < |cs|
  {
    match PositiveBelow(cs, i)
    case Some(b) => Some(b)
    case None => PositiveFrom(cs, i + 2)
  }

  /** The zero-pair case of a drag: the donor gives up to BorrowCap, which the
      pair splits with the smaller half on the left. Without a donor nothing
      changes. (The donor's share is positive, so the amount always is.) */
  function Borrowed(cs: seq<Category>, i: nat): seq<Category>
    requires i + 1 < |cs|
  {
    match Donor(cs, i)
    case None => cs
    case Some(b) =>
      var amount := Min(BorrowCap, cs[b].percentage);
      var left := amount / 2;
      SetPair(cs[b := cs[b].(percentage := cs[b].percentage - amount)], i, left, amount - left)
  }

  /** The pointer position in percent of the bar, clamped to [0, 100]. */
  function PointerPercent(x: real): real
  {
    MaxR(0.0, MinR(100.0, x))
  }

  /** The normal case of a drag toward `target` percent: the target is kept half a
      percent inside the pair's span, the left share is the rounded distance from
      the pair's start, and both shares are clamped to be non-negative. */
  function Slid(cs: seq<Category>, i: nat, target: real): seq<Category>
    requires i + 1 < |cs|
  {
    var before := Total(cs[..i]);
    var pair := cs[i].percentage + cs[i + 1].percentage;
    var constrained := MaxR(before as real + 0.5, MinR((before + pair) as real - 0.5, target));
    var left := Max(0, Min(pair, Round(constrained - before as real)));
    SetPair(cs, i, left, Max(0, pair - left))
  }

  /** The allocation part of one drag event at divider i with the pointer at
      `pointer` percent of the bar's width. */
  function Dragged(cs: seq<Category>, i: nat, pointer: real): seq<Category>
  {
    if i + 1 >= |cs| then cs
    else if cs[i].percentage + cs[i + 1].percentage == 0 then Borrowed(cs, i)
    else Slid(cs, i, PointerPercent(pointer))
  }

  /** The step an arrow key asks for; 0 for every other key. */
  function KeyChange(key: string): int
  {
    if key == "ArrowLeft" || key == "ArrowDown" then -1
    else if key == "ArrowRight" || key == "ArrowUp" then 1
    else 0
  }

  /** Moving divider i by `change`: the left share is clamped into [0, pair] and
      the right share takes the rest of the pair. */
  function Stepped(cs: seq<Category>, i: nat, change: int): seq<Category>
    requires i + 1 < |cs|
  {
    var pair := cs[i].percentage + cs[i + 1].percentage;
    var left := Max(0, Min(pair, cs[i].percentage + change));
    SetPair(cs, i, left, pair - left)
  }

  /** handleKeyboard: `divider` is the focused divider, None when the key event
      did not come from a divider. Shift multiplies the step by 5. */
  function KeyAdjusted(cs: seq<Category>, divider: Option<nat>, key: string, shift: bool): seq<Category>
  {
    match divider
    case None => cs
    case Some(i) =>
      if i + 1 >= |cs| || KeyChange(key) == 0 then cs
      else Stepped(cs, i, if shift then KeyChange(key) * 5 else KeyChange(key))
  }

  // ----- sequences of gestures -----

  /** One user action on the allocation list, with its dialog answers and the
      colour it would be given. */
  datatype Op =
    | Add(color: string)
    | Delete(index: nat, confirmed: bool)
    | Rename(index: nat, newName: string)
    | DragTo(divider: nat, pointer: real)
    | Key(focus: Option<nat>, key: string, shift: bool)

  function Apply(cs: seq<Category>, op: Op): seq<Category>
  {
    match op
    case Add(color) => (match Added(cs, color) case Done(r) => r case Refused(_) => cs)
    case Delete(index, confirmed) => (match Deleted(cs, index, confirmed) case Done(r) => r case Refused(_) => cs)
    case Rename(index, newName) => (match Renamed(cs, index, newName) case Done(r) => r case Refused(_) => cs)
    case DragTo(divider, pointer) => if |cs| < 2 then cs else Dragged(cs, divider, pointer)
    case Key(focus, key, shift) => KeyAdjusted(cs, focus, key, shift)
  }

  function Run(cs: seq<Category>, ops: seq<Op>): seq<Category>
    decreases |ops|
  {
    if ops == [] then cs else Run(Apply(cs, ops[0]), ops[1..])
  }
}
