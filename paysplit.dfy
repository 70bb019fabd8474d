/** The paysplit widget's state: the category list, the colour counter and the
    drag session, updated in place by the gesture handlers. Each handler is
    proved to compute the corresponding function of module Allocation; all but
    the loader of a saved list also keep the Healthy invariant. */
module PaySplit {
  import opened Allocation
  import opened AllocationLaws

  /** The scan for the first largest share in addCategory. */
  method FindMaxIndex(cs: seq<Category>) returns (maxIndex: nat)
    requires cs != []
    ensures maxIndex < |cs|
    ensures forall j :: 0 <= j < |cs| ==> cs[j].percentage <= cs[maxIndex].percentage
    ensures forall j :: 0 <= j < maxIndex ==> cs[j].percentage < cs[maxIndex].percentage
    ensures maxIndex == MaxIndex(cs)
  {
    maxIndex := 0;
    var maxPercentage := cs[0].percentage;
    var i := 1;
    while i < |cs|
      invariant 1 <= i <= |cs|
      invariant maxIndex < i && maxPercentage == cs[maxIndex].percentage
      invariant forall j :: 0 <= j < i ==> cs[j].percentage <= maxPercentage
      invariant forall j :: 0 <= j < maxIndex ==> cs[j].percentage < maxPercentage
    {
      if cs[i].percentage > maxPercentage {
        maxPercentage := cs[i].percentage;
        maxIndex := i;
      }
      i := i + 1;
    }
    var m := MaxIndex(cs);
    assert !(m < maxIndex) && !(maxIndex < m);
  }

  /** The sum of the shares left of the category at index `upTo`. */
  method CumulativeBefore(cs: seq<Category>, upTo: nat) returns (sum: int)
    requires upTo <= |cs|
    ensures sum == Total(cs[..upTo])
  {
    sum := 0;
    var i := 0;
    while i < upTo
      invariant 0 <= i <= upTo
      invariant sum == Total(cs[..i])
    {
      assert cs[..i + 1][..i] == cs[..i];
      sum := sum + cs[i].percentage;
      i := i + 1;
    }
  }

  /** The search for a category to borrow from: left of the pair first, nearest
      first, then right of the pair. */
  method FindDonor(cs: seq<Category>, leftIndex: nat) returns (borrowIndex: Option<nat>)
    requires leftIndex + 1 < |cs|
    ensures borrowIndex == Donor(cs, leftIndex)
  {
    borrowIndex := None;
    var i := leftIndex;
    while i > 0
      invariant 0 <= i <= leftIndex
      invariant PositiveBelow(cs, leftIndex) == PositiveBelow(cs, i)
    {
      if cs[i - 1].percentage > 0 {
        borrowIndex := Some(i - 1);
        return;
      }
      i := i - 1;
    }
    var j := leftIndex + 2;
    while j < |cs|
      invariant leftIndex + 2 <= j <= |cs|
      invariant PositiveFrom(cs, leftIndex + 2) == PositiveFrom(cs, j)
    {
      if cs[j].percentage > 0 {
        borrowIndex := Some(j);
        return;
      }
      j := j + 1;
    }
  }

  /** The zero-pair branch of drag: borrow from the nearest positive share. */
  method BorrowIntoPair(cs: seq<Category>, leftSegmentIndex: nat) returns (r: seq<Category>)
    requires leftSegmentIndex + 1 < |cs|
    ensures r == Borrowed(cs, leftSegmentIndex)
  {
    r := cs;
    var rightSegmentIndex := leftSegmentIndex + 1;
    var borrowIndex := FindDonor(cs, leftSegmentIndex);
    match borrowIndex
    case None =>
      return;
    case Some(b) =>
      var borrowAmount := Min(BorrowCap, r[b].percentage);
      r := r[b := r[b].(percentage := r[b].percentage - borrowAmount)];
      ghost var taken := r;
      r := r[leftSegmentIndex := r[leftSegmentIndex].(percentage := borrowAmount / 2)];
      r := r[rightSegmentIndex := r[rightSegmentIndex].(percentage := borrowAmount - r[leftSegmentIndex].percentage)];
      assert r == SetPair(taken, leftSegmentIndex, borrowAmount / 2, borrowAmount - borrowAmount / 2);
  }

  /** The normal branch of drag: move the pair's boundary toward the pointer. */
  method MovePair(cs: seq<Category>, leftSegmentIndex: nat, cumulativeBefore: int, mousePercent: real)
    returns (r: seq<Category>)
    requires leftSegmentIndex + 1 < |cs|
    requires cumulativeBefore == Total(cs[..leftSegmentIndex])
    ensures r == Slid(cs, leftSegmentIndex, mousePercent)
  {
    var rightSegmentIndex := leftSegmentIndex + 1;
    var totalOfPair := cs[leftSegmentIndex].percentage + cs[rightSegmentIndex].percentage;
    var cumulativeAfter := cumulativeBefore + totalOfPair;
    var constrainedPercent := MaxR(cumulativeBefore as real + 0.5, MinR(cumulativeAfter as real - 0.5, mousePercent));
    var newLeftValue := Round(constrainedPercent - cumulativeBefore as real);
    r := cs[leftSegmentIndex := cs[leftSegmentIndex].(percentage := Max(0, Min(totalOfPair, newLeftValue)))];
    r := r[rightSegmentIndex := r[rightSegmentIndex].(percentage := Max(0, totalOfPair - r[leftSegmentIndex].percentage))];
  }

  class Widget {
    var categories: seq<Category>
    var colorIndex: nat
    var isDragging: bool
    var dragDivider: Option<nat>

    /** The state when the script is loaded, before any saved values are read. */
    constructor ()
      ensures categories == [] && colorIndex == 0
      ensures !isDragging && dragDivider == None
    {
      categories := [];
      colorIndex := 0;
      isDragging := false;
      dragDivider := None;
    }

    method InitializeDefaultCategories()
      modifies this
      ensures categories == Defaults() && Healthy(categories)
      ensures colorIndex == 2
      ensures isDragging == old(isDragging) && dragDivider == old(dragDivider)
    {
      categories := [Category("Savings", 50, Palette[0]), Category("Spending", 50, Palette[1])];
      colorIndex := 2;
      DefaultsHealthy();
    }

    /** loadSavedValues, with `saved` the parsed stored list: None when nothing
        is stored or the stored text does not parse. A loaded list keeps the
        colour counter where it was. */
    method LoadSavedValues(saved: Option<seq<Category>>)
      modifies this
      ensures saved.Some? ==> categories == saved.value && colorIndex == old(colorIndex)
      ensures saved.None? ==> categories == Defaults() && colorIndex == 2
      ensures isDragging == old(isDragging) && dragDivider == old(dragDivider)
    {
      match saved
      case Some(cs) => categories := cs;
      case None => InitializeDefaultCategories();
    }

    /** resetToDefaults, with `confirmed` the answer to its dialog. */
    method ResetToDefaults(confirmed: bool)
      modifies this
      ensures confirmed ==> categories == Defaults() && Healthy(categories) && colorIndex == 2
      ensures !confirmed ==> categories == old(categories) && colorIndex == old(colorIndex)
      ensures isDragging == old(isDragging) && dragDivider == old(dragDivider)
    {
      if !confirmed {
        return;
      }
      InitializeDefaultCategories();
    }

    /** addCategory; a refusal is what the limit notice reports. The colour
        counter advances whenever a category is added. */
    method AddCategory() returns (refused: Option<Refusal>)
      modifies this
      ensures var out := Added(old(categories), ColorFor(old(colorIndex)));
        && (out.Done? ==> refused == None && categories == out.value && colorIndex == old(colorIndex) + 1)
        && (out.Refused? ==> refused == Some(out.reason) && categories == old(categories)
                             && colorIndex == old(colorIndex))
      ensures isDragging == old(isDragging) && dragDivider == old(dragDivider)
      ensures Healthy(old(categories)) ==> Healthy(categories)
    {
      if |categories| >= MaxCategories {
        return Some(CategoryLimitExceeded);
      }
      var color := Palette[colorIndex % |Palette|];
      colorIndex := colorIndex + 1;
      ghost var before := categories;
      if |categories| == 0 {
        categories := [Category("Category 1", 100, color)];
      } else {
        var maxIndex := FindMaxIndex(categories);
        var takeAmount := Max(1, categories[maxIndex].percentage / 2);
        categories := categories[maxIndex := categories[maxIndex].(percentage := categories[maxIndex].percentage - takeAmount)];
        categories := categories + [Category("Category " + NatToString(|categories| + 1), takeAmount, color)];
      }
      refused := None;
      if Healthy(before) {
        AddKeepsHealthy(before, color);
      }
    }

    /** deleteCategory(index); `confirmed` is the answer to its dialog. */
    method DeleteCategory(index: nat, confirmed: bool) returns (refused: Option<Refusal>)
      modifies this
      ensures var out := Deleted(old(categories), index, confirmed);
        && (out.Done? ==> refused == None && categories == out.value)
        && (out.Refused? ==> refused == Some(out.reason) && categories == old(categories))
      ensures colorIndex == old(colorIndex)
      ensures isDragging == old(isDragging) && dragDivider == old(dragDivider)
      ensures Healthy(old(categories)) ==> Healthy(categories)
    {
      if |categories| <= 1 {
        return Some(MinimumCategoryViolation);
      }
      if index >= |categories| {
        return Some(NoSuchCategory);
      }
      if !confirmed {
        return Some(Declined);
      }
      ghost var before := categories;
      var deletedPercentage := categories[index].percentage;
      var cats := categories[..index] + categories[index + 1..];
      ghost var survivors := cats;
      if |cats| > 0 && deletedPercentage > 0 {
        var addToEach := deletedPercentage / |cats|;
        var remainder := deletedPercentage % |cats|;
        var i := 0;
        while i < |cats|
          invariant 0 <= i <= |cats| == |survivors|
          invariant forall k :: 0 <= k < i ==> cats[k] == Redistributed(survivors, deletedPercentage)[k]
          invariant forall k :: i <= k < |cats| ==> cats[k] == survivors[k]
        {
          var cat := cats[i];
          cat := cat.(percentage := cat.percentage + addToEach);
          if i < remainder {
            cat := cat.(percentage := cat.percentage + 1);
          }
          cats := cats[i := cat];
          i := i + 1;
        }
      }
      assert cats == Redistributed(survivors, deletedPercentage);
      assert Deleted(before, index, confirmed) == Done(cats);
      categories := cats;
      refused := None;
      if Healthy(before) {
        DeleteKeepsHealthy(before, index, confirmed);
      }
    }

    /** updateCategoryName(index, newName). */
    method UpdateCategoryName(index: nat, newName: string) returns (refused: Option<Refusal>)
      modifies this
      ensures var out := Renamed(old(categories), index, newName);
        && (out.Done? ==> refused == None && categories == out.value)
        && (out.Refused? ==> refused == Some(out.reason) && categories == old(categories))
      ensures Healthy(old(categories)) ==> Healthy(categories)
      ensures colorIndex == old(colorIndex)
      ensures isDragging == old(isDragging) && dragDivider == old(dragDivider)
    {
      if index >= |categories| {
        return Some(NoSuchCategory);
      }
      if Healthy(categories) {
        RenameKeepsHealthy(categories, index, newName);
      }
      categories := categories[index := categories[index].(name := newName)];
      refused := None;
    }

    /** startDrag on the divider whose index is `divider`. */
    method StartDrag(divider: nat)
      modifies this
      ensures isDragging && dragDivider == Some(divider)
      ensures categories == old(categories) && colorIndex == old(colorIndex)
    {
      isDragging := true;
      dragDivider := Some(divider);
    }

    /** The allocation part of one pointer-move event, with the pointer at
        `pointer` percent of the bar's width. Nothing happens outside a drag
        session or with fewer than two categories. */
    method Drag(pointer: real)
      modifies this
      ensures if old(isDragging) && old(dragDivider).Some? && |old(categories)| >= 2
        then categories == Dragged(old(categories), old(dragDivider).value, pointer)
        else categories == old(categories)
      ensures colorIndex == old(colorIndex)
      ensures isDragging == old(isDragging) && dragDivider == old(dragDivider)
      ensures Healthy(old(categories)) ==> Healthy(categories)
    {
      if !isDragging || dragDivider.None? || |categories| < 2 {
        return;
      }
      ghost var before := categories;
      if Healthy(before) {
        DragConservesTotal(before, dragDivider.value, pointer);
      }
      var mousePercent := MaxR(0.0, MinR(100.0, pointer));
      var leftSegmentIndex := dragDivider.value;
      var rightSegmentIndex := leftSegmentIndex + 1;
      if rightSegmentIndex >= |categories| {
        return;
      }
      var cumulativeBefore := CumulativeBefore(categories, leftSegmentIndex);
      var totalOfPair := categories[leftSegmentIndex].percentage + categories[rightSegmentIndex].percentage;
      if totalOfPair == 0 {
        categories := BorrowIntoPair(categories, leftSegmentIndex);
        return;
      }
      categories := MovePair(categories, leftSegmentIndex, cumulativeBefore, mousePercent);
    }

    /** stopDrag: ends the session; `save` tells whether the list is written to
        storage, which happens only when a session was active. */
    method StopDrag() returns (save: bool)
      modifies this
      ensures save == old(isDragging)
      ensures !isDragging && dragDivider == None
      ensures categories == old(categories) && colorIndex == old(colorIndex)
    {
      save := isDragging;
      isDragging := false;
      dragDivider := None;
    }

    /** handleKeyboard: `focus` is the divider the key event came from (None
        when it came from anything else). */
    method HandleKeyboard(focus: Option<nat>, key: string, shift: bool)
      modifies this
      ensures categories == KeyAdjusted(old(categories), focus, key, shift)
      ensures colorIndex == old(colorIndex)
      ensures isDragging == old(isDragging) && dragDivider == old(dragDivider)
      ensures Healthy(old(categories)) ==> Healthy(categories)
    {
      if Healthy(categories) {
        ApplyKeepsHealthy(categories, Key(focus, key, shift));
      }
      if focus.None? {
        return;
      }
      var leftIndex := focus.value;
      var rightIndex := leftIndex + 1;
      if rightIndex >= |categories| {
        return;
      }
      var change := 0;
      if key == "ArrowLeft" || key == "ArrowDown" {
        change := -1;
      } else if key == "ArrowRight" || key == "ArrowUp" {
        change := 1;
      } else {
        return;
      }
      if shift {
        change := change * 5;
      }
      var totalOfPair := categories[leftIndex].percentage + categories[rightIndex].percentage;
      var newLeftValue := Max(0, Min(totalOfPair, categories[leftIndex].percentage + change));
      categories := categories[leftIndex := categories[leftIndex].(percentage := newLeftValue)];
      categories := categories[rightIndex := categories[rightIndex].(percentage := totalOfPair - newLeftValue)];
    }

    /** The arithmetic of updateDisplay for a total amount of `totalAmount`: the
        sum of the shares, whether the warning shows, and each category's amount. */
    method UpdateDisplay(totalAmount: real) returns (total: int, warning: bool, amounts: seq<real>)
      ensures total == Total(categories)
      ensures warning <==> total != 100
      ensures |amounts| == |categories|
      ensures forall k :: 0 <= k < |categories| ==>
        amounts[k] == AmountFor(totalAmount, categories[k].percentage)
    {
      total := 0;
      amounts := [];
      var i := 0;
      while i < |categories|
        invariant 0 <= i <= |categories|
        invariant total == Total(categories[..i])
        invariant |amounts| == i
        invariant forall k :: 0 <= k < i ==> amounts[k] == AmountFor(totalAmount, categories[k].percentage)
      {
        assert categories[..i + 1][..i] == categories[..i];
        total := total + categories[i].percentage;
        amounts := amounts + [AmountFor(totalAmount, categories[i].percentage)];
        i := i + 1;
      }
      assert categories[..i] == categories;
      warning := total != 100;
    }

    /** The positions updateDividerPositions gives the dividers, in percent of
        the bar: divider k sits after the shares of categories 0..k. */
    method UpdateDividerPositions() returns (positions: seq<int>)
      ensures |positions| == if |categories| == 0 then 0 else |categories| - 1
      ensures forall k :: 0 <= k < |positions| ==> positions[k] == DividerAt(categories, k)
    {
      var cumulative := 0;
      positions := [];
      var i := 0;
      while i + 1 < |categories|
        invariant 0 <= i && (|categories| == 0 ==> i == 0) && (|categories| > 0 ==> i <= |categories| - 1)
        invariant |positions| == i
        invariant cumulative == Total(categories[..i])
        invariant forall k :: 0 <= k < i ==> positions[k] == DividerAt(categories, k)
      {
        assert categories[..i + 1][..i] == categories[..i];
        cumulative := cumulative + categories[i].percentage;
        positions := positions + [cumulative];
        i := i + 1;
      }
    }
  }
}
