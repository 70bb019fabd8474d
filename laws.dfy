/** What the allocation operations guarantee: conservation of the total, which
    indices each operation touches, the exact shares it hands out, where the
    dividers end up, and the invariant that keeps every share in [0, 100]. */
module AllocationLaws {
  import opened Allocation

  // ----- sums -----

  lemma {:induction false} TotalAppend(a: seq<Category>, b: seq<Category>)
    ensures Total(a + b) == Total(a) + Total(b)
  {
    if b == [] {
      assert a + b == a;
    } else {
      assert (a + b)[..|a + b| - 1] == a + b[..|b| - 1];
      TotalAppend(a, b[..|b| - 1]);
    }
  }

  lemma {:induction false} TotalUpdate(cs: seq<Category>, k: nat, c: Category)
    requires k < |cs|
    ensures Total(cs[k := c]) == Total(cs) - cs[k].percentage + c.percentage
  {
    assert cs == cs[..k] + [cs[k]] + cs[k + 1..];
    assert cs[k := c] == cs[..k] + [c] + cs[k + 1..];
    TotalAppend(cs[..k] + [cs[k]], cs[k + 1..]);
    TotalAppend(cs[..k], [cs[k]]);
    TotalAppend(cs[..k] + [c], cs[k + 1..]);
    TotalAppend(cs[..k], [c]);
  }

  lemma {:induction false} TotalNonPositive(cs: seq<Category>)
    requires forall k :: 0 <= k < |cs| ==> cs[k].percentage <= 0
    ensures Total(cs) <= 0
  {
    if cs != [] {
      TotalNonPositive(cs[..|cs| - 1]);
    }
  }

  lemma {:induction false} TotalNonNegative(cs: seq<Category>)
    requires forall k :: 0 <= k < |cs| ==> cs[k].percentage >= 0
    ensures Total(cs) >= 0
  {
    if cs != [] {
      TotalNonNegative(cs[..|cs| - 1]);
    }
  }

  /** With no negative share, no single share exceeds the total. */
  lemma EntryAtMostTotal(cs: seq<Category>, k: nat)
    requires k < |cs|
    requires forall j :: 0 <= j < |cs| ==> cs[j].percentage >= 0
    ensures cs[k].percentage <= Total(cs)
  {
    var zeroed := cs[k := cs[k].(percentage := 0)];
    TotalUpdate(cs, k, zeroed[k]);
    TotalNonNegative(zeroed);
  }

  /** Under the Healthy invariant every share lies in [0, 100] and no warning shows. */
  lemma HealthyBounded(cs: seq<Category>)
    requires Healthy(cs)
    ensures forall k :: 0 <= k < |cs| ==> 0 <= cs[k].percentage <= 100
    ensures !WarningShown(cs)
  {
    forall k | 0 <= k < |cs| ensures cs[k].percentage <= 100 {
      EntryAtMostTotal(cs, k);
    }
  }

  lemma DefaultsHealthy()
    ensures Healthy(Defaults())
    ensures |Defaults()| == 2 && Defaults()[0].percentage == 50 && Defaults()[1].percentage == 50
  {
    assert Defaults()[..1] == [Defaults()[0]];
  }

  // ----- rebalancing one pair -----

  lemma SetPairLaw(cs: seq<Category>, i: nat, left: int, right: int)
    requires i + 1 < |cs|
    ensures var r := SetPair(cs, i, left, right);
      && |r| == |cs|
      && (forall k :: 0 <= k < |cs| && k != i && k != i + 1 ==> r[k] == cs[k])
      && r[i].name == cs[i].name && r[i].color == cs[i].color && r[i].percentage == left
      && r[i + 1].name == cs[i + 1].name && r[i + 1].color == cs[i + 1].color
      && r[i + 1].percentage == right
      && Total(r) == Total(cs) - (cs[i].percentage + cs[i + 1].percentage) + (left + right)
  {
    var mid := cs[i := cs[i].(percentage := left)];
    TotalUpdate(cs, i, mid[i]);
    TotalUpdate(mid, i + 1, cs[i + 1].(percentage := right));
  }

  /** Rebalancing the pair at divider i without changing its sum moves divider i
      to the pair's start plus the new left share, and no other divider. */
  lemma SetPairDividers(cs: seq<Category>, i: nat, left: int, right: int)
    requires i + 1 < |cs|
    requires left + right == cs[i].percentage + cs[i + 1].percentage
    ensures DividerAt(SetPair(cs, i, left, right), i) == Total(cs[..i]) + left
    ensures forall k :: 0 <= k && k + 1 < |cs| && k != i ==>
      DividerAt(SetPair(cs, i, left, right), k) == DividerAt(cs, k)
  {
    var r := SetPair(cs, i, left, right);
    SetPairLaw(cs, i, left, right);
    assert r[..i + 1][..i] == r[..i] == cs[..i];
    assert DividerAt(r, i) == Total(r[..i + 1][..i]) + r[i].percentage;
    forall k | 0 <= k && k + 1 < |cs| && k != i
      ensures DividerAt(r, k) == DividerAt(cs, k)
    {
      if k < i {
        assert r[..k + 1] == cs[..k + 1];
      } else {
        assert r[..k + 1] == SetPair(cs[..k + 1], i, left, right);
        SetPairLaw(cs[..k + 1], i, left, right);
      }
    }
  }

  // ----- addCategory -----

  lemma AddRefusedOnlyAtLimit(cs: seq<Category>, color: string)
    ensures Added(cs, color).Refused? <==> |cs| >= MaxCategories
    ensures Added(cs, color).Refused? ==> Added(cs, color).reason == CategoryLimitExceeded
    ensures Added(cs, color).Done? ==>
      |Added(cs, color).value| == |cs| + 1 && Added(cs, color).value[|cs|].color == color
  {
  }

  lemma AddToEmpty(color: string)
    ensures Added([], color) == Done([Category("Category 1", 100, color)])
    ensures Total(Added([], color).value) == 100
  {
  }

  /** Only the first category holding the largest share changes: it loses
      max(1, floor(largest/2)), which the new last category receives. */
  lemma AddTakesFromFirstLargest(cs: seq<Category>, color: string)
    requires 0 < |cs| < MaxCategories
    ensures Added(cs, color).Done?
    ensures var r := Added(cs, color).value;
      var m := MaxIndex(cs);
      var take := Max(1, cs[m].percentage / 2);
      && |r| == |cs| + 1
      && (forall k :: 0 <= k < |cs| && k != m ==> r[k] == cs[k])
      && r[m].name == cs[m].name && r[m].color == cs[m].color
      && r[m].percentage == cs[m].percentage - take
      && r[|cs|].percentage == take && r[|cs|].color == color
      && r[|cs|].name == "Category " + NatToString(|cs| + 1)
  {
  }

  /** Adding to a non-empty list moves share around and creates none. */
  lemma AddConservesTotal(cs: seq<Category>, color: string)
    requires cs != []
    requires Added(cs, color).Done?
    ensures Total(Added(cs, color).value) == Total(cs)
  {
    var m := MaxIndex(cs);
    var take := TakeAmount(cs[m].percentage);
    var updated := cs[m := cs[m].(percentage := cs[m].percentage - take)];
    TotalUpdate(cs, m, updated[m]);
    TotalAppend(updated, [Category("Category " + NatToString(|cs| + 1), take, color)]);
    assert [Category("Category " + NatToString(|cs| + 1), take, color)][..0] == [];
  }

  /** When some share is positive and none is negative, the donor cannot go below
      zero and the new category gets at least 1. */
  lemma AddKeepsNonNegative(cs: seq<Category>, color: string)
    requires forall k :: 0 <= k < |cs| ==> cs[k].percentage >= 0
    requires Total(cs) > 0
    requires Added(cs, color).Done?
    ensures forall k :: 0 <= k < |Added(cs, color).value| ==> Added(cs, color).value[k].percentage >= 0
    ensures Added(cs, color).value[|cs|].percentage >= 1
  {
    var m := MaxIndex(cs);
    if cs[m].percentage <= 0 {
      TotalNonPositive(cs);
    }
  }

  /** With every share at zero the donor is driven to -1: non-negativity of
      addCategory depends on a positive largest share. */
  lemma AddOnAllZeroGoesNegative(color: string)
    ensures var cs := [Category("Savings", 0, color), Category("Spending", 0, color)];
      Added(cs, color).Done? && Added(cs, color).value[0].percentage == -1
  {
  }

  // ----- deleteCategory -----

  lemma DeleteRefusals(cs: seq<Category>, index: nat, confirmed: bool)
    ensures Deleted(cs, index, confirmed).Refused? <==> |cs| <= 1 || index >= |cs| || !confirmed
    ensures |cs| <= 1 ==> Deleted(cs, index, confirmed) == Refused(MinimumCategoryViolation)
    ensures 1 < |cs| <= index ==> Deleted(cs, index, confirmed) == Refused(NoSuchCategory)
  {
  }

  /** One category fewer; the survivors keep their names, colours and order. */
  lemma DeleteKeepsOrder(cs: seq<Category>, index: nat)
    requires 1 < |cs| && index < |cs|
    ensures Deleted(cs, index, true).Done?
    ensures var r := Deleted(cs, index, true).value;
      && |r| == |cs| - 1
      && forall k :: 0 <= k < |r| ==>
           var s := if k < index then cs[k] else cs[k + 1];
           r[k].name == s.name && r[k].color == s.color
  {
  }

  /** Each survivor gains floor(d/n), the first d mod n of them one more, where d
      is the deleted share and n the number of survivors; a share d <= 0 is not
      handed out. */
  lemma DeleteGains(cs: seq<Category>, index: nat)
    requires 1 < |cs| && index < |cs|
    ensures var r := Deleted(cs, index, true).value;
      var d := cs[index].percentage;
      var n := |cs| - 1;
      forall k :: 0 <= k < |r| ==>
        var s := if k < index then cs[k] else cs[k + 1];
        && (d <= 0 ==> r[k].percentage == s.percentage)
        && (d > 0 && k < d % n ==> r[k].percentage == s.percentage + d / n + 1)
        && (d > 0 && k >= d % n ==> r[k].percentage == s.percentage + d / n)
  {
  }

  function ShareSum(d: int, n: nat, m: nat): int
    requires n > 0
  {
    if m == 0 then 0 else ShareSum(d, n, m - 1) + Share(d, n, m - 1)
  }

  lemma {:induction false} ShareSumClosed(d: int, n: nat, m: nat)
    requires n > 0 && d > 0
    ensures ShareSum(d, n, m) == m * (d / n) + Min(m, d % n)
  {
    if m > 0 {
      ShareSumClosed(d, n, m - 1);
      assert m * (d / n) == (m - 1) * (d / n) + d / n;
    }
  }

  /** The floor-plus-remainder shares add up to exactly the deleted share. */
  lemma SharesAddUp(d: int, n: nat)
    requires n > 0
    ensures ShareSum(d, n, n) == Max(0, d)
  {
    if d > 0 {
      ShareSumClosed(d, n, n);
    } else {
      SharesOfNothing(d, n, n);
    }
  }

  lemma {:induction false} SharesOfNothing(d: int, n: nat, m: nat)
    requires n > 0 && d <= 0
    ensures ShareSum(d, n, m) == 0
  {
    if m > 0 {
      SharesOfNothing(d, n, m - 1);
    }
  }

  lemma {:induction false} RedistributedPrefix(s: seq<Category>, d: int, m: nat)
    requires s != [] && m <= |s|
    ensures Total(Redistributed(s, d)[..m]) == Total(s[..m]) + ShareSum(d, |s|, m)
  {
    if m > 0 {
      RedistributedPrefix(s, d, m - 1);
      var r := Redistributed(s, d);
      assert r[..m][..m - 1] == r[..m - 1];
      assert s[..m][..m - 1] == s[..m - 1];
    }
  }

  lemma RedistributedTotal(s: seq<Category>, d: int)
    requires s != []
    ensures Total(Redistributed(s, d)) == Total(s) + Max(0, d)
  {
    RedistributedPrefix(s, d, |s|);
    assert Redistributed(s, d)[..|s|] == Redistributed(s, d);
    assert s[..|s|] == s;
    SharesAddUp(d, |s|);
  }

  lemma TotalSingleton(c: Category)
    ensures Total([c]) == c.percentage
  {
    assert [c][..0] == [];
  }

  lemma {:induction false} WithoutTotal(cs: seq<Category>, index: nat)
    requires index < |cs|
    ensures Total(Without(cs, index)) == Total(cs) - cs[index].percentage
  {
    var front, back := cs[..index], cs[index + 1..];
    var mid := front + [cs[index]];
    assert Without(cs, index) == front + back;
    assert cs == mid + back;
    TotalAppend(front, back);
    TotalAppend(front, [cs[index]]);
    TotalSingleton(cs[index]);
    TotalAppend(mid, back);
    assert Total(cs) == Total(mid) + Total(back);
  }

  /** Deleting hands the deleted share back exactly: the total is unchanged
      (a negative share is not handed out, so the total then grows by its size). */
  lemma DeleteConservesTotal(cs: seq<Category>, index: nat)
    requires 1 < |cs| && index < |cs|
    ensures var r := Deleted(cs, index, true).value;
      && (cs[index].percentage >= 0 ==> Total(r) == Total(cs))
      && (cs[index].percentage < 0 ==> Total(r) == Total(cs) - cs[index].percentage)
  {
    var d := cs[index].percentage;
    var s := Without(cs, index);
    assert Deleted(cs, index, true).value == Redistributed(s, d);
    RedistributedTotal(s, d);
    WithoutTotal(cs, index);
  }

  // ----- drag, normal case -----

  lemma RoundInside(x: real, pair: int)
    requires 0.5 <= x <= pair as real - 0.5
    ensures 1 <= Round(x) <= pair
  {
  }

  lemma RoundShift(x: real, b: int)
    ensures Round(x - b as real) == Round(x) - b
  {
    var f := (x + 0.5).Floor;
    assert f as real <= x + 0.5 < f as real + 1.0;
    assert (f - b) as real <= x - b as real + 0.5 < (f - b) as real + 1.0;
  }

  /** A drag over a pair with a positive sum keeps the sum; the left share ends
      in [1, pair] because the target is held half a percent inside the span. */
  lemma SlideLaw(cs: seq<Category>, i: nat, target: real)
    requires i + 1 < |cs|
    requires cs[i].percentage + cs[i + 1].percentage > 0
    ensures var r := Slid(cs, i, target);
      var pair := cs[i].percentage + cs[i + 1].percentage;
      && |r| == |cs|
      && 1 <= r[i].percentage <= pair
      && r[i + 1].percentage == pair - r[i].percentage
      && r[i].name == cs[i].name && r[i].color == cs[i].color
      && r[i + 1].name == cs[i + 1].name && r[i + 1].color == cs[i + 1].color
      && (forall k :: 0 <= k < |cs| && k != i && k != i + 1 ==> r[k] == cs[k])
      && Total(r) == Total(cs)
  {
    var before := Total(cs[..i]);
    var pair := cs[i].percentage + cs[i + 1].percentage;
    var constrained := MaxR(before as real + 0.5, MinR((before + pair) as real - 0.5, target));
    RoundInside(constrained - before as real, pair);
    var left := Max(0, Min(pair, Round(constrained - before as real)));
    SetPairLaw(cs, i, left, Max(0, pair - left));
  }

  /** While the pointer is inside the pair's span (half a percent from either
      end), divider i lands on the rounded pointer position; no other divider
      moves wherever the pointer is. */
  lemma SlideFollowsPointer(cs: seq<Category>, i: nat, target: real)
    requires i + 1 < |cs|
    requires cs[i].percentage + cs[i + 1].percentage > 0
    ensures var r := Slid(cs, i, target);
      forall k :: 0 <= k && k + 1 < |cs| && k != i ==> DividerAt(r, k) == DividerAt(cs, k)
    ensures var before := Total(cs[..i]);
      var pair := cs[i].percentage + cs[i + 1].percentage;
      before as real + 0.5 <= target <= (before + pair) as real - 0.5 ==>
        DividerAt(Slid(cs, i, target), i) == Round(target)
  {
    var before := Total(cs[..i]);
    var pair := cs[i].percentage + cs[i + 1].percentage;
    var constrained := MaxR(before as real + 0.5, MinR((before + pair) as real - 0.5, target));
    RoundInside(constrained - before as real, pair);
    var left := Max(0, Min(pair, Round(constrained - before as real)));
    SetPairDividers(cs, i, left, Max(0, pair - left));
    RoundShift(constrained, before);
  }

  /** A pair with a negative sum (unreachable from a Healthy list) is zeroed. */
  lemma SlideNegativePair(cs: seq<Category>, i: nat, target: real)
    requires i + 1 < |cs|
    requires cs[i].percentage + cs[i + 1].percentage < 0
    ensures Slid(cs, i, target)[i].percentage == 0 && Slid(cs, i, target)[i + 1].percentage == 0
  {
  }

  /** The half-up rounding makes the two ends of a pair asymmetric: a pointer
      at or past the right end empties the right share, while a pointer at or
      before the left end still leaves the left share 1. */
  lemma SlideEdges(cs: seq<Category>, i: nat, target: real)
    requires i + 1 < |cs|
    requires cs[i].percentage + cs[i + 1].percentage > 0
    ensures var before := Total(cs[..i]);
      var pair := cs[i].percentage + cs[i + 1].percentage;
      var r := Slid(cs, i, target);
      && (target >= (before + pair) as real ==> r[i].percentage == pair && r[i + 1].percentage == 0)
      && (target <= before as real ==> r[i].percentage == 1 && r[i + 1].percentage == pair - 1)
  {
    var before := Total(cs[..i]);
    var pair := cs[i].percentage + cs[i + 1].percentage;
    var constrained := MaxR(before as real + 0.5, MinR((before + pair) as real - 0.5, target));
    var left := Max(0, Min(pair, Round(constrained - before as real)));
    SetPairLaw(cs, i, left, Max(0, pair - left));
    if target >= (before + pair) as real {
      assert constrained - before as real == pair as real - 0.5;
      assert Round(pair as real - 0.5) == pair;
    }
    if target <= before as real {
      assert constrained - before as real == 0.5;
      assert Round(0.5) == 1;
    }
  }

  // ----- drag, zero-pair case -----

  /** The donor is the nearest positive share, looking left of the pair first. */
  lemma DonorIsNearest(cs: seq<Category>, i: nat)
    requires i + 1 < |cs|
    ensures Donor(cs, i).Some? ==>
      var b := Donor(cs, i).value;
      && b < |cs| && b != i && b != i + 1 && cs[b].percentage > 0
      && (b < i ==> forall m :: b < m < i ==> cs[m].percentage <= 0)
      && (b > i + 1 ==> forall m :: (0 <= m < i || i + 2 <= m < b) ==> cs[m].percentage <= 0)
    ensures Donor(cs, i).None? <==>
      forall m :: 0 <= m < |cs| && m != i && m != i + 1 ==> cs[m].percentage <= 0
  {
    if PositiveBelow(cs, i).None? && PositiveFrom(cs, i + 2).Some? {
      var b := PositiveFrom(cs, i + 2).value;
      assert cs[b].percentage > 0;
    } else if PositiveBelow(cs, i).Some? {
      var b := PositiveBelow(cs, i).value;
      assert cs[b].percentage > 0;
    }
  }

  /** A zeroed pair borrows min(10, share) from the donor, split with the
      smaller half on the left; only three indices change and the grand total is
      conserved. Without a donor nothing changes. */
  lemma BorrowLaw(cs: seq<Category>, i: nat)
    requires i + 1 < |cs|
    ensures Donor(cs, i).None? ==> Borrowed(cs, i) == cs
    ensures Donor(cs, i).Some? ==>
      var b := Donor(cs, i).value;
      var r := Borrowed(cs, i);
      var amount := Min(BorrowCap, cs[b].percentage);
      && 0 < amount <= cs[b].percentage
      && |r| == |cs|
      && r[b].percentage == cs[b].percentage - amount
      && r[b].name == cs[b].name && r[b].color == cs[b].color
      && r[i].percentage == amount / 2
      && r[i + 1].percentage == amount - amount / 2
      && r[i].name == cs[i].name && r[i].color == cs[i].color
      && r[i + 1].name == cs[i + 1].name && r[i + 1].color == cs[i + 1].color
      && (forall k :: 0 <= k < |cs| && k != b && k != i && k != i + 1 ==> r[k] == cs[k])
      && Total(r) == Total(cs) - (cs[i].percentage + cs[i + 1].percentage)
  {
    DonorIsNearest(cs, i);
    if Donor(cs, i).Some? {
      var b := Donor(cs, i).value;
      var amount := Min(BorrowCap, cs[b].percentage);
      var taken := cs[b := cs[b].(percentage := cs[b].percentage - amount)];
      TotalUpdate(cs, b, taken[b]);
      assert taken[i] == cs[i] && taken[i + 1] == cs[i + 1];
      SetPairLaw(taken, i, amount / 2, amount - amount / 2);
    }
  }

  lemma DragOutOfRange(cs: seq<Category>, i: nat, pointer: real)
    requires i + 1 >= |cs|
    ensures Dragged(cs, i, pointer) == cs
  {
  }

  /** Any drag step keeps every share non-negative and, whenever the pair is
      not negative, the grand total. */
  lemma DragConservesTotal(cs: seq<Category>, i: nat, pointer: real)
    requires forall k :: 0 <= k < |cs| ==> cs[k].percentage >= 0
    ensures var r := Dragged(cs, i, pointer);
      && |r| == |cs|
      && Total(r) == Total(cs)
      && forall k :: 0 <= k < |r| ==> r[k].percentage >= 0
  {
    if i + 1 < |cs| {
      if cs[i].percentage + cs[i + 1].percentage == 0 {
        BorrowLaw(cs, i);
      } else {
        SlideLaw(cs, i, PointerPercent(pointer));
      }
    }
  }

  // ----- keyboard -----

  lemma KeyChangeValues(key: string)
    ensures KeyChange(key) == -1 <==> key == "ArrowLeft" || key == "ArrowDown"
    ensures KeyChange(key) == 1 <==> key == "ArrowRight" || key == "ArrowUp"
    ensures KeyChange(key) == 0 || KeyChange(key) == 1 || KeyChange(key) == -1
  {
  }

  lemma KeyNoOp(cs: seq<Category>, divider: Option<nat>, key: string, shift: bool)
    requires divider.None? || divider.value + 1 >= |cs| || KeyChange(key) == 0
    ensures KeyAdjusted(cs, divider, key, shift) == cs
  {
  }

  /** An arrow key at divider i moves the left share by 1 (5 with Shift), clamped
      into [0, pair]; the pair's sum, every other index and every other divider
      stay as they were. */
  lemma KeyStepLaw(cs: seq<Category>, i: nat, key: string, shift: bool)
    requires i + 1 < |cs| && KeyChange(key) != 0
    ensures var r := KeyAdjusted(cs, Some(i), key, shift);
      var change := if shift then KeyChange(key) * 5 else KeyChange(key);
      var pair := cs[i].percentage + cs[i + 1].percentage;
      && change in {-5, -1, 1, 5}
      && |r| == |cs|
      && r[i].percentage == Max(0, Min(pair, cs[i].percentage + change))
      && r[i + 1].percentage == pair - r[i].percentage
      && r[i].name == cs[i].name && r[i].color == cs[i].color
      && r[i + 1].name == cs[i + 1].name && r[i + 1].color == cs[i + 1].color
      && (pair >= 0 ==> 0 <= r[i].percentage <= pair && r[i + 1].percentage >= 0)
      && (forall k :: 0 <= k < |cs| && k != i && k != i + 1 ==> r[k] == cs[k])
      && Total(r) == Total(cs)
      && (forall k :: 0 <= k && k + 1 < |cs| && k != i ==> DividerAt(r, k) == DividerAt(cs, k))
  {
    var change := if shift then KeyChange(key) * 5 else KeyChange(key);
    var pair := cs[i].percentage + cs[i + 1].percentage;
    var left := Max(0, Min(pair, cs[i].percentage + change));
    SetPairLaw(cs, i, left, pair - left);
    SetPairDividers(cs, i, left, pair - left);
  }

  // ----- views -----

  /** With no negative share the dividers are in left-to-right order. */
  lemma DividersInOrder(cs: seq<Category>, j: nat, k: nat)
    requires j <= k && k + 1 < |cs|
    requires forall m :: 0 <= m < |cs| ==> cs[m].percentage >= 0
    ensures DividerAt(cs, j) <= DividerAt(cs, k)
  {
    assert cs[..k + 1] == cs[..j + 1] + cs[j + 1..k + 1];
    TotalAppend(cs[..j + 1], cs[j + 1..k + 1]);
    TotalNonNegative(cs[j + 1..k + 1]);
  }

  /** The last divider sits where the last category's share begins. */
  lemma LastDividerLeavesLastShare(cs: seq<Category>)
    requires |cs| >= 2
    ensures DividerAt(cs, |cs| - 2) + cs[|cs| - 1].percentage == Total(cs)
  {
    assert cs[..|cs| - 1] == cs[..|cs| - 2 + 1];
  }

  // ----- the Healthy invariant over every gesture -----

  lemma AddKeepsHealthy(cs: seq<Category>, color: string)
    requires Healthy(cs)
    ensures Healthy(Apply(cs, Add(color)))
  {
    if Added(cs, color).Done? {
      AddConservesTotal(cs, color);
      AddKeepsNonNegative(cs, color);
    }
  }

  /** Handing a share back never makes a non-negative list negative. */
  lemma RedistributedNonNegative(cs: seq<Category>, index: nat)
    requires index < |cs| && 1 < |cs|
    requires forall k :: 0 <= k < |cs| ==> cs[k].percentage >= 0
    ensures var r := Redistributed(Without(cs, index), cs[index].percentage);
      forall k :: 0 <= k < |r| ==> r[k].percentage >= 0
  {
    var s := Without(cs, index);
    var d := cs[index].percentage;
    forall k | 0 <= k < |s| ensures s[k].percentage + Share(d, |s|, k) >= 0 {
      assert s[k] == if k < index then cs[k] else cs[k + 1];
    }
  }

  lemma DeleteKeepsHealthy(cs: seq<Category>, index: nat, confirmed: bool)
    requires Healthy(cs)
    ensures Healthy(Apply(cs, Delete(index, confirmed)))
  {
    if Deleted(cs, index, confirmed).Done? {
      var r := Redistributed(Without(cs, index), cs[index].percentage);
      assert Apply(cs, Delete(index, confirmed)) == r;
      DeleteConservesTotal(cs, index);
      RedistributedNonNegative(cs, index);
    }
  }

  lemma RenameKeepsHealthy(cs: seq<Category>, index: nat, newName: string)
    requires Healthy(cs)
    ensures Healthy(Apply(cs, Rename(index, newName)))
  {
    if index < |cs| {
      TotalUpdate(cs, index, cs[index].(name := newName));
    }
  }

  lemma ApplyKeepsHealthy(cs: seq<Category>, op: Op)
    requires Healthy(cs)
    ensures Healthy(Apply(cs, op))
  {
    match op
    case Add(color) => AddKeepsHealthy(cs, color);
    case Delete(index, confirmed) => DeleteKeepsHealthy(cs, index, confirmed);
    case Rename(index, newName) => RenameKeepsHealthy(cs, index, newName);
    case DragTo(divider, pointer) => DragConservesTotal(cs, divider, pointer);
    case Key(focus, key, shift) =>
      if focus.Some? && focus.value + 1 < |cs| && KeyChange(key) != 0 {
        KeyStepLaw(cs, focus.value, key, shift);
      }
  }

  /** Any sequence of gestures from a Healthy list stays Healthy. */
  lemma {:induction false} RunKeepsHealthy(cs: seq<Category>, ops: seq<Op>)
    requires Healthy(cs)
    ensures Healthy(Run(cs, ops))
    decreases |ops|
  {
    if ops != [] {
      ApplyKeepsHealthy(cs, ops[0]);
      RunKeepsHealthy(Apply(cs, ops[0]), ops[1..]);
    }
  }

  /** From the defaults, whatever the user does, every share stays in [0, 100]
      and the shares keep adding up to 100. */
  lemma FromDefaultsAlwaysBounded(ops: seq<Op>)
    ensures var r := Run(Defaults(), ops);
      && 1 <= |r| <= MaxCategories
      && Total(r) == 100
      && forall k :: 0 <= k < |r| ==> 0 <= r[k].percentage <= 100
  {
    DefaultsHealthy();
    RunKeepsHealthy(Defaults(), ops);
    HealthyBounded(Run(Defaults(), ops));
  }

  // ----- worked examples -----

  /** Defaults, then add: Savings 25, Spending 50, Category 3 25. */
  lemma ExampleAddToDefaults()
    ensures var r := Added(Defaults(), Palette[2]).value;
      |r| == 3 && r[0].percentage == 25 && r[1].percentage == 50 && r[2].percentage == 25
      && r[2].name == "Category 3"
  {
  }

  /** Deleting the 40 of {40, 30, 30} gives {50, 50}. */
  lemma ExampleDelete(c: string)
    ensures var cs := [Category("A", 40, c), Category("B", 30, c), Category("C", 30, c)];
      var r := Deleted(cs, 0, true).value;
      |r| == 2 && r[0].percentage == 50 && r[1].percentage == 50
  {
  }

  /** Shift+ArrowRight on divider 0 of {50, 50} gives {55, 45}. */
  lemma ExampleShiftRight()
    ensures var r := KeyAdjusted(Defaults(), Some(0), "ArrowRight", true);
      r[0].percentage == 55 && r[1].percentage == 45
  {
  }
}
