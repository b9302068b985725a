/** The asset counter: a "current of total" display with previous/next buttons that
    wrap around, favourite and trash buttons that report the current index, and a
    "Move to collection" menu. Callbacks to the parent are recorded as events. */
module AssetCounter {
  import opened Wrappers

  /** `handleNext`: past the last index, back to the first. */
  function Next(i: int, total: int): int {
    if i >= total - 1 then 0 else i + 1
  }

  /** `handlePrevious`: before the first index, on to the last. */
  function Prev(i: int, total: int): int {
    if i <= 0 then total - 1 else i - 1
  }

  /** On a valid index both moves stay in range, and they are the modular successor
      and predecessor. */
  lemma NavigationInRange(i: int, total: int)
    requires 1 <= total && 0 <= i < total
    ensures 0 <= Next(i, total) < total && Next(i, total) == (i + 1) % total
    ensures 0 <= Prev(i, total) < total && Prev(i, total) == (i - 1) % total
  {
    if i == total - 1 {
      assert (i + 1) % total == 0;
    } else {
      assert (i + 1) % total == i + 1;
    }
    if i == 0 {
      assert (i - 1) % total == total - 1;
    } else {
      assert (i - 1) % total == i - 1;
    }
  }

  /** The two moves undo each other on a valid index. */
  lemma NextPrevInverse(i: int, total: int)
    requires 1 <= total && 0 <= i < total
    ensures Prev(Next(i, total), total) == i
    ensures Next(Prev(i, total), total) == i
  {
  }

  /** `n` presses of the next button. */
  function NextTimes(i: int, total: int, n: nat): int
    decreases n
  {
    if n == 0 then i else Next(NextTimes(i, total, n - 1), total)
  }

  /** Pressing next `n` times from a valid index lands on `(i + n) mod total`; in
      particular `total` presses come back to where they started. */
  lemma {:induction false} NextTimesModular(i: int, total: int, n: nat)
    requires 1 <= total && 0 <= i < total
    ensures NextTimes(i, total, n) == (i + n) % total
    decreases n
  {
    if n > 0 {
      NextTimesModular(i, total, n - 1);
      var j := NextTimes(i, total, n - 1);
      NavigationInRange(j, total);
      ModSucc(i + n - 1, total);
    }
  }

  lemma ModSucc(k: int, total: int)
    requires 1 <= total
    ensures (k % total + 1) % total == (k + 1) % total
  {
    var q := k / total;
    var r := k % total;
    assert k == q * total + r;
    if r + 1 < total {
      ModUnique(k + 1, q, r + 1, total);
      ModUnique(r + 1, 0, r + 1, total);
    } else {
      assert k + 1 == q * total + total;
      assert q * total + total == (q + 1) * total;
      ModUnique(k + 1, q + 1, 0, total);
      ModUnique(r + 1, 1, 0, total);
    }
  }

  /** The remainder is the unique `s` in range with `x == q * total + s`. */
  lemma ModUnique(x: int, q: int, s: int, total: int)
    requires 1 <= total && 0 <= s < total && x == q * total + s
    ensures x % total == s
  {
    var q2 := x / total;
    var s2 := x % total;
    assert x == q2 * total + s2;
    assert (q - q2) * total == s2 - s;
    if q > q2 {
      MulAtLeast(q - q2, total);
    } else if q < q2 {
      MulAtLeast(q2 - q, total);
    }
  }

  lemma MulAtLeast(a: int, b: int)
    requires a >= 1 && b >= 1
    ensures a * b >= b
  {
    assert a * b == (a - 1) * b + b;
    assert (a - 1) * b >= 0;
  }

  /** What the counter shows: nothing at all for no assets, otherwise the one-based
      position and the total. */
  function Display(currentIndex: int, total: int): (shown: Option<(int, int)>)
    ensures shown.None? <==> total <= 0
    ensures shown.Some? ==> shown.value.0 - 1 == currentIndex && shown.value.1 == total
  {
    if total <= 0 then None else Some((currentIndex + 1, total))
  }

  /** After any number of presses of next from a valid position, the counter shows a
      one-based position between 1 and the total, the one `n` steps further round. */
  lemma DisplayAfterPresses(i: int, total: int, n: nat)
    requires 1 <= total && 0 <= i < total
    ensures var shown := Display(NextTimes(i, total, n), total);
            && shown.Some? && shown.value.1 == total
            && 1 <= shown.value.0 <= total
            && shown.value.0 == (i + n) % total + 1
  {
    NextTimesModular(i, total, n);
  }

  /** The collections the menu offers. */
  const DropdownItems: seq<string> := ["Collection 1", "Collection 2", "Collection 3", "New Collection"]

  /** A call to one of the parent's callbacks. */
  datatype Event =
    | IndexChanged(index: int)
    | FavoriteRequested(index: int)
    | TrashRequested(index: int)
    | CollectionChosen(item: string)

  class Counter {
    var total: int
    var currentIndex: int
    /** The parent's `favorites` and `trashed` props. */
    var favorites: seq<int>
    var trashed: seq<int>
    /** The callbacks made so far, oldest first. */
    var events: seq<Event>

    predicate InRange()
      reads this
    {
      0 <= currentIndex < total
    }

    /** The trash button is disabled exactly when this holds. */
    predicate IsCurrentTrashed()
      reads this
    {
      currentIndex in trashed
    }

    constructor(total: int, initialIndex: int, favorites: seq<int>, trashed: seq<int>)
      ensures this.total == total && currentIndex == initialIndex
      ensures this.favorites == favorites && this.trashed == trashed && events == []
    {
      this.total := total;
      currentIndex := initialIndex;
      this.favorites := favorites;
      this.trashed := trashed;
      events := [];
    }

    /** The `initialIndex` prop changed: the counter adopts it without a callback. */
    method SetInitialIndex(i: int)
      modifies this
      ensures currentIndex == i
      ensures total == old(total) && favorites == old(favorites) && trashed == old(trashed) && events == old(events)
    {
      currentIndex := i;
    }

    /** New `favorites` and `trashed` props from the parent. */
    method SetLists(favorites: seq<int>, trashed: seq<int>)
      modifies this
      ensures this.favorites == favorites && this.trashed == trashed
      ensures total == old(total) && currentIndex == old(currentIndex) && events == old(events)
    {
      this.favorites := favorites;
      this.trashed := trashed;
    }

    method HandlePrevious()
      modifies this
      ensures currentIndex == Prev(old(currentIndex), total)
      ensures events == old(events) + [IndexChanged(currentIndex)]
      ensures old(InRange()) ==> InRange() && currentIndex == (old(currentIndex) - 1) % total
      ensures total == old(total) && favorites == old(favorites) && trashed == old(trashed)
    {
      if InRange() {
        NavigationInRange(currentIndex, total);
      }
      currentIndex := Prev(currentIndex, total);
      events := events + [IndexChanged(currentIndex)];
    }

    method HandleNext()
      modifies this
      ensures currentIndex == Next(old(currentIndex), total)
      ensures events == old(events) + [IndexChanged(currentIndex)]
      ensures old(InRange()) ==> InRange() && currentIndex == (old(currentIndex) + 1) % total
      ensures total == old(total) && favorites == old(favorites) && trashed == old(trashed)
    {
      if InRange() {
        NavigationInRange(currentIndex, total);
      }
      currentIndex := Next(currentIndex, total);
      events := events + [IndexChanged(currentIndex)];
    }

    method HandleFavorite()
      modifies this
      ensures events == old(events) + [FavoriteRequested(currentIndex)]
      ensures total == old(total) && currentIndex == old(currentIndex)
      ensures favorites == old(favorites) && trashed == old(trashed)
    {
      events := events + [FavoriteRequested(currentIndex)];
    }

    /** The trash button; it cannot be pressed while the current asset is trashed. */
    method HandleTrash()
      requires !IsCurrentTrashed()
      modifies this
      ensures events == old(events) + [TrashRequested(currentIndex)]
      ensures total == old(total) && currentIndex == old(currentIndex)
      ensures favorites == old(favorites) && trashed == old(trashed)
    {
      events := events + [TrashRequested(currentIndex)];
    }

    method HandleDropdownSelect(item: string)
      modifies this
      ensures events == old(events) + [CollectionChosen(item)]
      ensures total == old(total) && currentIndex == old(currentIndex)
      ensures favorites == old(favorites) && trashed == old(trashed)
    {
      events := events + [CollectionChosen(item)];
    }
  }

  /** The "Move to collection" menu. */
  class CollectionMenu {
    var isOpen: bool
    /** The items reported to the counter, oldest first. */
    var chosen: seq<string>

    constructor()
      ensures !isOpen && chosen == []
    {
      isOpen := false;
      chosen := [];
    }

    method ToggleOpen()
      modifies this
      ensures isOpen == !old(isOpen) && chosen == old(chosen)
    {
      isOpen := !isOpen;
    }

    /** Clicking an item reports it and closes the menu. */
    method ItemClick(item: string)
      modifies this
      ensures chosen == old(chosen) + [item] && !isOpen
    {
      chosen := chosen + [item];
      isOpen := false;
    }
  }
}
