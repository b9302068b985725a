/** The asset counter demo page: five assets, a favourites list that toggles, a trash
    list that only grows, a move to the next asset after trashing, and a notification
    for the chosen collection. */
module AssetCounterDemo {
  import opened Wrappers
  import AssetCounter

  const TotalAssets: int := 5
  const NewCollection: string := "New Collection"
  const CreatingMessage: string := "Creating a new collection..."

  /** `s.filter(i => i !== x)`: every occurrence of `x` removed, the rest kept in order. */
  function RemoveAll(s: seq<int>, x: int): (r: seq<int>)
    ensures x !in r
    ensures forall y :: y != x ==> multiset(r)[y] == multiset(s)[y]
    decreases |s|
  {
    if s == [] then []
    else
      var rest := RemoveAll(s[1..], x);
      assert s == [s[0]] + s[1..];
      if s[0] == x then rest else [s[0]] + rest
  }

  /** `handleFavorite`'s update: unfavourite when present, else append. */
  function ToggleFavorite(favorites: seq<int>, index: int): seq<int> {
    if index in favorites then RemoveAll(favorites, index) else favorites + [index]
  }

  /** `handleTrash`'s update: append when absent. */
  function AddToTrash(trashed: seq<int>, index: int): seq<int> {
    if index in trashed then trashed else trashed + [index]
  }

  /** Favouriting flips the membership of that index and leaves every other
      index's membership as it was. */
  lemma ToggleFavoriteFlips(favorites: seq<int>, index: int, other: int)
    requires other != index
    ensures index in ToggleFavorite(favorites, index) <==> index !in favorites
    ensures other in ToggleFavorite(favorites, index) <==> other in favorites
  {
    if index in favorites {
      var r := RemoveAll(favorites, index);
      assert other in r <==> multiset(r)[other] > 0;
      assert other in favorites <==> multiset(favorites)[other] > 0;
    }
  }

  /** Favouriting the same index twice restores the set of favourites. */
  lemma ToggleFavoriteTwice(favorites: seq<int>, index: int, y: int)
    ensures y in ToggleFavorite(ToggleFavorite(favorites, index), index) <==> y in favorites
  {
    var once := ToggleFavorite(favorites, index);
    if y == index {
      ToggleFavoriteFlips(favorites, index, index + 1);
      ToggleFavoriteFlips(once, index, index + 1);
    } else {
      ToggleFavoriteFlips(favorites, index, y);
      ToggleFavoriteFlips(once, index, y);
    }
  }

  /** Trashing keeps every trashed asset, adds the index, adds it at most once, and
      trashing again changes nothing. */
  lemma AddToTrashProperties(trashed: seq<int>, index: int)
    ensures forall y :: y in trashed ==> y in AddToTrash(trashed, index)
    ensures index in AddToTrash(trashed, index)
    ensures forall y :: y in AddToTrash(trashed, index) ==> y in trashed || y == index
    ensures multiset(AddToTrash(trashed, index))[index] == if index in trashed then multiset(trashed)[index] else 1
    ensures AddToTrash(AddToTrash(trashed, index), index) == AddToTrash(trashed, index)
  {
    if index !in trashed {
      assert multiset(trashed)[index] == 0;
    }
  }

  /** Where `handleTrash` moves to, given the trash list as it was before the call:
      the next asset round the five, unless four were already trashed. */
  function AssetAfterTrash(index: int, trashedBefore: seq<int>): Option<int> {
    if |trashedBefore| < TotalAssets - 1 then Some((index + 1) % TotalAssets) else None
  }

  lemma AssetAfterTrashInRange(index: int, trashedBefore: seq<int>)
    ensures AssetAfterTrash(index, trashedBefore).Some? <==> |trashedBefore| <= 3
    ensures AssetAfterTrash(index, trashedBefore).Some? ==>
            0 <= AssetAfterTrash(index, trashedBefore).value < TotalAssets
    ensures 0 <= index < TotalAssets - 1 && AssetAfterTrash(index, trashedBefore).Some? ==>
            AssetAfterTrash(index, trashedBefore).value == index + 1
    ensures index == TotalAssets - 1 && AssetAfterTrash(index, trashedBefore).Some? ==>
            AssetAfterTrash(index, trashedBefore).value == 0
  {
  }

  // ---------------------------------------------------------------------------
  // The notification text

  function DigitChar(d: int): char
    requires 0 <= d < 10
  {
    "0123456789"[d]
  }

  /** A non-negative number in decimal, as a template literal prints it. */
  function Decimal(n: nat): (s: string)
    ensures |s| >= 1
    ensures forall i :: 0 <= i < |s| ==> '0' <= s[i] <= '9'
    decreases n
  {
    if n < 10 then [DigitChar(n)] else Decimal(n / 10) + [DigitChar(n % 10)]
  }

  /** The number a string of decimal digits denotes. */
  function DecimalValue(s: string): nat
    requires forall i :: 0 <= i < |s| ==> '0' <= s[i] <= '9'
    decreases |s|
  {
    if s == [] then 0 else 10 * DecimalValue(s[..|s| - 1]) + (s[|s| - 1] as int - '0' as int)
  }

  /** Printing a number and reading it back gives the number. */
  lemma {:induction false} DecimalValueOfDecimal(n: nat)
    ensures DecimalValue(Decimal(n)) == n
    decreases n
  {
    if n >= 10 {
      DecimalValueOfDecimal(n / 10);
      var s := Decimal(n);
      assert s[..|s| - 1] == Decimal(n / 10);
    }
  }

  /** The notification under the counter, if one is shown: none for no (or an empty)
      collection, a fixed text for a new collection, else which asset moved where. */
  function Notification(selectedCollection: Option<string>, currentAsset: nat): Option<string> {
    if selectedCollection.None? || selectedCollection.value == "" then None
    else if selectedCollection.value == NewCollection then Some(CreatingMessage)
    else Some("Asset " + Decimal(currentAsset + 1) + " moved to " + selectedCollection.value)
  }

  /** The notification names the collection and, read back, the one-based asset:
      "Asset ", the digits, " moved to ", the name, and nothing else. */
  lemma NotificationNamesAsset(name: string, currentAsset: nat)
    requires name != "" && name != NewCollection
    ensures var text := Notification(Some(name), currentAsset).value;
            var digits := Decimal(currentAsset + 1);
            && |text| == 6 + |digits| + 10 + |name|
            && text[..6] == "Asset "
            && text[6..6 + |digits|] == digits && DecimalValue(digits) == currentAsset + 1
            && text[6 + |digits|..16 + |digits|] == " moved to "
            && text[16 + |digits|..] == name
  {
    DecimalValueOfDecimal(currentAsset + 1);
  }

  /** Choosing "New Collection" shows the fixed creation notice, whatever the asset. */
  lemma NewCollectionNotice(currentAsset: nat)
    ensures Notification(Some(NewCollection), currentAsset) == Some(CreatingMessage)
  {
  }

  /** Every entry of the counter's collection menu produces a notice: the creation
      notice for the last entry, and a move notice naming the entry for the others. */
  lemma MenuNotices(currentAsset: nat)
    ensures forall item :: item in AssetCounter.DropdownItems ==> Notification(Some(item), currentAsset).Some?
    ensures AssetCounter.DropdownItems[|AssetCounter.DropdownItems| - 1] == NewCollection
    ensures forall k :: 0 <= k < |AssetCounter.DropdownItems| - 1 ==>
              var item := AssetCounter.DropdownItems[k];
              var text := Notification(Some(item), currentAsset).value;
              |item| <= |text| && text[|text| - |item|..] == item
  {
    forall k | 0 <= k < |AssetCounter.DropdownItems| - 1
      ensures var item := AssetCounter.DropdownItems[k];
              var text := Notification(Some(item), currentAsset).value;
              |item| <= |text| && text[|text| - |item|..] == item
    {
      NotificationNamesAsset(AssetCounter.DropdownItems[k], currentAsset);
    }
  }

  class Demo {
    var currentAsset: int
    var favorites: seq<int>
    var trashed: seq<int>
    var selectedCollection: Option<string>

    constructor()
      ensures currentAsset == 0 && favorites == [] && trashed == [] && selectedCollection == None
    {
      currentAsset := 0;
      favorites := [];
      trashed := [];
      selectedCollection := None;
    }

    /** `onIndexChange` from the counter. */
    method SetCurrentAsset(index: int)
      modifies this
      ensures currentAsset == index
      ensures favorites == old(favorites) && trashed == old(trashed) && selectedCollection == old(selectedCollection)
    {
      currentAsset := index;
    }

    method HandleFavorite(index: int)
      modifies this
      ensures favorites == ToggleFavorite(old(favorites), index)
      ensures currentAsset == old(currentAsset) && trashed == old(trashed) && selectedCollection == old(selectedCollection)
    {
      favorites := ToggleFavorite(favorites, index);
    }

    /** The decision to move on reads `trashed` as it was before this call. */
    method HandleTrash(index: int)
      modifies this
      ensures trashed == AddToTrash(old(trashed), index)
      ensures currentAsset == match AssetAfterTrash(index, old(trashed))
                              case Some(next) => next
                              case None => old(currentAsset)
      ensures favorites == old(favorites) && selectedCollection == old(selectedCollection)
    {
      var next := AssetAfterTrash(index, trashed);
      trashed := AddToTrash(trashed, index);
      if next.Some? {
        currentAsset := next.value;
      }
    }

    method HandleDropdownSelect(item: string)
      modifies this
      ensures selectedCollection == Some(item)
      ensures currentAsset == old(currentAsset) && favorites == old(favorites) && trashed == old(trashed)
    {
      selectedCollection := Some(item);
    }
  }

  /** Trashing all five assets in order: each of the first four moves on, but the fifth
      stays, because four were already trashed before it. */
  method TrashEverything() returns (assets: seq<int>, trashCount: int)
    ensures assets == [1, 2, 3, 4, 4] && trashCount == 5
  {
    var demo := new Demo();
    demo.HandleTrash(demo.currentAsset);
    assets := [demo.currentAsset];
    demo.HandleTrash(demo.currentAsset);
    assets := assets + [demo.currentAsset];
    demo.HandleTrash(demo.currentAsset);
    assets := assets + [demo.currentAsset];
    demo.HandleTrash(demo.currentAsset);
    assets := assets + [demo.currentAsset];
    demo.HandleTrash(demo.currentAsset);
    assets := assets + [demo.currentAsset];
    trashCount := |demo.trashed|;
  }
}
