/** The dropdown menu: items given as plain labels get a default icon for the four
    well-known labels, items given with their own icon are kept as they are, and the
    menu opens and closes around a choice. */
module Dropdown {
  import opened Wrappers

  /** The icons a menu item can carry: the four defaults, or one the caller supplies. */
  datatype Icon = UserIcon | SettingsIcon | HelpCircleIcon | LogOutIcon | CustomIcon(name: string)

  /** An item as the caller passes it: a bare label, or a label (`text`) with an
      optional icon. */
  datatype Item = Plain(text: string) | Labelled(text: string, icon: Option<Icon>)

  /** The icon a bare label gets. */
  function DefaultIcon(name: string): (icon: Option<Icon>)
    ensures icon.Some? <==> name in {"Profile", "Settings", "Help", "Sign out"}
  {
    if name == "Profile" then Some(UserIcon)
    else if name == "Settings" then Some(SettingsIcon)
    else if name == "Help" then Some(HelpCircleIcon)
    else if name == "Sign out" then Some(LogOutIcon)
    else None
  }

  function Process(item: Item): Item {
    match item
    case Plain(text) => Labelled(text, DefaultIcon(text))
    case Labelled(_, _) => item
  }

  /** `processedItems`: every item in the labelled form, position by position. */
  function ProcessItems(items: seq<Item>): (processed: seq<Item>)
    ensures |processed| == |items|
    ensures forall i :: 0 <= i < |items| ==> processed[i].Labelled? && processed[i].text == items[i].text
    ensures forall i :: 0 <= i < |items| && items[i].Plain? ==> processed[i].icon == DefaultIcon(items[i].text)
    ensures forall i :: 0 <= i < |items| && items[i].Labelled? ==> processed[i] == items[i]
  {
    seq(|items|, i requires 0 <= i < |items| => Process(items[i]))
  }

  /** Processing twice is processing once. */
  lemma ProcessItemsIdempotent(items: seq<Item>)
    ensures ProcessItems(ProcessItems(items)) == ProcessItems(items)
  {
  }

  class Menu {
    var items: seq<Item>
    var isOpen: bool
    /** The labels reported through `onItemSelect`, oldest first. */
    var selected: seq<string>

    constructor(items: seq<Item>)
      ensures this.items == items && !isOpen && selected == []
    {
      this.items := items;
      isOpen := false;
      selected := [];
    }

    /** The items on screen: all of them, processed, while open; none while closed. */
    function Rendered(): (shown: seq<Item>)
      reads this
      ensures isOpen ==> shown == ProcessItems(items)
      ensures !isOpen ==> shown == []
    {
      if isOpen then ProcessItems(items) else []
    }

    method ToggleDropdown()
      modifies this
      ensures isOpen == !old(isOpen) && items == old(items) && selected == old(selected)
      ensures old(isOpen) ==> Rendered() == []
      ensures !old(isOpen) ==> |Rendered()| == |items|
    {
      isOpen := !isOpen;
    }

    /** Clicking the `k`-th item reports its label and closes the menu. */
    method SelectItem(k: nat)
      requires k < |items|
      modifies this
      ensures items == old(items) && selected == old(selected) + [items[k].text]
      ensures !isOpen && Rendered() == []
    {
      selected := selected + [ProcessItems(items)[k].text];
      isOpen := false;
    }
  }

  /** An open menu lists every item, in order, under its own label; a plain label
      shows its default icon, and an item with its own icon keeps it. */
  lemma OpenMenuShowsEveryItem(m: Menu)
    requires m.isOpen
    ensures |m.Rendered()| == |m.items|
    ensures forall i :: 0 <= i < |m.items| ==> m.Rendered()[i] == Labelled(m.items[i].text, m.Rendered()[i].icon)
    ensures forall i :: 0 <= i < |m.items| ==>
              m.Rendered()[i].icon == (if m.items[i].Plain? then DefaultIcon(m.items[i].text) else m.items[i].icon)
  {
  }
}
