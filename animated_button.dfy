/** The animated payment button: on hover the default text's characters slide out
    one after another and the hover text's characters slide in after them; on leaving,
    the hover text slides out and the default text returns from its last character.
    Delays are in milliseconds, 30 apart. */
module AnimatedButton {

  const Stagger: int := 30
  const NoBreakSpace: char := '\U{00A0}'

  /** How long the default text takes to start leaving, first to last character. */
  function TotalPaymentSlideDuration(defaultLen: nat): int {
    (defaultLen - 1) * Stagger
  }

  /** The transition delay of default-text character `i`. */
  function DefaultDelay(hovered: bool, i: int, defaultLen: nat, hoverLen: nat): int {
    if hovered then i * Stagger
    else (hoverLen + 2) * Stagger + (defaultLen - i - 1) * Stagger
  }

  /** The transition delay of hover-text character `i`. */
  function HoverDelay(hovered: bool, i: int, defaultLen: nat): int {
    if hovered then TotalPaymentSlideDuration(defaultLen) + i * Stagger else i * Stagger
  }

  /** The delays of a whole text, character by character. */
  function DefaultSchedule(hovered: bool, defaultLen: nat, hoverLen: nat): (delays: seq<int>)
    ensures |delays| == defaultLen
  {
    seq(defaultLen, i requires 0 <= i < defaultLen => DefaultDelay(hovered, i, defaultLen, hoverLen))
  }

  function HoverSchedule(hovered: bool, defaultLen: nat, hoverLen: nat): (delays: seq<int>)
    ensures |delays| == hoverLen
  {
    seq(hoverLen, i requires 0 <= i < hoverLen => HoverDelay(hovered, i, defaultLen))
  }

  /** Hovering: the default text leaves left to right, 30 ms apart, and no hover
      character starts before the last default character has started leaving. */
  lemma HoverSchedules(defaultLen: nat, hoverLen: nat)
    ensures var d := DefaultSchedule(true, defaultLen, hoverLen);
            forall i :: 0 <= i < defaultLen ==> d[i] == Stagger * i
    ensures var d := DefaultSchedule(true, defaultLen, hoverLen);
            var h := HoverSchedule(true, defaultLen, hoverLen);
            forall i, j :: 0 <= i < defaultLen && 0 <= j < hoverLen ==> d[i] <= h[j]
  {
  }

  /** Leaving: the default text returns from its last character to its first, 30 ms
      apart, and every default character starts after every hover character has
      started leaving, by at least 90 ms. */
  lemma UnhoverSchedules(defaultLen: nat, hoverLen: nat)
    ensures var d := DefaultSchedule(false, defaultLen, hoverLen);
            forall i, j :: 0 <= i < j < defaultLen ==> d[i] > d[j]
    ensures var d := DefaultSchedule(false, defaultLen, hoverLen);
            defaultLen > 0 ==> d[defaultLen - 1] == Stagger * (hoverLen + 2)
    ensures var d := DefaultSchedule(false, defaultLen, hoverLen);
            var h := HoverSchedule(false, defaultLen, hoverLen);
            forall i, j :: 0 <= i < defaultLen && 0 <= j < hoverLen ==> d[i] >= h[j] + 3 * Stagger
  {
  }

  /** How the default text is rendered: each space becomes a no-break space so the
      per-character spans keep their width. */
  function RenderDefault(text: string): (shown: string)
    ensures |shown| == |text|
    ensures ' ' !in shown
    ensures forall i :: 0 <= i < |text| && text[i] != ' ' ==> shown[i] == text[i]
  {
    seq(|text|, i requires 0 <= i < |text| => if text[i] == ' ' then NoBreakSpace else text[i])
  }

  /** Rendering keeps every character that was not a space, so a text without spaces
      or no-break spaces is recovered by undoing the replacement. */
  lemma RenderDefaultPositions(text: string)
    ensures forall i :: 0 <= i < |text| ==>
              (RenderDefault(text)[i] == NoBreakSpace <==> text[i] == ' ' || text[i] == NoBreakSpace)
  {
  }

  class Button {
    var isHovered: bool
    /** Whether the button element and the animation library are both available. */
    var buttonMounted: bool
    var animeLoaded: bool

    constructor()
      ensures !isHovered && !buttonMounted && !animeLoaded
    {
      isHovered := false;
      buttonMounted := false;
      animeLoaded := false;
    }

    /** The element is attached and the library's script has loaded. */
    method Ready(mounted: bool, loaded: bool)
      modifies this
      ensures buttonMounted == mounted && animeLoaded == loaded && isHovered == old(isHovered)
    {
      buttonMounted := mounted;
      animeLoaded := loaded;
    }

    /** Until both are there, entering changes nothing. */
    method MouseEnter()
      modifies this
      ensures !(old(buttonMounted) && old(animeLoaded)) ==> unchanged(this)
      ensures old(buttonMounted) && old(animeLoaded) ==> isHovered
      ensures buttonMounted == old(buttonMounted) && animeLoaded == old(animeLoaded)
    {
      if !buttonMounted || !animeLoaded {
        return;
      }
      isHovered := true;
    }

    method MouseLeave()
      modifies this
      ensures !(old(buttonMounted) && old(animeLoaded)) ==> unchanged(this)
      ensures old(buttonMounted) && old(animeLoaded) ==> !isHovered
      ensures buttonMounted == old(buttonMounted) && animeLoaded == old(animeLoaded)
    {
      if !buttonMounted || !animeLoaded {
        return;
      }
      isHovered := false;
    }
  }
}
