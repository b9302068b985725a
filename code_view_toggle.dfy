/** The code panel beside a demo: a switch that opens and closes it, a copy button
    whose tick reverts after two seconds, and the layout values derived from the
    open flag. Time is an abstract millisecond clock advanced by the caller. */
module CodeViewToggle {
  import opened Wrappers

  const PanelWidth: int := 672
  const PanelMargin: int := 16
  const TotalPanelWidth: int := PanelWidth + PanelMargin
  /** How long the copied tick stays, in milliseconds. */
  const CopiedResetDelay: int := 2000

  /** The horizontal shift applied to both the content and the switch. */
  function ElementShift(showCode: bool): (shift: int)
    ensures showCode ==> shift == -344
    ensures !showCode ==> shift == 0
  {
    if showCode then -TotalPanelWidth / 2 else 0
  }

  /** The content width in pixels for a viewport of the given width. */
  function ContentWidth(showCode: bool, viewport: real): real {
    if showCode then viewport - TotalPanelWidth as real else viewport
  }

  /** The switch knob's offset: 20 when open, 0 when closed. */
  function KnobX(showCode: bool): (x: int)
    ensures x == 20 <==> showCode
    ensures x == 0 <==> !showCode
  {
    if showCode then 20 else 0
  }

  /** The knob moves with the content: it is at 20 exactly when the content is
      shifted by half the panel, and at 0 exactly when the content is not shifted. */
  lemma KnobFollowsShift(showCode: bool)
    ensures KnobX(showCode) == 20 <==> ElementShift(showCode) == -TotalPanelWidth / 2
    ensures KnobX(showCode) == 0 <==> ElementShift(showCode) == 0
  {
  }

  /** The content is centred on the viewport's middle, moved by the shift, and sized
      by the width: its left edge is then at 0 and its right edge where the panel and
      its margin begin, so the shifted content exactly fills the space beside the panel. */
  lemma ContentFillsSpaceBesidePanel(showCode: bool, viewport: real)
    ensures var left := viewport / 2.0 + ElementShift(showCode) as real - ContentWidth(showCode, viewport) / 2.0;
            && left == 0.0
            && left + ContentWidth(showCode, viewport) == viewport - (if showCode then TotalPanelWidth as real else 0.0)
  {
  }

  class Toggle {
    var showCode: bool
    var copied: bool
    /** When the pending reset timer fires, if one is pending. */
    var resetAt: Option<int>
    /** The current time in milliseconds. */
    var now: int
    /** Whether `document.body` has the class `overflow-x-hidden`. */
    var bodyOverflowHidden: bool
    var mounted: bool
    /** The system clipboard's text. */
    var clipboard: string

    /** While mounted, the body class follows `showCode` and a reset timer is pending
        exactly while `copied`, due within two seconds; once unmounted the class is
        gone and no timer is left. */
    predicate Valid()
      reads this
    {
      && (mounted ==> bodyOverflowHidden == showCode)
      && (mounted ==> (copied <==> resetAt.Some?))
      && (resetAt.Some? ==> now < resetAt.value <= now + CopiedResetDelay)
      && (!mounted ==> !bodyOverflowHidden && resetAt.None?)
    }

    constructor(now: int, clipboard: string)
      ensures Valid() && mounted
      ensures !showCode && !copied && resetAt == None && !bodyOverflowHidden
      ensures this.now == now && this.clipboard == clipboard
    {
      showCode := false;
      copied := false;
      resetAt := None;
      this.now := now;
      bodyOverflowHidden := false;
      mounted := true;
      this.clipboard := clipboard;
    }

    /** The switch: flips the panel, and the body effect follows. */
    method ToggleCode()
      requires Valid() && mounted
      modifies this
      ensures Valid()
      ensures showCode == !old(showCode) && bodyOverflowHidden == showCode
      ensures copied == old(copied) && resetAt == old(resetAt) && now == old(now)
      ensures mounted && clipboard == old(clipboard)
    {
      showCode := !showCode;
      bodyOverflowHidden := showCode;
    }

    /** The panel's close button. Closing a closed panel changes nothing. */
    method Close()
      requires Valid() && mounted
      modifies this
      ensures Valid()
      ensures !showCode && !bodyOverflowHidden
      ensures copied == old(copied) && resetAt == old(resetAt) && now == old(now)
      ensures mounted && clipboard == old(clipboard)
      ensures !old(showCode) ==> unchanged(this)
    {
      showCode := false;
      bodyOverflowHidden := false;
    }

    /** The copy button: the clipboard write either succeeds, and the tick is set, or
        fails, and nothing changes. Setting the tick when it is already set re-runs no
        effect, so the pending timer keeps its original due time. */
    method CopyToClipboard(code: string, writeSucceeds: bool)
      requires Valid() && mounted
      modifies this
      ensures Valid()
      ensures !writeSucceeds ==> unchanged(this)
      ensures writeSucceeds ==> copied && clipboard == code
      ensures writeSucceeds && !old(copied) ==> resetAt == Some(now + CopiedResetDelay)
      ensures old(copied) ==> resetAt == old(resetAt)
      ensures showCode == old(showCode) && bodyOverflowHidden == old(bodyOverflowHidden)
      ensures now == old(now) && mounted
    {
      if writeSucceeds {
        clipboard := code;
        if !copied {
          copied := true;
          resetAt := Some(now + CopiedResetDelay);
        }
      }
    }

    /** Time passes to `t`; a reset timer due by then fires and clears the tick. */
    method AdvanceTo(t: int)
      requires Valid() && now <= t
      modifies this
      ensures Valid()
      ensures now == t
      ensures copied == (old(copied) && !(old(resetAt).Some? && old(resetAt).value <= t))
      ensures resetAt == if old(resetAt).Some? && old(resetAt).value <= t then None else old(resetAt)
      ensures showCode == old(showCode) && bodyOverflowHidden == old(bodyOverflowHidden)
      ensures mounted == old(mounted) && clipboard == old(clipboard)
    {
      now := t;
      if resetAt.Some? && resetAt.value <= t {
        copied := false;
        resetAt := None;
      }
    }

    /** Unmounting: the body effect's cleanup removes the class, and the timer is cleared. */
    method Unmount()
      requires Valid() && mounted
      modifies this
      ensures Valid()
      ensures !mounted && !bodyOverflowHidden && resetAt == None
      ensures showCode == old(showCode) && copied == old(copied) && now == old(now) && clipboard == old(clipboard)
    {
      mounted := false;
      bodyOverflowHidden := false;
      resetAt := None;
    }
  }

  /** A copy at time 0 and another at 1500 leave the tick due at 2000, not 3500: it is
      still shown at 1999 and gone at 2000. */
  method SecondCopyKeepsTimer() returns (at1999: bool, at2000: bool)
    ensures at1999 && !at2000
  {
    var t := new Toggle(0, "");
    t.ToggleCode();
    t.CopyToClipboard("x", true);
    t.AdvanceTo(1500);
    t.CopyToClipboard("x", true);
    t.AdvanceTo(1999);
    at1999 := t.copied;
    t.AdvanceTo(2000);
    at2000 := t.copied;
  }
}
