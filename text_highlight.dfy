/** The text highlight article: highlighted spans register themselves in a sparse
    array by position, and once the animation library and its scroll plugin are
    there, every registered span gets a highlight colour cycling green, pink, blue.
    Elements are identified by number. */
module TextHighlight {
  import opened Wrappers

  datatype Color = Green | Pink | Blue

  /** The colour table, in its key order. */
  const ColorKeys: seq<Color> := [Green, Pink, Blue]

  /** The colour's value in the gradient. */
  function Hex(c: Color): string {
    match c
    case Green => "#1BFC06"
    case Pink => "#FF3366"
    case Blue => "#00CCFF"
  }

  /** The colour of the highlight at position `index`. */
  function ColorFor(index: nat): (c: Color)
    ensures c == ColorKeys[index % 3]
  {
    ColorKeys[index % |ColorKeys|]
  }

  /** The colours repeat every three highlights, and neighbours differ, down to the
      gradient's hex value. */
  lemma ColorCycles(index: nat)
    ensures ColorFor(index + 3) == ColorFor(index)
    ensures ColorFor(index + 1) != ColorFor(index)
    ensures Hex(ColorFor(index + 1)) != Hex(ColorFor(index))
  {
  }

  /** A sparse array: a slot holds an element or is a hole. */
  type Refs = seq<Option<nat>>

  predicate Holds(refs: Refs, el: nat) {
    exists i :: 0 <= i < |refs| && refs[i] == Some(el)
  }

  /** `refs[index] = el`, growing the array with holes when `index` is past its end. */
  function Store(refs: Refs, index: nat, el: nat): (r: Refs)
    ensures |r| == if index < |refs| then |refs| else index + 1
    ensures r[index] == Some(el)
    ensures forall i :: 0 <= i < |r| && i != index ==> r[i] == if i < |refs| then refs[i] else None
  {
    if index < |refs| then refs[index := Some(el)]
    else refs + seq(index - |refs|, _ => None) + [Some(el)]
  }

  /** `addToHighlightRefs`: a null element, or one already somewhere in the array,
      changes nothing. */
  function Register(refs: Refs, el: Option<nat>, index: nat): Refs {
    if el.Some? && !Holds(refs, el.value) then Store(refs, index, el.value) else refs
  }

  /** Registering the same element a second time, at any position, changes nothing. */
  lemma RegisterTwice(refs: Refs, el: nat, index: nat, again: nat)
    ensures Register(Register(refs, Some(el), index), Some(el), again) == Register(refs, Some(el), index)
  {
    var once := Register(refs, Some(el), index);
    if !Holds(refs, el) {
      assert once[index] == Some(el);
    } else {
      assert once == refs;
    }
    assert Holds(once, el);
  }

  /** One highlight animation: the slot, its element and its colour. */
  datatype Animation = Animation(index: nat, element: nat, color: Color)

  /** The animations `initAnimations` sets up for the slots `refs[..n]`, skipping holes. */
  function AnimationsUpTo(refs: Refs, n: nat): seq<Animation>
    requires n <= |refs|
  {
    if n == 0 then []
    else
      AnimationsUpTo(refs, n - 1) +
      (match refs[n - 1] case Some(el) => [Animation(n - 1, el, ColorFor(n - 1))] case None => [])
  }

  function Animations(refs: Refs): seq<Animation> {
    AnimationsUpTo(refs, |refs|)
  }

  /** Every animation belongs to a slot that holds its element, and has the slot's colour. */
  lemma {:induction false} AnimationsOnlyRegistered(refs: Refs, n: nat, a: Animation)
    requires n <= |refs| && a in AnimationsUpTo(refs, n)
    ensures a.index < n && refs[a.index] == Some(a.element) && a.color == ColorFor(a.index)
    decreases n
  {
    var before := AnimationsUpTo(refs, n - 1);
    if a in before {
      AnimationsOnlyRegistered(refs, n - 1, a);
    }
  }

  /** Every slot that holds an element has its animation. */
  lemma {:induction false} AnimationsCoverRegistered(refs: Refs, n: nat, i: nat)
    requires i < n <= |refs| && refs[i].Some?
    ensures Animation(i, refs[i].value, ColorFor(i)) in AnimationsUpTo(refs, n)
    decreases n
  {
    if i < n - 1 {
      AnimationsCoverRegistered(refs, n - 1, i);
    }
  }

  /** The animations come in slot order, one per slot. */
  lemma {:induction false} AnimationsInSlotOrder(refs: Refs, n: nat)
    requires n <= |refs|
    ensures forall k, l :: 0 <= k < l < |AnimationsUpTo(refs, n)| ==>
              AnimationsUpTo(refs, n)[k].index < AnimationsUpTo(refs, n)[l].index
    decreases n
  {
    if n > 0 {
      var before := AnimationsUpTo(refs, n - 1);
      AnimationsInSlotOrder(refs, n - 1);
      forall a | a in before ensures a.index < n - 1 {
        AnimationsOnlyRegistered(refs, n - 1, a);
      }
      var all := AnimationsUpTo(refs, n);
      forall k, l | 0 <= k < l < |all| ensures all[k].index < all[l].index {
        if l < |before| {
          assert all[k] == before[k] && all[l] == before[l];
        } else {
          assert all[k] == before[k];
          assert all[k] in before;
          assert all[l].index == n - 1;
        }
      }
    }
  }

  /** `initAnimations` animates exactly the registered slots: each animation is for a
      slot holding its element, in that slot's colour, each such slot has one, and
      they come in slot order. */
  lemma AnimationsExactlyRegistered(refs: Refs)
    ensures forall a :: a in Animations(refs) ==>
              a.index < |refs| && refs[a.index] == Some(a.element) && a.color == ColorFor(a.index)
    ensures forall i :: 0 <= i < |refs| && refs[i].Some? ==>
              Animation(i, refs[i].value, ColorFor(i)) in Animations(refs)
    ensures forall k, l :: 0 <= k < l < |Animations(refs)| ==> Animations(refs)[k].index < Animations(refs)[l].index
  {
    forall a | a in Animations(refs)
      ensures a.index < |refs| && refs[a.index] == Some(a.element) && a.color == ColorFor(a.index)
    {
      AnimationsOnlyRegistered(refs, |refs|, a);
    }
    forall i | 0 <= i < |refs| && refs[i].Some?
      ensures Animation(i, refs[i].value, ColorFor(i)) in Animations(refs)
    {
      AnimationsCoverRegistered(refs, |refs|, i);
    }
    AnimationsInSlotOrder(refs, |refs|);
  }

  /** The highlight spans on the page, registered at positions 0, 2, 3, 4 and 6. */
  const PagePositions: seq<nat> := [0, 2, 3, 4, 6]

  /** Registering five distinct spans at the page's positions leaves holes at 1 and 5,
      and the animations colour the highlights green, blue, green, pink, green. */
  lemma PageColors(e0: nat, e2: nat, e3: nat, e4: nat, e6: nat)
    requires e0 != e2 && e0 != e3 && e0 != e4 && e0 != e6 && e2 != e3
    requires e2 != e4 && e2 != e6 && e3 != e4 && e3 != e6 && e4 != e6
    ensures var refs := Register(Register(Register(Register(Register([], Some(e0), 0), Some(e2), 2), Some(e3), 3), Some(e4), 4), Some(e6), 6);
            && refs == [Some(e0), None, Some(e2), Some(e3), Some(e4), None, Some(e6)]
            && Animations(refs) == [Animation(0, e0, Green), Animation(2, e2, Blue), Animation(3, e3, Green),
                                    Animation(4, e4, Pink), Animation(6, e6, Green)]
  {
    var r1 := Register([], Some(e0), 0);
    assert r1 == [Some(e0)];
    var r2 := Register(r1, Some(e2), 2);
    assert !Holds(r1, e2);
    assert r2 == [Some(e0), None, Some(e2)];
    var r3 := Register(r2, Some(e3), 3);
    assert !Holds(r2, e3);
    assert r3 == [Some(e0), None, Some(e2), Some(e3)];
    var r4 := Register(r3, Some(e4), 4);
    assert !Holds(r3, e4);
    assert r4 == [Some(e0), None, Some(e2), Some(e3), Some(e4)];
    var r5 := Register(r4, Some(e6), 6);
    assert !Holds(r4, e6);
    assert r5 == [Some(e0), None, Some(e2), Some(e3), Some(e4), None, Some(e6)];
    assert AnimationsUpTo(r5, 1) == [Animation(0, e0, Green)];
    assert AnimationsUpTo(r5, 3) == [Animation(0, e0, Green), Animation(2, e2, Blue)];
    assert AnimationsUpTo(r5, 5) == [Animation(0, e0, Green), Animation(2, e2, Blue), Animation(3, e3, Green),
                                     Animation(4, e4, Pink)];
    assert AnimationsUpTo(r5, 6) == AnimationsUpTo(r5, 5);
  }

  class Article {
    var refs: Refs
    var gsapLoaded: bool
    var scrollTriggerLoaded: bool
    /** The highlight timelines created so far. */
    var animations: seq<Animation>

    constructor()
      ensures refs == [] && !gsapLoaded && !scrollTriggerLoaded && animations == []
    {
      refs := [];
      gsapLoaded := false;
      scrollTriggerLoaded := false;
      animations := [];
    }

    /** A span's ref callback. */
    method AddToHighlightRefs(el: Option<nat>, index: nat)
      modifies this
      ensures refs == Register(old(refs), el, index)
      ensures gsapLoaded == old(gsapLoaded) && scrollTriggerLoaded == old(scrollTriggerLoaded)
      ensures animations == old(animations)
    {
      if el.Some? && !Holds(refs, el.value) {
        if index < |refs| {
          refs := refs[index := el];
        } else {
          refs := refs + seq(index - |refs|, _ => None) + [el];
        }
      }
    }

    /** The scripts have loaded, as far as they have. */
    method Loaded(gsap: bool, scrollTrigger: bool)
      modifies this
      ensures gsapLoaded == gsap && scrollTriggerLoaded == scrollTrigger
      ensures refs == old(refs) && animations == old(animations)
    {
      gsapLoaded := gsap;
      scrollTriggerLoaded := scrollTrigger;
    }

    /** `initAnimations`: nothing unless both scripts are there; otherwise one timeline
        per registered slot, in slot order, skipping holes. */
    method InitAnimations()
      modifies this
      ensures !(old(gsapLoaded) && old(scrollTriggerLoaded)) ==> animations == old(animations)
      ensures old(gsapLoaded) && old(scrollTriggerLoaded) ==> animations == old(animations) + Animations(refs)
      ensures refs == old(refs) && gsapLoaded == old(gsapLoaded) && scrollTriggerLoaded == old(scrollTriggerLoaded)
    {
      if !gsapLoaded || !scrollTriggerLoaded {
        return;
      }
      var i := 0;
      while i < |refs|
        invariant 0 <= i <= |refs|
        invariant animations == old(animations) + AnimationsUpTo(refs, i)
        invariant refs == old(refs)
        invariant gsapLoaded == old(gsapLoaded) && scrollTriggerLoaded == old(scrollTriggerLoaded)
      {
        match refs[i] {
          case Some(el) =>
            animations := animations + [Animation(i, el, ColorFor(i))];
          case None =>
        }
        i := i + 1;
      }
    }
  }
}
