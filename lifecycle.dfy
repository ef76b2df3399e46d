/**
 * The registry of scene objects: each registered object keeps its config and
 * a state (position, opacity, active transforms, visibility) that is
 * recomputed from the scroll progress. A scroll-lock window near the end of
 * the page freezes the states while progress moves forward.
 */
module Lifecycle {
  import opened Strings
  import opened Interpolation
  import opened Transitions
  import opened Transforms

  /** The part of an object's configuration the registry reads. */
  datatype ObjectConfig = ObjectConfig(id: string, position: Point, transition: Transition, transformations: seq<Transform>)

  /** An object's `state` record. */
  datatype ObjectState = ObjectState(position: Point, opacity: real, transforms: map<TransformType, TransformValue>, visible: bool)

  /** An entry of the `objects` Map: `{config, state}`. */
  datatype Tracked = Tracked(config: ObjectConfig, state: ObjectState)

  /** Lines 20-25: a copy of the configured position, transparent, no transforms, not visible. */
  function FreshState(config: ObjectConfig): ObjectState
  {
    ObjectState(config.position, 0.0, map[], false)
  }

  /**
   * Lines 63-79: the old state overlaid with the transition's position and
   * opacity and with the active transforms; `visible` is not among the
   * fields the transition returns, so it keeps its old value.
   */
  function UpdatedState(t: Tracked, progress: real): ObjectState
  {
    var tr := CalculateTransition(t.config.position, t.config.transition, progress);
    t.state.(position := tr.position, opacity := tr.opacity,
             transforms := ActiveTransforms(t.config.transformations, progress))
  }

  function Updated(t: Tracked, progress: real): Tracked
  {
    Tracked(t.config, UpdatedState(t, progress))
  }

  /** Every object recomputed at `progress`. */
  function UpdateAll(objects: map<string, Tracked>, progress: real): map<string, Tracked>
  {
    map id | id in objects :: Updated(objects[id], progress)
  }

  /** Lines 121-124: an invisible state is made fully transparent. */
  function Cleaned(s: ObjectState): ObjectState
  {
    if s.visible then s else s.(opacity := 0.0)
  }

  /** Every object recomputed at `progress` and then cleaned. */
  function ForceAll(objects: map<string, Tracked>, progress: real): map<string, Tracked>
  {
    map id | id in objects :: Tracked(objects[id].config, Cleaned(UpdatedState(objects[id], progress)))
  }

  /** No object is visible. */
  predicate AllHidden(objects: map<string, Tracked>)
  {
    forall id :: id in objects ==> !objects[id].state.visible
  }

  /** The visible entries among `ids`, in that order, with their states. */
  function VisibleIn(ids: seq<string>, objects: map<string, Tracked>): seq<(string, ObjectState)>
    requires forall id :: id in ids ==> id in objects
  {
    if ids == [] then []
    else
      var id := ids[|ids| - 1];
      VisibleIn(ids[..|ids| - 1], objects) + (if objects[id].state.visible then [(id, objects[id].state)] else [])
  }

  /** `getVisibleObjects` lists exactly the visible entries, each with its own state. */
  lemma {:induction false} VisibleInSpec(ids: seq<string>, objects: map<string, Tracked>, id: string, s: ObjectState)
    requires forall x :: x in ids ==> x in objects
    ensures (id, s) in VisibleIn(ids, objects) <==>
      id in ids && objects[id].state.visible && s == objects[id].state
  {
    if ids != [] {
      var init := ids[..|ids| - 1];
      assert forall x :: x in init ==> x in ids;
      VisibleInSpec(init, objects, id, s);
      assert id in ids <==> id in init || id == ids[|ids| - 1];
    }
  }

  /** With every object hidden, `getVisibleObjects` is empty. */
  lemma {:induction false} NoneVisibleWhenHidden(ids: seq<string>, objects: map<string, Tracked>)
    requires forall x :: x in ids ==> x in objects
    requires AllHidden(objects)
    ensures VisibleIn(ids, objects) == []
  {
    if ids != [] {
      var init := ids[..|ids| - 1];
      assert forall x :: x in init ==> x in ids;
      NoneVisibleWhenHidden(init, objects);
    }
  }

  /**
   * Recomputing keeps the config and the visibility and takes position and
   * opacity from the transition, so the opacity lies in [0, 1].
   */
  lemma UpdateAllAt(objects: map<string, Tracked>, progress: real, id: string)
    requires id in objects
    ensures var t := UpdateAll(objects, progress)[id];
      t.config == objects[id].config
      && t.state.visible == objects[id].state.visible
      && 0.0 <= t.state.opacity <= 1.0
      && t.state.transforms == ActiveTransforms(t.config.transformations, progress)
  {
  }

  /** Nothing ever becomes visible: registration, recomputation and cleaning all keep every object hidden. */
  lemma HiddenPreserved(objects: map<string, Tracked>, progress: real, config: ObjectConfig)
    requires AllHidden(objects)
    ensures AllHidden(objects[config.id := Tracked(config, FreshState(config))])
    ensures AllHidden(UpdateAll(objects, progress))
    ensures AllHidden(ForceAll(objects, progress))
  {
  }

  /** After `forceUpdateStates` on hidden objects every opacity is 0. */
  lemma ForceAllTransparent(objects: map<string, Tracked>, progress: real, id: string)
    requires AllHidden(objects) && id in objects
    ensures ForceAll(objects, progress)[id].state.opacity == 0.0
  {
  }

  /** The objects after recomputing those listed in `done`. */
  function UpdatedSome(objects: map<string, Tracked>, done: seq<string>, progress: real): map<string, Tracked>
  {
    map id | id in objects :: if id in done then Updated(objects[id], progress) else objects[id]
  }

  /** The objects after recomputing and cleaning those listed in `done`. */
  function ForcedSome(objects: map<string, Tracked>, done: seq<string>, progress: real): map<string, Tracked>
  {
    map id | id in objects :: if id in done then Tracked(objects[id].config, Cleaned(UpdatedState(objects[id], progress))) else objects[id]
  }

  /** One more object recomputed: the loop step of lines 88-90 and 119-125. */
  lemma SomeStep(objects: map<string, Tracked>, ids: seq<string>, i: nat, progress: real)
    requires i < |ids| && ids[i] in objects && ids[i] !in ids[..i]
    ensures UpdatedSome(objects, ids[..i + 1], progress)
      == UpdatedSome(objects, ids[..i], progress)[ids[i] := Updated(objects[ids[i]], progress)]
    ensures ForcedSome(objects, ids[..i + 1], progress)
      == ForcedSome(objects, ids[..i], progress)[ids[i] := Tracked(objects[ids[i]].config, Cleaned(UpdatedState(objects[ids[i]], progress)))]
  {
    assert forall x :: x in ids[..i + 1] <==> x in ids[..i] || x == ids[i];
  }

  /** Once every key is listed, all objects are recomputed. */
  lemma SomeAll(objects: map<string, Tracked>, ids: seq<string>, progress: real)
    requires forall id :: id in objects ==> id in ids
    ensures UpdatedSome(objects, ids, progress) == UpdateAll(objects, progress)
    ensures ForcedSome(objects, ids, progress) == ForceAll(objects, progress)
  {
  }

  lemma SomeNone(objects: map<string, Tracked>, progress: real)
    ensures UpdatedSome(objects, [], progress) == objects
    ensures ForcedSome(objects, [], progress) == objects
  {
  }

  /** Writing an entry twice leaves only the second write. */
  lemma Overwrite(m: map<string, Tracked>, k: string, a: Tracked, b: Tracked)
    ensures m[k := a][k := b] == m[k := b]
  {
  }

  class LifecycleManager {
    /** The `objects` Map: its entries, and its keys in insertion order. */
    var objects: map<string, Tracked>
    var order: seq<string>
    var scrollProgress: real
    var isScrollLocked: bool
    const LockStart: real := 0.9
    const LockEnd: real := 0.98

    /** `order` lists the keys of `objects`, each once. */
    ghost predicate Valid()
      reads this
    {
      (forall i, j :: 0 <= i < j < |order| ==> order[i] != order[j])
      && (forall id :: id in objects <==> id in order)
    }

    constructor()
      ensures Valid()
      ensures objects == map[] && order == []
      ensures scrollProgress == 0.0 && !isScrollLocked
    {
      objects := map[];
      order := [];
      scrollProgress := 0.0;
      isScrollLocked := false;
    }

    /** Lines 17-27: `Map.set` replaces an existing entry in place and appends a new one. */
    method RegisterObject(config: ObjectConfig)
      requires Valid()
      modifies this
      ensures Valid()
      ensures objects == old(objects)[config.id := Tracked(config, FreshState(config))]
      ensures order == if config.id in old(objects) then old(order) else old(order) + [config.id]
      ensures scrollProgress == old(scrollProgress) && isScrollLocked == old(isScrollLocked)
      ensures GetObjectState(config.id) == Some(ObjectState(config.position, 0.0, map[], false))
      ensures forall id :: id != config.id ==> GetObjectState(id) == old(GetObjectState(id))
    {
      if config.id !in objects {
        order := order + [config.id];
      }
      objects := objects[config.id := Tracked(config, FreshState(config))];
    }

    /** Lines 97-99: the state of a registered object; None (the source's `undefined`) for an unknown id. */
    function GetObjectState(id: string): (r: Option<ObjectState>)
      reads this
      ensures r.Some? <==> id in objects
      ensures r.Some? ==> r.value == objects[id].state
    {
      if id in objects then Some(objects[id].state) else None
    }

    /** Lines 128-130. */
    predicate ShouldLockScroll(progress: real)
    {
      LockStart <= progress <= LockEnd
    }

    /**
     * The lock window is one closed stretch of progress: both of its ends
     * lock, the start and the end of the story do not, and between two
     * locking positions every position locks.
     */
    lemma LockWindow(p: real, q: real, r: real)
      requires p <= q <= r
      ensures ShouldLockScroll(0.9) && ShouldLockScroll(0.98)
      ensures !ShouldLockScroll(0.0) && !ShouldLockScroll(1.0)
      ensures ShouldLockScroll(p) && ShouldLockScroll(r) ==> ShouldLockScroll(q)
    {
    }

    /** Lines 56-82: recompute one object at the current progress; None (the source's `null`) for an unknown id. */
    method UpdateObject(id: string) returns (r: Option<ObjectState>)
      requires Valid()
      modifies this
      ensures Valid()
      ensures objects == if id in old(objects) then old(objects)[id := Updated(old(objects)[id], scrollProgress)] else old(objects)
      ensures r == if id in old(objects) then Some(objects[id].state) else None
      ensures GetObjectState(id) == r
      ensures order == old(order) && scrollProgress == old(scrollProgress) && isScrollLocked == old(isScrollLocked)
    {
      if id !in objects {
        return None;
      }
      var entry := objects[id];
      var transitionState := CalculateTransition(entry.config.position, entry.config.transition, scrollProgress);
      var transforms := GetActiveTransforms(entry.config.transformations, scrollProgress);
      var state := entry.state.(position := transitionState.position, opacity := transitionState.opacity,
                                 transforms := transforms);
      objects := objects[id := Tracked(entry.config, state)];
      r := Some(state);
    }

    /** Lines 87-91: every object recomputed, in insertion order. */
    method UpdateAllObjects()
      requires Valid()
      modifies this
      ensures Valid()
      ensures objects == UpdateAll(old(objects), scrollProgress)
      ensures order == old(order) && scrollProgress == old(scrollProgress) && isScrollLocked == old(isScrollLocked)
    {
      ghost var start := objects;
      SomeNone(start, scrollProgress);
      for i := 0 to |order|
        invariant Valid()
        invariant order == old(order) && scrollProgress == old(scrollProgress) && isScrollLocked == old(isScrollLocked)
        invariant objects == UpdatedSome(start, order[..i], scrollProgress)
      {
        var id := order[i];
        assert id !in order[..i];
        SomeStep(start, order, i, scrollProgress);
        var _ := UpdateObject(id);
      }
      assert order[..|order|] == order;
      SomeAll(start, order, scrollProgress);
    }

    /** Lines 33-49: record the progress; inside the lock window recompute only when scrolling back. */
    method UpdateProgress(progress: real)
      requires Valid()
      modifies this
      ensures Valid()
      ensures scrollProgress == progress
      ensures isScrollLocked <==> 0.9 <= progress <= 0.98
      ensures objects == if ShouldLockScroll(progress) && !(progress < old(scrollProgress))
        then old(objects) else UpdateAll(old(objects), progress)
      ensures order == old(order)
    {
      var previousProgress := scrollProgress;
      scrollProgress := progress;
      if ShouldLockScroll(progress) {
        isScrollLocked := true;
        if progress < previousProgress {
          UpdateAllObjects();
        }
        return;
      }
      isScrollLocked := false;
      UpdateAllObjects();
    }

    /** Lines 104-115: the visible entries in insertion order. */
    method GetVisibleObjects() returns (visible: seq<(string, ObjectState)>)
      requires Valid()
      ensures visible == VisibleIn(order, objects)
    {
      visible := [];
      for i := 0 to |order|
        invariant visible == VisibleIn(order[..i], objects)
      {
        var id := order[i];
        assert order[..i + 1][..i] == order[..i];
        if objects[id].state.visible {
          visible := visible + [(id, objects[id].state)];
        }
      }
      assert order[..|order|] == order;
    }

    /** Lines 120-124 for one registered object: recompute it, and make it transparent when it is not visible. */
    method ForceUpdateObject(id: string)
      requires Valid() && id in objects
      modifies this
      ensures Valid()
      ensures objects == old(objects)[id := Tracked(old(objects)[id].config, Cleaned(UpdatedState(old(objects)[id], scrollProgress)))]
      ensures order == old(order) && scrollProgress == old(scrollProgress) && isScrollLocked == old(isScrollLocked)
    {
      ghost var start := objects;
      ghost var cleaned := Tracked(start[id].config, Cleaned(UpdatedState(start[id], scrollProgress)));
      var state := UpdateObject(id);
      if !state.value.visible {
        objects := objects[id := objects[id].(state := state.value.(opacity := 0.0))];
        Overwrite(start, id, Updated(start[id], scrollProgress), cleaned);
      }
    }

    /** Lines 117-126: recompute every object at `progress`, then make each invisible one transparent. */
    method ForceUpdateStates(progress: real)
      requires Valid()
      modifies this
      ensures Valid()
      ensures scrollProgress == progress
      ensures objects == ForceAll(old(objects), progress)
      ensures forall id :: id in objects && !objects[id].state.visible ==> objects[id].state.opacity == 0.0
      ensures order == old(order) && isScrollLocked == old(isScrollLocked)
    {
      scrollProgress := progress;
      ghost var start := objects;
      SomeNone(start, progress);
      for i := 0 to |order|
        invariant Valid()
        invariant order == old(order) && scrollProgress == progress && isScrollLocked == old(isScrollLocked)
        invariant objects == ForcedSome(start, order[..i], progress)
      {
        var id := order[i];
        assert id !in order[..i];
        SomeStep(start, order, i, progress);
        ForceUpdateObject(id);
      }
      assert order[..|order|] == order;
      SomeAll(start, order, progress);
    }
  }
}
