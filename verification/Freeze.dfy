/**
 * Deep freezing of a snapshot, as marking of an object graph in place: nodes may be shared, and the graph may be
 * cyclic. A node that is already frozen is not entered again.
 */
module Freeze {
  /** A property is a reference or something that `Object.isFrozen` calls frozen anyway. */
  datatype Slot = Inert | Reference(target: HeapObject)

  class HeapObject {
    const own: seq<Slot>
    var frozen: bool

    constructor (own: seq<Slot>)
      ensures this.own == own && !frozen
    {
      this.own := own;
      frozen := false;
    }
  }

  /** The finite heap holds everything its objects refer to. */
  ghost predicate Closed(heap: set<HeapObject>) {
    forall o | o in heap :: forall i | 0 <= i < |o.own| && o.own[i].Reference? :: o.own[i].target in heap
  }

  ghost predicate IsFrozen(s: Slot)
    reads if s.Reference? then {s.target} else {}
  {
    s.Reference? ==> s.target.frozen
  }

  /** What `o` refers to is frozen. */
  ghost predicate PartsFrozen(o: HeapObject)
    reads set i | 0 <= i < |o.own| && o.own[i].Reference? :: o.own[i].target
  {
    forall i | 0 <= i < |o.own| && o.own[i].Reference? :: o.own[i].target.frozen
  }

  /** Frozen objects refer to frozen objects only: every published snapshot leaves the heap like this. */
  ghost predicate DownwardClosed(heap: set<HeapObject>)
    requires Closed(heap)
    reads heap
  {
    forall o | o in heap && o.frozen :: PartsFrozen(o)
  }

  ghost function Unfrozen(heap: set<HeapObject>): set<HeapObject>
    reads heap
  {
    set o | o in heap && !o.frozen
  }

  /** Following the properties numbered by `path`, one leads to the next, from `o` to `to`. */
  ghost predicate Leads(o: HeapObject, path: seq<nat>, to: HeapObject)
    decreases |path|
  {
    if path == [] then o == to
    else path[0] < |o.own| && o.own[path[0]].Reference? && Leads(o.own[path[0]].target, path[1..], to)
  }

  ghost predicate Reachable(from: HeapObject, to: HeapObject) {
    exists path: seq<nat> :: Leads(from, path, to)
  }

  /** The same, through objects of `within` only, the first and the last included. */
  ghost predicate LeadsWithin(o: HeapObject, path: seq<nat>, to: HeapObject, within: set<HeapObject>)
    decreases |path|
  {
    && o in within
    && if path == [] then o == to
       else path[0] < |o.own| && o.own[path[0]].Reference? && LeadsWithin(o.own[path[0]].target, path[1..], to, within)
  }

  ghost predicate ReachableWithin(from: HeapObject, to: HeapObject, within: set<HeapObject>) {
    exists path: seq<nat> :: LeadsWithin(from, path, to, within)
  }

  lemma ReachesThroughPart(o: HeapObject, n: nat, to: HeapObject, within: set<HeapObject>, smaller: set<HeapObject>)
    requires n < |o.own| && o.own[n].Reference? && o in within && smaller <= within
    requires ReachableWithin(o.own[n].target, to, smaller)
    ensures ReachableWithin(o, to, within)
  {
    var path: seq<nat> :| LeadsWithin(o.own[n].target, path, to, smaller);
    LeadsWithinMore(o.own[n].target, path, to, smaller, within);
    assert ([n] + path)[1..] == path;
    assert LeadsWithin(o, [n] + path, to, within);
  }

  lemma {:induction false} LeadsWithinMore(
      o: HeapObject, path: seq<nat>, to: HeapObject, within: set<HeapObject>, more: set<HeapObject>)
    requires LeadsWithin(o, path, to, within) && within <= more
    ensures LeadsWithin(o, path, to, more) && Leads(o, path, to) && to in within
    decreases |path|
  {
    if path != [] { LeadsWithinMore(o.own[path[0]].target, path[1..], to, within, more); }
  }

  /**
   * Freezes `s` and what it leads to. Termination: each object is entered at most once, for it is frozen before
   * its parts are visited. Afterwards the slot is frozen, no object has thawed, every newly frozen object has
   * only frozen parts, and only objects that the slot reaches through unfrozen ones were touched.
   */
  method DeepFreezeNewNodes(s: Slot, ghost heap: set<HeapObject>)
    requires Closed(heap) && (s.Reference? ==> s.target in heap)
    modifies heap`frozen
    ensures IsFrozen(s)
    ensures forall o | o in heap && old(o.frozen) :: o.frozen
    ensures forall o | o in heap && o.frozen && !old(o.frozen) ::
              PartsFrozen(o) && s.Reference? && ReachableWithin(s.target, o, old(Unfrozen(heap)))
    decreases |Unfrozen(heap)|
  {
    if s.Inert? || s.target.frozen {
      return;
    }
    var root := s.target;
    ghost var before := Unfrozen(heap);
    root.frozen := true;
    assert Unfrozen(heap) == before - {root};
    label visiting:
    for n := 0 to |root.own|
      modifies heap`frozen
      invariant root.frozen
      invariant forall o | o in heap && old@visiting(o.frozen) :: o.frozen
      invariant forall i | 0 <= i < n :: IsFrozen(root.own[i])
      invariant forall o | o in heap && o.frozen && !old@visiting(o.frozen) ::
                  PartsFrozen(o) && ReachableWithin(root, o, before)
    {
      assert Unfrozen(heap) <= before - {root};
      Subset(Unfrozen(heap), before - {root});
      label step:
      DeepFreezeNewNodes(root.own[n], heap);
      forall o | o in heap && o.frozen && !old@step(o.frozen) ensures ReachableWithin(root, o, before) {
        ReachesThroughPart(root, n, o, before, old@step(Unfrozen(heap)));
      }
    }
    assert LeadsWithin(root, [], root, before);
  }

  lemma {:induction false} Subset(a: set<HeapObject>, b: set<HeapObject>)
    requires a <= b
    ensures |a| <= |b|
  {
    if a != {} {
      var x :| x in a;
      Subset(a - {x}, b - {x});
    }
  }

  /** In a downward closed heap everything a frozen object leads to is frozen. */
  lemma {:induction false} FrozenAllTheWay(heap: set<HeapObject>, o: HeapObject, path: seq<nat>, to: HeapObject)
    requires Closed(heap) && DownwardClosed(heap) && o in heap && o.frozen && Leads(o, path, to)
    ensures to in heap && to.frozen
    decreases |path|
  {
    if path != [] {
      assert PartsFrozen(o);
      FrozenAllTheWay(heap, o.own[path[0]].target, path[1..], to);
    }
  }

  /** If frozen objects of `within` have only frozen parts, a frozen one has everything it reaches within frozen. */
  lemma {:induction false} FrozenAllTheWayWithin(
      heap: set<HeapObject>, o: HeapObject, path: seq<nat>, to: HeapObject, within: set<HeapObject>)
    requires Closed(heap) && within <= heap && o.frozen && LeadsWithin(o, path, to, within)
    requires forall p | p in within && p.frozen :: PartsFrozen(p)
    ensures to.frozen
    decreases |path|
  {
    if path != [] {
      assert PartsFrozen(o);
      FrozenAllTheWayWithin(heap, o.own[path[0]].target, path[1..], to, within);
    }
  }

  /**
   * Publishing a snapshot, on any heap whatever: afterwards exactly those objects are frozen that were, and those
   * the snapshot reaches through unfrozen ones. If the frozen part of the heap was downward closed it stays so, and
   * everything reachable from the snapshot is frozen.
   */
  method Publish(next: HeapObject, ghost heap: set<HeapObject>)
    requires Closed(heap) && next in heap
    modifies heap`frozen
    ensures forall o | o in heap :: o.frozen <==> old(o.frozen) || ReachableWithin(next, o, old(Unfrozen(heap)))
    ensures old(DownwardClosed(heap)) ==>
              && DownwardClosed(heap)
              && forall o | o in heap :: o.frozen <==> old(o.frozen) || Reachable(next, o)
  {
    ghost var free, closed := Unfrozen(heap), DownwardClosed(heap);
    DeepFreezeNewNodes(Reference(next), heap);
    forall o | o in heap && ReachableWithin(next, o, free) ensures o.frozen && Reachable(next, o) {
      var path: seq<nat> :| LeadsWithin(next, path, o, free);
      FrozenAllTheWayWithin(heap, next, path, o, free);
      LeadsWithinMore(next, path, o, free, free);
    }
    if closed {
      forall o | o in heap && Reachable(next, o) ensures o.frozen {
        var path: seq<nat> :| Leads(next, path, o);
        FrozenAllTheWay(heap, next, path, o);
      }
    }
  }

  lemma CutOff(next: HeapObject, handed: HeapObject, part: HeapObject, within: set<HeapObject>)
    requires next.own == [Reference(handed)] && handed !in within && part != next
    ensures !ReachableWithin(next, part, within)
  {
    forall path: seq<nat> ensures !LeadsWithin(next, path, part, within) {
      if path != [] && path[0] == 0 {
        assert next.own[path[0]].target == handed;
        assert !LeadsWithin(handed, path[1..], part, within);
      }
    }
  }

  /** What an object frozen shallowly refers to is not frozen with it, although the snapshot reaches it. */
  method ShallowlyFrozenPart() returns (next: HeapObject, part: HeapObject)
    ensures next.frozen && Reachable(next, part) && !part.frozen
  {
    part := new HeapObject([]);
    var handed := new HeapObject([Reference(part)]);
    handed.frozen := true;
    next := new HeapObject([Reference(handed)]);
    ghost var heap := {next, handed, part};
    ghost var free := Unfrozen(heap);
    assert LeadsWithin(next, [], next, free);
    CutOff(next, handed, part, free);
    Publish(next, heap);
    assert Leads(handed, [0], part) by { assert Leads(part, [0][1..], part); }
    assert [0, 0][1..] == [0] && Leads(next, [0, 0], part);
  }
}
