/** Circular references: what the path check reports, against cycles of the heap. */
module CycleGuard {
  import opened JsValues
  import opened JsHeap

  // ---------------------------------------------------------------------------
  // Walks
  // ---------------------------------------------------------------------------

  /** `b` is what the `k`-th visited child of container `a` stands for. */
  predicate ChildIs(heap: Heap, a: nat, k: nat, b: nat)
    requires Closed(heap)
  {
    a in heap && k < |Children(heap[a])| && Resolve(heap, Child(heap, a, k)) == JsObject(b)
  }

  ghost predicate LeadsTo(heap: Heap, a: nat, b: nat)
    requires Closed(heap)
  {
    exists k: nat :: ChildIs(heap, a, k, b)
  }

  /** Containers visited one inside the other, starting with `v`. */
  ghost predicate Walk(heap: Heap, v: Js, w: seq<nat>)
    requires Closed(heap) && Present(heap, v)
  {
    && |w| >= 1 && Resolve(heap, v) == JsObject(w[0])
    && forall i :: 0 <= i < |w| - 1 ==> LeadsTo(heap, w[i], w[i + 1])
  }

  predicate Repeats(w: seq<nat>) {
    exists i, j :: 0 <= i < j < |w| && w[i] == w[j]
  }

  /** A cycle is reachable from `v` through visited children. */
  ghost predicate ReachesCycle(heap: Heap, v: Js)
    requires Closed(heap) && Present(heap, v)
  {
    exists w :: Walk(heap, v, w) && Repeats(w)
  }

  lemma WalkOn(heap: Heap, v: Js, id: nat, k: nat, w: seq<nat>)
    requires Closed(heap) && Present(heap, v) && Resolve(heap, v) == JsObject(id) && id in heap && k < |Children(heap[id])|
    requires Walk(heap, Child(heap, id, k), w)
    ensures Walk(heap, v, [id] + w)
  {
    var all := [id] + w;
    assert ChildIs(heap, id, k, w[0]);
    forall i | 0 <= i < |all| - 1
      ensures LeadsTo(heap, all[i], all[i + 1])
    {
      if i > 0 {
        assert LeadsTo(heap, w[i - 1], w[i]);
      }
    }
  }

  // ---------------------------------------------------------------------------
  // A traversal and its children
  // ---------------------------------------------------------------------------

  /** The traversal of the elements fails where one of them fails, and only then. */
  lemma {:induction false} ItemsFail(heap: Heap, elems: seq<Js>, path: set<nat>) returns (k: nat)
    requires Closed(heap) && (forall i :: 0 <= i < |elems| ==> Present(heap, elems[i]))
    ensures ReadItems(heap, elems, path).Err? ==>
      k < |Visited(elems)| && k < |elems| && ReadValue(heap, elems[k], path) == Err(ReadItems(heap, elems, path).error)
    ensures ReadItems(heap, elems, path).Ok? ==>
      |Visited(elems)| <= |elems| && forall i :: 0 <= i < |Visited(elems)| ==> ReadValue(heap, elems[i], path).Ok?
    decreases |elems|
  {
    hide ReadValue;
    k := 0;
    if elems != [] && !elems[0].JsUndefined? && ReadValue(heap, elems[0], path).Ok? {
      var rest := elems[1..];
      assert forall i :: 0 <= i < |rest| ==> rest[i] == elems[i + 1];
      k := ItemsFail(heap, rest, path);
      k := k + 1;
    }
  }

  lemma {:induction false} PropsFail(heap: Heap, props: seq<Prop>, path: set<nat>) returns (k: nat)
    requires Closed(heap) && (forall i :: 0 <= i < |props| ==> Present(heap, props[i].val))
    ensures ReadProps(heap, props, path).Err? ==>
      k < |props| && ReadValue(heap, props[k].val, path) == Err(ReadProps(heap, props, path).error)
    ensures ReadProps(heap, props, path).Ok? ==> forall i :: 0 <= i < |props| ==> ReadValue(heap, props[i].val, path).Ok?
    decreases |props|
  {
    hide ReadValue;
    k := 0;
    if props != [] && ReadValue(heap, props[0].val, path).Ok? {
      var rest := props[1..];
      assert forall i :: 0 <= i < |rest| ==> rest[i] == props[i + 1];
      k := PropsFail(heap, rest, path);
      k := k + 1;
    }
  }

  ghost predicate ChildReads(heap: Heap, id: nat, k: nat, path: set<nat>)
    requires Closed(heap) && id in heap && k < |Children(heap[id])|
  {
    ReadValue(heap, Child(heap, id, k), path).Ok?
  }

  /** A container is read without error exactly when all its children are;
      otherwise one child gives the error. */
  lemma ChildFails(heap: Heap, v: Js, id: nat, path: set<nat>) returns (k: nat)
    requires Closed(heap) && Present(heap, v) && Resolve(heap, v) == JsObject(id) && id !in path
    ensures ReadValue(heap, v, path).Err? ==>
      k < |Children(heap[id])| && ReadValue(heap, Child(heap, id, k), path + {id}) == Err(ReadValue(heap, v, path).error)
    ensures ReadValue(heap, v, path).Ok? ==> forall i: nat :: i < |Children(heap[id])| ==> ChildReads(heap, id, i, path + {id})
  {
    hide ReadItems, ReadProps;
    assert NodeClosed(heap, id);
    match heap[id]
    case ArrayNode(elems) =>
      k := ItemsFail(heap, elems, path + {id});
    case ObjectNode(props) =>
      k := PropsFail(heap, props, path + {id});
  }

  // ---------------------------------------------------------------------------
  // The guard is exact
  // ---------------------------------------------------------------------------

  /** The error comes from a walk that runs into itself or into the path. */
  lemma {:induction false} GuardFindsWalk(heap: Heap, v: Js, path: set<nat>) returns (w: seq<nat>)
    requires Closed(heap) && Present(heap, v) && ReadValue(heap, v, path) == Err(CircularReference)
    ensures Walk(heap, v, w) && (w[|w| - 1] in path || w[|w| - 1] in w[..|w| - 1])
    decreases |heap.Keys - path|
  {
    hide ReadItems, ReadProps;
    var id := Resolve(heap, v).id;
    if id in path {
      w := [id];
    } else {
      var k := ChildFails(heap, v, id, path);
      PathGrows(heap, path, id);
      var tail := GuardFindsWalk(heap, Child(heap, id, k), path + {id});
      WalkOn(heap, v, id, k, tail);
      w := [id] + tail;
      assert w[..|w| - 1] == [id] + tail[..|tail| - 1];
    }
  }

  /** Where the traversal succeeds no walk repeats or meets the path. */
  lemma {:induction false} NoWalkRepeats(heap: Heap, v: Js, path: set<nat>, w: seq<nat>)
    requires Closed(heap) && Present(heap, v) && ReadValue(heap, v, path).Ok? && Walk(heap, v, w)
    ensures forall i :: 0 <= i < |w| ==> w[i] !in path
    ensures !Repeats(w)
    decreases |w|
  {
    hide ReadItems, ReadProps;
    var id := w[0];
    if |w| > 1 {
      var _ := ChildFails(heap, v, id, path);
      assert LeadsTo(heap, w[0], w[1]);
      var k: nat :| ChildIs(heap, w[0], k, w[1]);
      assert ChildReads(heap, id, k, path + {id});
      var tail := w[1..];
      assert forall i :: 0 <= i < |tail| ==> tail[i] == w[i + 1];
      forall i | 0 <= i < |tail| - 1
        ensures LeadsTo(heap, tail[i], tail[i + 1])
      {
        assert LeadsTo(heap, w[i + 1], w[i + 2]);
      }
      NoWalkRepeats(heap, Child(heap, id, k), path + {id}, tail);
      forall i, j | 0 <= i < j < |w|
        ensures w[i] != w[j]
      {
        assert w[j] == tail[j - 1];
        if i > 0 {
          assert w[i] == tail[i - 1];
        }
      }
    }
  }

  lemma CircularMeansCycle(heap: Heap, v: Js)
    requires Closed(heap) && Present(heap, v) && ReadValue(heap, v, {}) == Err(CircularReference)
    ensures ReachesCycle(heap, v)
  {
    var w := GuardFindsWalk(heap, v, {});
    var i :| 0 <= i < |w| - 1 && w[..|w| - 1][i] == w[|w| - 1];
    assert w[i] == w[|w| - 1];
    assert Repeats(w);
  }

  lemma OkMeansNoCycle(heap: Heap, v: Js)
    requires Closed(heap) && Present(heap, v) && ReadValue(heap, v, {}).Ok?
    ensures !ReachesCycle(heap, v)
  {
    if ReachesCycle(heap, v) {
      var w :| Walk(heap, v, w) && Repeats(w);
      NoWalkRepeats(heap, v, {}, w);
    }
  }

  // ---------------------------------------------------------------------------
  // The only other error
  // ---------------------------------------------------------------------------

  predicate Fits(v: Js) {
    v.JsBigInt? ==> IsI64(v.big)
  }

  /** No BigInt on the heap is beyond 64 bits. */
  ghost predicate AllFit(heap: Heap, v: Js) {
    Fits(v) && forall id, k :: id in heap && 0 <= k < |Children(heap[id])| ==> Fits(Children(heap[id])[k])
  }

  lemma {:induction false} OnlyCircular(heap: Heap, v: Js, path: set<nat>)
    requires Closed(heap) && Present(heap, v) && AllFit(heap, v) && ReadValue(heap, v, path).Err?
    ensures ReadValue(heap, v, path) == Err(CircularReference)
    decreases |heap.Keys - path|
  {
    hide ReadItems, ReadProps;
    var r := Resolve(heap, v);
    if r.JsObject? && r.id !in path {
      var k := ChildFails(heap, v, r.id, path);
      PathGrows(heap, path, r.id);
      OnlyCircular(heap, Child(heap, r.id, k), path + {r.id});
    }
  }

  lemma {:induction false} OnlyTwoErrors(heap: Heap, v: Js, path: set<nat>)
    requires Closed(heap) && Present(heap, v) && ReadValue(heap, v, path).Err?
    ensures ReadValue(heap, v, path) == Err(CircularReference) || ReadValue(heap, v, path) == Err(BigIntOverflow)
    decreases |heap.Keys - path|
  {
    hide ReadItems, ReadProps;
    var r := Resolve(heap, v);
    if r.JsObject? && r.id !in path {
      var k := ChildFails(heap, v, r.id, path);
      PathGrows(heap, path, r.id);
      OnlyTwoErrors(heap, Child(heap, r.id, k), path + {r.id});
    }
  }

  /** The guard reports a circular reference exactly when a cycle is reachable;
      sharing without a cycle is read like a tree. */
  lemma CircularIffCycle(heap: Heap, v: Js)
    requires Closed(heap) && Present(heap, v) && AllFit(heap, v)
    ensures ReadValue(heap, v, {}) == Err(CircularReference) <==> ReachesCycle(heap, v)
    ensures ReadValue(heap, v, {}).Ok? <==> !ReachesCycle(heap, v)
  {
    hide ReadValue;
    if ReadValue(heap, v, {}).Ok? {
      OkMeansNoCycle(heap, v);
    } else {
      OnlyCircular(heap, v, {});
      CircularMeansCycle(heap, v);
    }
  }
}
