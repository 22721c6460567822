/** The serializer: builds a JS tree in place, one call per datum, keeping a
    stack of open containers and at most one pending key. */
module Serializer {
  import opened JsValues
  import opened JsHeap
  import opened JsTree
  import opened BuildLaws

  // ---------------------------------------------------------------------------
  // Adding a child to a container
  // ---------------------------------------------------------------------------

  function SetProp(props: seq<Prop>, key: string, v: Js): seq<Prop> {
    if props == [] then [Prop(key, v)]
    else if props[0].key == key then [Prop(key, v)] + props[1..]
    else [props[0]] + SetProp(props[1..], key, v)
  }

  function AddChild(node: Node, key: Option<string>, v: Js): Node {
    match node
    case ArrayNode(elems) => ArrayNode(elems + [v])
    case ObjectNode(props) => if key.Some? then ObjectNode(SetProp(props, key.value, v)) else node
    case ProxyNode(_) => node
  }

  lemma {:induction false} SetPropKeys(props: seq<Prop>, key: string, v: Js)
    ensures forall k :: 0 <= k < |SetProp(props, key, v)| ==>
      SetProp(props, key, v)[k] == Prop(key, v) || SetProp(props, key, v)[k] in props
    ensures DistinctKeys(props) ==> DistinctKeys(SetProp(props, key, v))
    decreases |props|
  {
    if props != [] && props[0].key != key {
      SetPropKeys(props[1..], key, v);
      var rest := SetProp(props[1..], key, v);
      if DistinctKeys(props) {
        forall k | 0 <= k < |rest|
          ensures rest[k].key != props[0].key
        {
          if rest[k] != Prop(key, v) {
            var j :| 0 <= j < |props[1..]| && props[1..][j] == rest[k];
            assert props[j + 1] == rest[k];
          }
        }
        assert DistinctKeys(props[1..]);
      }
    }
  }

  lemma {:induction false} SetPropStands(heap: Heap, lo: nat, props: seq<Prop>, entries: seq<TreeEntry>, key: string, v: Js, t: Tree)
    requires PropsStand(heap, lo, props, entries) && Stands(heap, lo, v, t)
    ensures PropsStand(heap, lo, SetProp(props, key, v), SetEntry(entries, key, t))
    decreases |props|
  {
    hide Stands, PropsStand;
    if props == [] {
      PropsStandEmpty(heap, lo, entries);
      PropsStandCons(heap, lo, Prop(key, v), TreeEntry(key, t), [], []);
      assert [Prop(key, v)] + [] == [Prop(key, v)] && [TreeEntry(key, t)] + [] == [TreeEntry(key, t)];
    } else {
      PropsStandTail(heap, lo, props, entries);
      if props[0].key == key {
        PropsStandCons(heap, lo, Prop(key, v), TreeEntry(key, t), props[1..], entries[1..]);
      } else {
        SetPropStands(heap, lo, props[1..], entries[1..], key, v, t);
        PropsStandCons(heap, lo, props[0], entries[0], SetProp(props[1..], key, v), SetEntry(entries[1..], key, t));
      }
    }
  }

  lemma PropsStandEmpty(heap: Heap, lo: nat, entries: seq<TreeEntry>)
    requires PropsStand(heap, lo, [], entries)
    ensures entries == [] && PropsStand(heap, lo, [], [])
  {
  }

  lemma PropsStandCons(heap: Heap, lo: nat, p: Prop, e: TreeEntry, props: seq<Prop>, entries: seq<TreeEntry>)
    requires p.key == e.key && Stands(heap, lo, p.val, e.val) && PropsStand(heap, lo, props, entries)
    ensures PropsStand(heap, lo, [p] + props, [e] + entries)
  {
    hide Stands;
  }

  lemma PropsStandTail(heap: Heap, lo: nat, props: seq<Prop>, entries: seq<TreeEntry>)
    requires PropsStand(heap, lo, props, entries) && props != []
    ensures |entries| == |props| && props[0].key == entries[0].key && Stands(heap, lo, props[0].val, entries[0].val)
    ensures PropsStand(heap, lo, props[1..], entries[1..])
  {
    hide Stands;
  }

  /** Node `c` became `node`; every other old node is as it was. */
  ghost predicate Grew(before: Heap, c: nat, node: Node, after: Heap) {
    c in after && after[c] == node && forall id :: id in before && id != c ==> id in after && after[id] == before[id]
  }

  ghost predicate Fresh(heap: Heap, next: nat) {
    forall id :: id in heap ==> id < next
  }

  lemma UpdateClosed(heap: Heap, c: nat, node: Node)
    requires Closed(heap) && NamesOnce(heap)
    requires match node
             case ArrayNode(elems) => forall k :: 0 <= k < |elems| ==> Present(heap[c := node], elems[k])
             case ObjectNode(props) => DistinctKeys(props) && forall k :: 0 <= k < |props| ==> Present(heap[c := node], props[k].val)
             case ProxyNode(_) => false
    ensures Closed(heap[c := node]) && NamesOnce(heap[c := node])
  {
    var after := heap[c := node];
    forall id | id in after
      ensures NodeClosed(after, id)
    {
      if id != c {
        assert NodeClosed(heap, id);
      }
    }
  }

  lemma AddClosed(heap: Heap, c: nat, key: Option<string>, v: Js)
    requires Closed(heap) && NamesOnce(heap) && Present(heap, v) && c in heap && !heap[c].ProxyNode?
    ensures
      var after := heap[c := AddChild(heap[c], key, v)];
      Closed(after) && NamesOnce(after)
  {
    assert NodeClosed(heap, c);
    if heap[c].ObjectNode? && key.Some? {
      var props := heap[c].props;
      SetPropKeys(props, key.value, v);
      var more := SetProp(props, key.value, v);
      forall k | 0 <= k < |more|
        ensures Present(heap, more[k].val)
      {
        if more[k] != Prop(key.value, v) {
          var j :| 0 <= j < |props| && props[j] == more[k];
        }
      }
    }
    UpdateClosed(heap, c, AddChild(heap[c], key, v));
  }

  // ---------------------------------------------------------------------------
  // The builder
  // ---------------------------------------------------------------------------

  /** The slot is asked first; then the datum may have something wrong. */
  function Expected(slot: Option<SerdeError>, tree: Result<Tree>): Result<()> {
    match slot
    case Some(e) => Err(e)
    case None =>
      match tree
      case Ok(_) => Ok(())
      case Err(e) => Err(e)
  }

  class Serializer {
    var heap: Heap
    var next: nat
    var root: Js
    var paths: seq<Js>
    var current: Option<Js>
    var currentIsKey: bool
    var currentKey: Option<string>

    constructor (heap: Heap, next: nat)
      requires Closed(heap) && NamesOnce(heap) && Fresh(heap, next)
      ensures Valid() && this.heap == heap && this.next == next
      ensures root == JsUndefined && paths == [] && current == None && !currentIsKey && currentKey == None
    {
      this.heap, this.next := heap, next;
      root, paths, current, currentIsKey, currentKey := JsUndefined, [], None, false, None;
    }

    ghost predicate IsContainer(v: Js)
      reads this
    {
      v.JsObject? ==> v.id in heap && !heap[v.id].ProxyNode?
    }

    ghost predicate Valid()
      reads this
    {
      && Closed(heap) && NamesOnce(heap) && Fresh(heap, next)
      && IsContainer(root)
      && (current.Some? ==> IsContainer(current.value))
      && (forall k :: 0 <= k < |paths| ==> IsContainer(paths[k]))
    }

    ghost predicate InObject()
      reads this
    {
      current.Some? && current.value.JsObject? && current.value.id in heap && heap[current.value.id].ObjectNode?
    }

    /** Between calls: a key can be pending, or expected, only inside an object. */
    ghost predicate Ready()
      reads this
    {
      && Valid() && current != Some(JsUndefined)
      && (currentKey.Some? ==> InObject() && !currentIsKey)
      && (currentIsKey ==> InObject())
    }

    /** Why the next value could not be put anywhere. */
    ghost function SlotError(): Option<SerdeError>
      reads this
    {
      if current.None? || current.value.JsUndefined? then None
      else if !current.value.JsObject? || current.value.id !in heap then Some(NotAContainer)
      else match heap[current.value.id]
           case ArrayNode(_) => None
           case ObjectNode(_) =>
             if currentKey.None? then Some(KeyIsNone)
             else if HasZero(currentKey.value) then Some(ZeroByte)
             else None
           case ProxyNode(_) => Some(NotAContainer)
    }

    /** Puts a finished value, or a new empty container, where it belongs. */
    method SetNodeValue(value: Js) returns (r: Result<()>)
      requires Valid() && IsContainer(value)
      modifies this`heap, this`root, this`current, this`currentKey
      ensures Valid()
      ensures r == match old(SlotError()) case Some(e) => Err(e) case None => Ok(())
      ensures old(current).None? ==> root == value && current == Some(value) && heap == old(heap) && currentKey == old(currentKey)
      ensures old(current) == Some(JsUndefined) ==>
        root == old(root) && current == Some(value) && heap == old(heap) && currentKey == old(currentKey)
      ensures r.Ok? && old(current).Some? && old(current) != Some(JsUndefined) ==>
        && root == old(root) && current == old(current)
        && old(current).value.JsObject? && old(current).value.id in old(heap)
        && heap == old(heap)[old(current).value.id := AddChild(old(heap)[old(current).value.id], old(currentKey), value)]
        && currentKey == if old(heap)[old(current).value.id].ObjectNode? then None else old(currentKey)
    {
      if current.None? {
        root := value;
        current := Some(root);
        return Ok(());
      }
      if current.value.JsUndefined? {
        current := Some(value);
        return Ok(());
      }
      if !current.value.JsObject? {
        return Err(NotAContainer);
      }
      var c := current.value.id;
      match heap[c] {
        case ArrayNode(elems) =>
          AddClosed(heap, c, currentKey, value);
          heap := heap[c := ArrayNode(elems + [value])];
        case ObjectNode(props) =>
          if currentKey.None? {
            return Err(KeyIsNone);
          }
          var key := currentKey.value;
          currentKey := None;
          if HasZero(key) {
            return Err(ZeroByte);
          }
          AddClosed(heap, c, Some(key), value);
          heap := heap[c := ObjectNode(SetProp(props, key, value))];
      }
      r := Ok(());
    }

    /** Opens a new container inside the current one, or at the root. */
    method Push(empty: Node) returns (r: Result<()>)
      requires Valid() && (empty == ArrayNode([]) || empty == ObjectNode([])) && current != Some(JsUndefined)
      modifies this`heap, this`next, this`root, this`current, this`currentKey, this`paths
      ensures Valid() && next == old(next) + 1
      ensures r == match old(SlotError()) case Some(e) => Err(e) case None => Ok(())
      ensures r.Ok? ==> current == Some(JsObject(old(next))) && old(next) in heap && heap[old(next)] == empty
      ensures r.Ok? && old(current).None? ==>
        root == JsObject(old(next)) && paths == old(paths) + [root] && heap == old(heap)[old(next) := empty] && currentKey == old(currentKey)
      ensures r.Ok? && old(current).Some? ==>
        && root == old(root) && paths == old(paths) + [old(current).value]
        && old(current).value.JsObject? && old(current).value.id in old(heap)
        && heap == old(heap)[old(next) := empty]
                            [old(current).value.id := AddChild(old(heap)[old(current).value.id], old(currentKey), JsObject(old(next)))]
        && currentKey == if old(heap)[old(current).value.id].ObjectNode? then None else old(currentKey)
    {
      var id := next;
      UpdateClosed(heap, id, empty);
      heap := heap[id := empty];
      next := next + 1;
      r := SetNodeValue(JsObject(id));
      if r.Err? {
        return;
      }
      if current.Some? {
        paths := paths + [current.value];
      }
      current := Some(JsObject(id));
    }

    /** Closes the innermost container. */
    method Pop()
      requires Valid()
      modifies this`current, this`paths
      ensures Valid()
      ensures old(paths) == [] ==> current == None && paths == []
      ensures old(paths) != [] ==> current == Some(old(paths)[|old(paths)| - 1]) && paths == old(paths)[..|old(paths)| - 1]
    {
      if paths == [] {
        current := None;
      } else {
        current := Some(paths[|paths| - 1]);
        paths := paths[..|paths| - 1];
      }
    }

    // ---- the serde calls ----

    ghost function Now(): View
      reads this
    {
      View(heap, next, root, paths, current, currentKey)
    }

    method SerializeStr(s: string) returns (r: Result<()>)
      requires Ready()
      modifies this`heap, this`root, this`current, this`currentKey, this`currentIsKey
      ensures Valid() && !currentIsKey
      ensures old(currentIsKey) ==> r == Ok(()) && Ready() && Now() == old(Now()).(key := Some(s))
      ensures !old(currentIsKey) ==> r == Expected(old(SlotError()), Ok(Leaf(JsString(s))))
      ensures !old(currentIsKey) && r.Ok? ==> Ready() && Placed(old(Now()), Now(), JsString(s), Leaf(JsString(s)))
    {
      if currentIsKey {
        currentKey := Some(s);
        currentIsKey := false;
        r := Ok(());
      } else {
        r := SetNodeValue(JsString(s));
      }
    }

    method SerializeLeaf(v: Js) returns (r: Result<()>)
      requires Ready() && !v.JsObject? && !v.JsUndefined?
      modifies this`heap, this`root, this`current, this`currentKey
      ensures Valid() && r == Expected(old(SlotError()), Ok(Leaf(v)))
      ensures r.Ok? ==> Ready() && !currentIsKey && Placed(old(Now()), Now(), v, Leaf(v))
    {
      r := SetNodeValue(v);
    }

    /** One datum, wherever the serializer stands: as a pending key, as a child
        of the open container, or as the root. A value adds exactly one child,
        the tree it stands for, and leaves the stack and the key as they were. */
    method Serialize(d: Data) returns (r: Result<()>, ghost v: Js)
      requires Ready()
      modifies this
      ensures Valid()
      ensures old(currentIsKey) && KeyText(d).Some? ==>
        r == Ok(()) && Ready() && !currentIsKey && Now() == old(Now()).(key := KeyText(d))
      ensures !(old(currentIsKey) && KeyText(d).Some?) ==> r == Expected(old(SlotError()), TreeOf(d))
      ensures !(old(currentIsKey) && KeyText(d).Some?) && r.Ok? ==>
        Ready() && !currentIsKey && Placed(old(Now()), Now(), v, TreeOf(d).value) && Built(heap, v, d)
      decreases d, 2
    {
      hide Placed, Valid, TreesOf, EntriesOf, Built;
      ghost var b := Now();
      v := JsNull;
      match d {
        case Nil =>
          r := SerializeLeaf(JsNull);
        case Flag(b) =>
          r := SerializeLeaf(JsBool(b));
          v := JsBool(b);
        case I32(i) =>
          r := SerializeLeaf(JsInt(i));
          v := JsInt(i);
        case I64(l) =>
          r := SerializeLeaf(Signed64(l));
          v := Signed64(l);
        case U32(u) =>
          r := SerializeLeaf(Unsigned32(u));
          v := Unsigned32(u);
        case U64(w) =>
          r := SerializeLeaf(Unsigned64(w));
          v := Unsigned64(w);
        case F64(n) =>
          r := SerializeLeaf(JsFloat(n));
          v := JsFloat(n);
        case Str(s) =>
          v := JsString(s);
          r := SerializeStr(s);
        case UnitVariant(name) =>
          v := JsString(name);
          r := SerializeStr(name);
        case Wrapped(inner) =>
          r, v := Serialize(inner);
        case Seq(items) =>
          r, v := SerializeSeq(items);
        case Map(entries) =>
          r, v := SerializeMap(entries);
        case NewtypeVariant(name, val) =>
          r, v := SerializeNewtypeVariant(name, val);
        case TupleVariant(name, items) =>
          r, v := SerializeTupleVariant(name, items);
      }
      if !(old(currentIsKey) && KeyText(d).Some?) && r.Ok? {
        PlacedIsBuilt(b, Now(), v, d);
      }
    }

    method SerializeSeq(items: seq<Data>) returns (r: Result<()>, ghost v: Js)
      requires Ready()
      modifies this
      ensures Valid() && r == Expected(old(SlotError()), ArrOf(TreesOf(items)))
      ensures r.Ok? ==> Ready() && !currentIsKey && Placed(old(Now()), Now(), v, Arr(TreesOf(items).value))
      decreases items, 1
    {
      hide ItemsStand, PropsStand, Closed, NamesOnce, AddChild, Grew, Placed, TreesOf, Stands, Built;
      ghost var b := Now();
      v := JsObject(next);
      r := Push(ArrayNode([]));
      if r.Err? {
        return;
      }
      ghost var o := Now();
      PushOpens(b, o, ArrayNode([]));
      r := SerializeElements(items, b.next);
      if r.Err? {
        return;
      }
      ghost var f := Now();
      Pop();
      ArrStands(f.heap, b.next, TreesOf(items).value);
      CloseContainer(b, o, f, Now(), ArrayNode([]), Arr(TreesOf(items).value));
    }

    method SerializeElements(items: seq<Data>, ghost c: nat) returns (r: Result<()>)
      requires Ready() && !currentIsKey && currentKey == None && c < next
      requires current == Some(JsObject(c)) && c in heap && heap[c] == ArrayNode([])
      modifies this
      ensures Valid() && r == Expected(None, ArrOf(TreesOf(items)))
      ensures r.Ok? ==>
        && Ready() && !currentIsKey && Filled(old(Now()), Now(), c) && heap[c].ArrayNode?
        && ItemsStand(heap, c + 1, heap[c].elems, TreesOf(items).value)
      decreases items, 0
    {
      hide Closed, NamesOnce, TreeOf, TreesOf, ItemsStand, Stands;
      var i := 0;
      ghost var start, done: seq<Tree> := Now(), [];
      assert items[0..] == items;
      PrependNone(TreesOf(items));
      NoItems(heap, c + 1);
      while i < |items|
        invariant 0 <= i <= |items| && Ready() && !currentIsKey && Filled(start, Now(), c) && c < next
        invariant current == Some(JsObject(c)) && currentKey == None && heap[c].ArrayNode?
        invariant ItemsStand(heap, c + 1, heap[c].elems, done)
        invariant TreesOf(items) == Prepend(done, TreesOf(items[i..]))
      {
        ghost var b := Now();
        assert items[i] in items;
        TreesStep(items, i, done);
        ghost var v: Js;
        r, v := Serialize(items[i]);
        if r.Err? {
          return;
        }
        ItemAdded(b, Now(), c, done, v, TreeOf(items[i]).value);
        done, i := done + [TreeOf(items[i]).value], i + 1;
      }
      assert items[i..] == [];
      AllDone(items, done);
      r := Ok(());
    }

    method SerializeMap(entries: seq<Pair>) returns (r: Result<()>, ghost v: Js)
      requires Ready()
      modifies this
      ensures Valid() && r == Expected(old(SlotError()), ObjOf(EntriesOf(entries, [])))
      ensures r.Ok? ==> Ready() && !currentIsKey && Placed(old(Now()), Now(), v, Obj(EntriesOf(entries, []).value))
      decreases entries, 1
    {
      hide ItemsStand, PropsStand, Closed, NamesOnce, AddChild, Grew, Placed, EntriesOf, Stands, Built;
      ghost var b := Now();
      v := JsObject(next);
      r := Push(ObjectNode([]));
      if r.Err? {
        return;
      }
      ghost var o := Now();
      PushOpens(b, o, ObjectNode([]));
      r := SerializeEntries(entries, b.next);
      if r.Err? {
        return;
      }
      ghost var f := Now();
      Pop();
      ObjStands(f.heap, b.next, EntriesOf(entries, []).value);
      CloseContainer(b, o, f, Now(), ObjectNode([]), Obj(EntriesOf(entries, []).value));
    }

    method SerializeEntries(entries: seq<Pair>, ghost c: nat) returns (r: Result<()>)
      requires Ready() && !currentIsKey && currentKey == None && c < next
      requires current == Some(JsObject(c)) && c in heap && heap[c] == ObjectNode([])
      modifies this
      ensures Valid() && r == Expected(None, ObjOf(EntriesOf(entries, [])))
      ensures r.Ok? ==>
        && Ready() && !currentIsKey && Filled(old(Now()), Now(), c) && heap[c].ObjectNode?
        && PropsStand(heap, c + 1, heap[c].props, EntriesOf(entries, []).value)
      decreases entries, 0
    {
      hide Closed, NamesOnce, TreeOf, EntriesOf, EntryOf, PropsStand, Stands;
      var i := 0;
      ghost var start, done: seq<TreeEntry> := Now(), [];
      assert entries[0..] == entries;
      NoProps(heap, c + 1);
      while i < |entries|
        invariant 0 <= i <= |entries| && Ready() && !currentIsKey && Filled(start, Now(), c) && c < next
        invariant current == Some(JsObject(c)) && currentKey == None && heap[c].ObjectNode?
        invariant PropsStand(heap, c + 1, heap[c].props, done)
        invariant EntriesOf(entries, []) == EntriesOf(entries[i..], done)
      {
        ghost var b := Now();
        assert entries[i] in entries;
        EntriesStep(entries, i, done);
        ghost var v: Js;
        r, v := SerializeEntry(entries[i], c);
        if r.Err? {
          return;
        }
        ghost var e := EntryOf(entries[i]).value;
        EntryAdded(b, Now(), c, done, e.key, v, e.val);
        done, i := SetEntry(done, e.key, e.val), i + 1;
      }
      assert entries[i..] == [];
      EntriesEnd(entries[i..], done);
      r := Ok(());
    }

    /** A key, then its value. */
    method SerializeEntry(p: Pair, ghost c: nat) returns (r: Result<()>, ghost v: Js)
      requires Ready() && !currentIsKey && currentKey == None && current == Some(JsObject(c)) && c in heap && heap[c].ObjectNode?
      modifies this
      ensures Valid() && r.Ok? == EntryOf(p).Ok?
      ensures r.Err? ==> r.error == EntryOf(p).error
      ensures r.Ok? ==>
        Ready() && !currentIsKey && Placed(old(Now()).(key := Some(EntryOf(p).value.key)), Now(), v, EntryOf(p).value.val)
      decreases p, 2
    {
      hide Closed, NamesOnce, AddChild, Grew, TreeOf, Placed, Built;
      v := JsNull;
      r := SerializeKey(p.key);
      if r.Err? {
        return;
      }
      r, v := Serialize(p.val);
    }

    method SerializeKey(key: Data) returns (r: Result<()>)
      requires Ready() && !currentIsKey && InObject()
      modifies this
      ensures Valid()
      ensures old(currentKey).Some? ==> r == Err(TwoKeys)
      ensures old(currentKey) == None && KeyText(key).None? ==> r == Err(KeyIsNone)
      ensures old(currentKey) == None && KeyText(key).Some? ==>
        r == Ok(()) && Ready() && !currentIsKey && Now() == old(Now()).(key := KeyText(key))
      decreases key, 3
    {
      hide Closed, NamesOnce, AddChild, Grew, TreeOf, Placed, Built;
      if currentKey.Some? {
        return Err(TwoKeys);
      }
      currentIsKey := true;
      ghost var v: Js;
      r, v := Serialize(key);
    }

    method SerializeNewtypeVariant(name: string, val: Data) returns (r: Result<()>, ghost v: Js)
      requires Ready()
      modifies this
      ensures Valid() && r == Expected(old(SlotError()), if HasZero(name) then Err(ZeroByte) else ObjOf(OneEntry(name, TreeOf(val))))
      ensures r.Ok? ==> Ready() && !currentIsKey && Placed(old(Now()), Now(), v, Obj([TreeEntry(name, TreeOf(val).value)]))
      decreases val, 3
    {
      hide Opened, Closed, NamesOnce, AddChild, Grew, TreeOf, Placed, Stands, Built;
      ghost var b := Now();
      v := JsObject(next);
      r := Push(ObjectNode([]));
      if r.Err? {
        return;
      }
      ghost var o := Now();
      PushOpens(b, o, ObjectNode([]));
      currentIsKey := true;
      r := SerializeStr(name);
      ghost var w: Js;
      r, w := Serialize(val);
      if r.Err? {
        return;
      }
      ghost var f := Now();
      SamePaths(o.(key := Some(name)), f, w, TreeOf(val).value);
      Pop();
      CloseVariant(b, o, f, Now(), name, w, TreeOf(val).value);
    }

    method SerializeTupleVariant(name: string, items: seq<Data>) returns (r: Result<()>, ghost v: Js)
      requires Ready()
      modifies this
      ensures Valid() && r == Expected(old(SlotError()), if HasZero(name) then Err(ZeroByte) else ObjOf(OneEntry(name, ArrOf(TreesOf(items)))))
      ensures r.Ok? ==> Ready() && !currentIsKey && Placed(old(Now()), Now(), v, Obj([TreeEntry(name, Arr(TreesOf(items).value))]))
      decreases items, 3
    {
      hide Opened, Closed, NamesOnce, AddChild, Grew, TreesOf, Placed, Stands, Built;
      ghost var b := Now();
      v := JsObject(next);
      r := Push(ObjectNode([]));
      if r.Err? {
        return;
      }
      ghost var o := Now();
      PushOpens(b, o, ObjectNode([]));
      currentIsKey := true;
      r := SerializeStr(name);
      ghost var w: Js;
      r, w := SerializeSeq(items);
      if r.Err? {
        return;
      }
      ghost var f := Now();
      SamePaths(o.(key := Some(name)), f, w, Arr(TreesOf(items).value));
      Pop();
      CloseVariant(b, o, f, Now(), name, w, Arr(TreesOf(items).value));
    }
  }

  // ---------------------------------------------------------------------------
  // One call's effect
  // ---------------------------------------------------------------------------

  datatype View = View(heap: Heap, next: nat, root: Js, paths: seq<Js>, current: Option<Js>, key: Option<string>)

  function ArrOf(trees: Result<seq<Tree>>): Result<Tree> {
    match trees
    case Ok(items) => Ok(Arr(items))
    case Err(e) => Err(e)
  }

  function ObjOf(entries: Result<seq<TreeEntry>>): Result<Tree> {
    match entries
    case Ok(all) => Ok(Obj(all))
    case Err(e) => Err(e)
  }

  function OneEntry(name: string, tree: Result<Tree>): Result<seq<TreeEntry>> {
    match tree
    case Ok(t) => Ok([TreeEntry(name, t)])
    case Err(e) => Err(e)
  }

  /** The container `v` was added to the open one (or became the root), holds the
      tree in fresh nodes, and nothing else changed. */
  ghost predicate Placed(b: View, a: View, v: Js, t: Tree) {
    && a.paths == b.paths && a.key == None && a.next >= b.next
    && Stands(a.heap, b.next, v, t)
    && (b.current.None? ==> a.root == v && a.current == Some(v) && KeptFrom(b.heap, a.heap, 0))
    && (b.current.Some? ==>
          && a.root == b.root && a.current == b.current
          && b.current.value.JsObject? && b.current.value.id in b.heap
          && Grew(b.heap, b.current.value.id, AddChild(b.heap[b.current.value.id], b.key, v), a.heap))
  }

  lemma PlacedIsBuilt(b: View, a: View, v: Js, d: Data)
    requires TreeOf(d).Ok? && Placed(b, a, v, TreeOf(d).value)
    ensures Built(a.heap, v, d)
  {
    hide TreeOf, Stands, Built, Grew;
    StandsIsBuilt(a.heap, b.next, v, d);
  }

  /** Only container `c` and fresh nodes changed. */
  ghost predicate Filled(b: View, a: View, c: nat) {
    && a.paths == b.paths && a.root == b.root && a.current == b.current && a.key == None && a.next >= b.next
    && c in a.heap
    && forall id :: id in b.heap && id != c ==> id in a.heap && a.heap[id] == b.heap[id]
  }

  /** `o` is `b` with an empty container opened. */
  ghost predicate Opened(b: View, o: View, empty: Node) {
    && o.next == b.next + 1 && o.current == Some(JsObject(b.next)) && o.key == None
    && b.next in o.heap && o.heap[b.next] == empty
    && (b.current.None? ==>
          o.root == JsObject(b.next) && o.paths == b.paths + [o.root] && o.heap == b.heap[b.next := empty])
    && (b.current.Some? ==>
          && o.root == b.root && o.paths == b.paths + [b.current.value]
          && b.current.value.JsObject? && b.current.value.id in b.heap
          && o.heap == b.heap[b.next := empty][b.current.value.id := AddChild(b.heap[b.current.value.id], b.key, JsObject(b.next))])
  }

  lemma PushOpens(b: View, o: View, empty: Node)
    requires o.next == b.next + 1 && o.current == Some(JsObject(b.next)) && o.key == None && Fresh(b.heap, b.next)
    requires b.current.None? ==>
      o.root == JsObject(b.next) && o.paths == b.paths + [o.root] && o.heap == b.heap[b.next := empty]
    requires b.current.Some? ==>
      && o.root == b.root && o.paths == b.paths + [b.current.value]
      && b.current.value.JsObject? && b.current.value.id in b.heap
      && o.heap == b.heap[b.next := empty][b.current.value.id := AddChild(b.heap[b.current.value.id], b.key, JsObject(b.next))]
    ensures Opened(b, o, empty)
    ensures |o.paths| > 0 && o.paths[|o.paths| - 1].JsObject?
  {
  }

  lemma SamePaths(b: View, a: View, v: Js, t: Tree)
    requires Placed(b, a, v, t)
    ensures a.paths == b.paths && a.key == None
  {
    hide Stands, Grew;
  }

  lemma CloseContainer(b: View, o: View, f: View, a: View, empty: Node, t: Tree)
    requires Opened(b, o, empty) && Fresh(b.heap, b.next) && Filled(o, f, b.next)
    requires Stands(f.heap, b.next, JsObject(b.next), t)
    requires a == f.(current := Some(f.paths[|f.paths| - 1]), paths := f.paths[..|f.paths| - 1])
    ensures Placed(b, a, JsObject(b.next), t)
  {
    hide Stands, AddChild;
    assert f.paths == o.paths && o.paths[..|o.paths| - 1] == b.paths;
  }

  /** A variant is an object with one property. */
  lemma CloseVariant(b: View, o: View, f: View, a: View, name: string, w: Js, t: Tree)
    requires Opened(b, o, ObjectNode([])) && Fresh(b.heap, b.next) && Placed(o.(key := Some(name)), f, w, t)
    requires f.paths != [] && a == f.(current := Some(f.paths[|f.paths| - 1]), paths := f.paths[..|f.paths| - 1])
    ensures Placed(b, a, JsObject(b.next), Obj([TreeEntry(name, t)]))
  {
    hide Placed, Stands, Built;
    NoProps(o.heap, b.next + 1);
    EntryAdded(o, f, b.next, [], name, w, t);
    ObjStands(f.heap, b.next, [TreeEntry(name, t)]);
    CloseContainer(b, o, f, a, ObjectNode([]), Obj([TreeEntry(name, t)]));
  }

  lemma ArrStands(heap: Heap, c: nat, trees: seq<Tree>)
    requires c in heap && heap[c].ArrayNode? && ItemsStand(heap, c + 1, heap[c].elems, trees)
    ensures Stands(heap, c, JsObject(c), Arr(trees))
  {
  }

  lemma ObjStands(heap: Heap, c: nat, entries: seq<TreeEntry>)
    requires c in heap && heap[c].ObjectNode? && PropsStand(heap, c + 1, heap[c].props, entries)
    ensures Stands(heap, c, JsObject(c), Obj(entries))
  {
  }

  lemma NoItems(heap: Heap, lo: nat)
    ensures ItemsStand(heap, lo, [], [])
  {
  }

  lemma NoProps(heap: Heap, lo: nat)
    ensures PropsStand(heap, lo, [], [])
  {
  }

  lemma TreesStep(items: seq<Data>, i: nat, done: seq<Tree>)
    requires i < |items|
    ensures TreeOf(items[i]).Err? ==> Prepend(done, TreesOf(items[i..])) == Err(TreeOf(items[i]).error)
    ensures TreeOf(items[i]).Ok? ==>
      Prepend(done, TreesOf(items[i..])) == Prepend(done + [TreeOf(items[i]).value], TreesOf(items[i + 1..]))
  {
    hide TreeOf;
    assert items[i..][1..] == items[i + 1..];
    var first, rest := TreeOf(items[i]), TreesOf(items[i + 1..]);
    if first.Ok? && rest.Ok? {
      assert done + ([first.value] + rest.value) == (done + [first.value]) + rest.value;
    }
  }

  lemma AllDone(items: seq<Data>, done: seq<Tree>)
    requires TreesOf(items) == Prepend(done, TreesOf([]))
    ensures TreesOf(items) == Ok(done)
  {
    assert TreesOf([]) == Ok([]);
    assert done + [] == done;
  }

  lemma EntriesStep(entries: seq<Pair>, i: nat, done: seq<TreeEntry>)
    requires i < |entries|
    ensures EntryOf(entries[i]).Err? ==> EntriesOf(entries[i..], done) == Err(EntryOf(entries[i]).error)
    ensures EntryOf(entries[i]).Ok? ==>
      EntriesOf(entries[i..], done)
        == EntriesOf(entries[i + 1..], SetEntry(done, EntryOf(entries[i]).value.key, EntryOf(entries[i]).value.val))
  {
    hide EntryOf;
    assert entries[i..][1..] == entries[i + 1..];
  }

  lemma EntriesEnd(entries: seq<Pair>, done: seq<TreeEntry>)
    requires entries == []
    ensures EntriesOf(entries, done) == Ok(done)
  {
  }

  lemma ItemAdded(b: View, a: View, c: nat, done: seq<Tree>, v: Js, t: Tree)
    requires b.current == Some(JsObject(c)) && c in b.heap && b.heap[c].ArrayNode? && c < b.next
    requires ItemsStand(b.heap, c + 1, b.heap[c].elems, done) && Placed(b, a, v, t)
    ensures c in a.heap && a.heap[c].ArrayNode? && ItemsStand(a.heap, c + 1, a.heap[c].elems, done + [t])
  {
    hide Stands;
    var elems := b.heap[c].elems;
    forall k | 0 <= k < |done|
      ensures Stands(a.heap, c + 1, elems[k], done[k])
    {
      StandsStays(b.heap, a.heap, c + 1, elems[k], done[k]);
    }
    StandsLower(a.heap, b.next, c + 1, v, t);
  }

  lemma EntryAdded(b: View, a: View, c: nat, done: seq<TreeEntry>, key: string, v: Js, t: Tree)
    requires b.current == Some(JsObject(c)) && c in b.heap && b.heap[c].ObjectNode? && c < b.next
    requires PropsStand(b.heap, c + 1, b.heap[c].props, done) && Placed(b.(key := Some(key)), a, v, t)
    ensures Filled(b, a, c) && a.heap[c].ObjectNode? && PropsStand(a.heap, c + 1, a.heap[c].props, SetEntry(done, key, t))
  {
    hide Stands;
    var props := b.heap[c].props;
    forall k | 0 <= k < |done|
      ensures Stands(a.heap, c + 1, props[k].val, done[k].val)
    {
      StandsStays(b.heap, a.heap, c + 1, props[k].val, done[k].val);
    }
    StandsLower(a.heap, b.next, c + 1, v, t);
    SetPropStands(a.heap, c + 1, props, done, key, v, t);
  }
}
