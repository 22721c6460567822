/** The deserializer: one stack of open containers, one current value. */
module Deserializer {
  import opened JsValues
  import opened JsHeap
  import opened ReadLaws

  // ---------------------------------------------------------------------------
  // The property iterator
  // ---------------------------------------------------------------------------

  /** Names fixed when the iterator is made; `cur` counts keys and values. */
  datatype PropertyIter = PropertyIter(names: seq<string>, cur: nat)

  function NamesOf(props: seq<Prop>): (names: seq<string>)
    ensures |names| == |props| && forall k :: 0 <= k < |props| ==> names[k] == props[k].key
  {
    seq(|props|, k requires 0 <= k < |props| => props[k].key)
  }

  function Decimal(k: nat): string {
    if k < 10 then ["0123456789"[k]] else Decimal(k / 10) + ["0123456789"[k % 10]]
  }

  /** Enumerable own names; those of an array are its indices. */
  function PropertyNames(node: Node): seq<string> {
    match node
    case ArrayNode(elems) => seq(|elems|, k requires 0 <= k < |elems| => Decimal(k))
    case ObjectNode(props) => NamesOf(props)
    case ProxyNode(_) => []
  }

  /** The number a string of decimal digits stands for. */
  function Reading(s: string): int {
    if s == "" then 0 else 10 * Reading(s[..|s| - 1]) + (s[|s| - 1] as int - '0' as int)
  }

  /** A name for every index: digits that read back as it, no leading zero. */
  lemma {:induction false} DecimalReads(k: nat)
    ensures |Decimal(k)| >= 1 && Reading(Decimal(k)) == k
    ensures forall i :: 0 <= i < |Decimal(k)| ==> '0' <= Decimal(k)[i] <= '9'
    ensures |Decimal(k)| > 1 ==> Decimal(k)[0] != '0'
    decreases k
  {
    DigitIs(k % 10);
    if k < 10 {
      assert Decimal(k)[..0] == "";
    } else {
      DecimalReads(k / 10);
      assert Decimal(k)[..|Decimal(k)| - 1] == Decimal(k / 10);
      assert |Decimal(k / 10)| == 1 ==> Decimal(k / 10)[..0] == "";
    }
  }

  lemma DigitIs(d: nat)
    requires d < 10
    ensures "0123456789"[d] as int == '0' as int + d
  {
  }

  /** The names of an array are its indices in order, each read back, each once. */
  lemma ArrayNames(elems: seq<Js>, j: nat, k: nat)
    requires j < |elems| && k < |elems|
    ensures |PropertyNames(ArrayNode(elems))| == |elems| && Reading(PropertyNames(ArrayNode(elems))[k]) == k
    ensures PropertyNames(ArrayNode(elems))[j] == PropertyNames(ArrayNode(elems))[k] <==> j == k
  {
    DecimalReads(j);
    DecimalReads(k);
  }

  function LookUp(props: seq<Prop>, key: string): Js {
    if props == [] then JsUndefined
    else if props[0].key == key then props[0].val
    else LookUp(props[1..], key)
  }

  lemma {:induction false} LookUpFinds(props: seq<Prop>, k: nat)
    requires DistinctKeys(props) && k < |props|
    ensures LookUp(props, props[k].key) == props[k].val
  {
    if k > 0 {
      LookUpFinds(props[1..], k - 1);
    }
  }

  /** A key, then its value, then the next key. */
  function IterItem(it: PropertyIter, props: seq<Prop>): Option<Js> {
    var index := it.cur / 2;
    if index >= |it.names| then None
    else if it.cur % 2 == 0 then Some(JsString(it.names[index]))
    else Some(LookUp(props, it.names[index]))
  }

  datatype Frame = Frame(id: nat, index: nat, iter: Option<PropertyIter>)

  // ---------------------------------------------------------------------------
  // The stack
  // ---------------------------------------------------------------------------

  function PathIds(paths: seq<Frame>): set<nat> {
    set k | 0 <= k < |paths| :: paths[k].id
  }

  /** Containers on the path are on the heap, no proxies, and pairwise distinct. */
  ghost predicate PathSound(heap: Heap, paths: seq<Frame>) {
    && (forall k :: 0 <= k < |paths| ==> FrameSound(heap, paths[k]))
    && (forall j, k :: 0 <= j < k < |paths| ==> paths[j].id != paths[k].id)
  }

  ghost predicate FrameSound(heap: Heap, f: Frame) {
    && f.id in heap
    && match heap[f.id]
       case ArrayNode(_) => true
       case ObjectNode(props) => f.iter.Some? && f.iter.value.names == NamesOf(props) && DistinctKeys(props)
       case ProxyNode(_) => false
  }

  lemma IdsOfPush(paths: seq<Frame>, f: Frame)
    ensures PathIds(paths + [f]) == PathIds(paths) + {f.id}
  {
    var all := paths + [f];
    assert forall k :: 0 <= k < |paths| ==> all[k] == paths[k];
    assert all[|paths|] == f;
  }

  lemma IdsOfAdvance(paths: seq<Frame>, f: Frame)
    requires |paths| > 0 && f.id == paths[|paths| - 1].id
    ensures PathIds(paths[|paths| - 1 := f]) == PathIds(paths)
  {
    var all := paths[|paths| - 1 := f];
    assert forall k :: 0 <= k < |paths| ==> all[k].id == paths[k].id;
  }

  class Deserializer {
    const heap: Heap
    const root: Js
    var paths: seq<Frame>
    var current: Option<Js>

    constructor (heap: Heap, root: Js)
      requires Closed(heap) && NamesOnce(heap) && Present(heap, root)
      ensures Valid() && paths == [] && current == Some(root) && this.heap == heap && this.root == root
    {
      this.heap, this.root := heap, root;
      paths, current := [], Some(root);
    }

    ghost predicate Valid()
      reads this
    {
      Closed(heap) && NamesOnce(heap) && Present(heap, root) && (current.Some? ==> Present(heap, current.value)) && PathSound(heap, paths)
    }

    ghost function Unvisited(): nat
      reads this
    {
      |heap.Keys - PathIds(paths)|
    }

    function GetCurrent(): Js
      reads this
    {
      if current.Some? then current.value else root
    }

    method GuardCircularReference(id: nat) returns (r: Result<()>)
      ensures r == if id in PathIds(paths) then Err(CircularReference) else Ok(())
    {
      var k := 0;
      while k < |paths|
        invariant 0 <= k <= |paths|
        invariant forall j :: 0 <= j < k ==> paths[j].id != id
      {
        if paths[k].id == id {
          return Err(CircularReference);
        }
        k := k + 1;
      }
      r := Ok(());
    }

    method EnterArray() returns (r: Result<()>)
      requires Valid()
      modifies this`paths
      ensures Valid()
      ensures
        var v := Resolve(heap, GetCurrent());
        r == if !v.JsObject? || !heap[v.id].ArrayNode? then Err(ExpectedArray)
             else if v.id in PathIds(old(paths)) then Err(CircularReference) else Ok(())
      ensures r.Ok? ==> paths == old(paths) + [Frame(Resolve(heap, GetCurrent()).id, 0, None)]
      ensures r.Err? ==> paths == old(paths)
    {
      var v := Resolve(heap, GetCurrent());
      if !v.JsObject? || !heap[v.id].ArrayNode? {
        return Err(ExpectedArray);
      }
      r := GuardCircularReference(v.id);
      if r.Ok? {
        assert forall k :: 0 <= k < |paths| ==> paths[k].id in PathIds(paths);
        paths := paths + [Frame(v.id, 0, None)];
      }
    }

    method EnterObject() returns (r: Result<()>)
      requires Valid()
      modifies this`paths
      ensures Valid()
      ensures
        var v := Resolve(heap, GetCurrent());
        r == if !v.JsObject? then Err(ExpectedObject)
             else if v.id in PathIds(old(paths)) then Err(CircularReference) else Ok(())
      ensures
        var v := Resolve(heap, GetCurrent());
        r.Ok? ==> paths == old(paths) + [Frame(v.id, 0, Some(PropertyIter(PropertyNames(heap[v.id]), 0)))]
      ensures r.Err? ==> paths == old(paths)
    {
      var v := Resolve(heap, GetCurrent());
      if !v.JsObject? {
        return Err(ExpectedObject);
      }
      r := GuardCircularReference(v.id);
      if r.Ok? {
        assert forall k :: 0 <= k < |paths| ==> paths[k].id in PathIds(paths);
        paths := paths + [Frame(v.id, 0, Some(PropertyIter(PropertyNames(heap[v.id]), 0)))];
      }
    }

    method Leave()
      requires Valid()
      modifies this
      ensures Valid()
      ensures old(paths) == [] ==> paths == [] && current == old(current)
      ensures old(paths) != [] ==>
        current == Some(JsObject(old(paths)[|old(paths)| - 1].id)) && paths == old(paths)[..|old(paths)| - 1]
    {
      if paths != [] {
        current := Some(JsObject(paths[|paths| - 1].id));
        paths := paths[..|paths| - 1];
      }
    }

    /** The element or property item the innermost container is at. */
    ghost function Upcoming(): Option<Js>
      requires Valid() && paths != []
      reads this
    {
      var f := paths[|paths| - 1];
      match heap[f.id]
      case ArrayNode(elems) => if f.index < |elems| && !elems[f.index].JsUndefined? then Some(elems[f.index]) else None
      case ObjectNode(props) => IterItem(f.iter.value, props)
      case ProxyNode(_) => None
    }

    ghost function Advanced(): Frame
      requires Valid() && paths != []
      reads this
    {
      var f := paths[|paths| - 1];
      if heap[f.id].ObjectNode? then Frame(f.id, f.index + 1, Some(PropertyIter(f.iter.value.names, f.iter.value.cur + 1)))
      else f.(index := f.index + 1)
    }

    /** Moves on to the next item of the innermost container, if there is one. */
    method Next() returns (more: bool)
      requires Valid() && paths != []
      modifies this
      ensures Valid()
      ensures more <==> old(Upcoming()).Some?
      ensures more ==> current == old(Upcoming()) && paths == old(paths)[|old(paths)| - 1 := old(Advanced())]
      ensures !more ==> paths == old(paths) && current == old(current)
    {
      var n := |paths| - 1;
      var f := paths[n];
      assert FrameSound(heap, f) && NodeClosed(heap, f.id);
      match heap[f.id] {
        case ArrayNode(elems) =>
          var item := if f.index < |elems| then elems[f.index] else JsUndefined;
          if item.JsUndefined? {
            return false;
          }
          current := Some(item);
          paths := paths[n := Frame(f.id, f.index + 1, f.iter)];
        case ObjectNode(props) =>
          var it := f.iter.value;
          var item := IterItem(it, props);
          if item.None? {
            return false;
          }
          ItemPresent(heap, f.id, it);
          current := item;
          paths := paths[n := Frame(f.id, f.index + 1, Some(PropertyIter(it.names, it.cur + 1)))];
      }
      more := true;
    }

    // ---- the self-describing traversal ----

    /** Reads the current value, whatever it is, and puts the stack back as it
        was, on success and on error. */
    method DeserializeAny() returns (r: Result<Plain>)
      requires Valid()
      modifies this
      ensures Valid() && paths == old(paths)
      ensures r == ReadValue(heap, old(GetCurrent()), PathIds(old(paths)))
      ensures r.Ok? ==> Reads(heap, old(GetCurrent()), r.value)
      decreases Unvisited(), 2
    {
      hide ReadItems, ReadProps, ReadScalar, PathIds, PathSound, Upcoming, Reads;
      if ReadValue(heap, GetCurrent(), PathIds(paths)).Ok? {
        TraversalReads(heap, GetCurrent(), PathIds(paths));
      }
      var v := Resolve(heap, GetCurrent());
      if !v.JsObject? {
        return ReadScalar(v);
      }
      match heap[v.id] {
        case ArrayNode(elems) =>
          var items := DeserializeSeq(v.id, elems);
          match items {
            case Ok(all) => r := Ok(List(all));
            case Err(e) => r := Err(e);
          }
        case ObjectNode(props) =>
          var entries := DeserializeMap(v.id, props);
          match entries {
            case Ok(all) => r := Ok(Dict(all));
            case Err(e) => r := Err(e);
          }
      }
    }

    method DeserializeSeq(ghost id: nat, ghost elems: seq<Js>) returns (r: Result<seq<Plain>>)
      requires Valid() && Resolve(heap, GetCurrent()) == JsObject(id) && heap[id] == ArrayNode(elems)
      modifies this
      ensures Valid() && paths == old(paths)
      ensures NodeClosed(heap, id)
      ensures r == if id in PathIds(old(paths)) then Err(CircularReference) else ReadItems(heap, elems, PathIds(old(paths)) + {id})
      decreases Unvisited(), 1
    {
      hide ReadItems, PathIds, PathSound, Upcoming;
      assert NodeClosed(heap, id);
      var entered := EnterArray();
      if entered.Err? {
        return Err(entered.error);
      }
      ghost var before := old(paths);
      IdsOfPush(before, paths[|paths| - 1]);
      JsHeap.PathGrows(heap, PathIds(before), id);
      r := VisitSeq(id, elems);
      Leave();
      assert paths == before;
    }

    method DeserializeMap(ghost id: nat, ghost props: seq<Prop>) returns (r: Result<seq<Entry>>)
      requires Valid() && Resolve(heap, GetCurrent()) == JsObject(id) && heap[id] == ObjectNode(props)
      modifies this
      ensures Valid() && paths == old(paths)
      ensures NodeClosed(heap, id)
      ensures r == if id in PathIds(old(paths)) then Err(CircularReference) else ReadProps(heap, props, PathIds(old(paths)) + {id})
      decreases Unvisited(), 1
    {
      hide ReadProps, PathIds, PathSound, Upcoming;
      assert NodeClosed(heap, id);
      var entered := EnterObject();
      if entered.Err? {
        return Err(entered.error);
      }
      ghost var before := old(paths);
      IdsOfPush(before, paths[|paths| - 1]);
      JsHeap.PathGrows(heap, PathIds(before), id);
      r := VisitMap(id, props);
      Leave();
      assert paths == before;
    }

    /** The visitor takes elements until there are none. Only the index of the
        innermost frame has moved afterwards. */
    method VisitSeq(ghost id: nat, ghost elems: seq<Js>) returns (r: Result<seq<Plain>>)
      requires Valid() && paths != [] && paths[|paths| - 1] == Frame(id, 0, None) && id in heap && heap[id] == ArrayNode(elems)
      modifies this
      ensures Valid() && |paths| == |old(paths)| && paths[..|paths| - 1] == old(paths[..|paths| - 1])
      ensures NodeClosed(heap, id)
      ensures r == ReadItems(heap, elems, PathIds(old(paths)))
      decreases Unvisited(), 3
    {
      hide PathIds, PathSound, ReadValue, ReadItems, Closed, NamesOnce, Resolve;
      ghost var n, ids, i := |paths| - 1, PathIds(paths), 0;
      ghost var under := paths[..n];
      NodeIsClosed(heap, id);
      var items := [];
      assert elems[0..] == elems;
      PrependNone(ReadItems(heap, elems, ids));
      while true
        invariant Valid() && |paths| == n + 1 && paths[..n] == under && paths[n] == Frame(id, i, None)
        invariant PathIds(paths) == ids && 0 <= i <= |elems|
        invariant ReadItems(heap, elems, ids) == Prepend(items, ReadItems(heap, elems[i..], ids))
        decreases |elems| - i
      {
        assert paths == under + [Frame(id, i, None)];
        var more := Next();
        ItemsStep(heap, elems, i, ids, items);
        if !more {
          return Ok(items);
        }
        FrameReplaced(under, Frame(id, i, None), paths);
        var item := DeserializeAny();
        if item.Err? {
          return Err(item.error);
        }
        items, i := items + [item.value], i + 1;
      }
    }

    /** Keys and values alternate: the visitor takes a key, then its value. */
    method VisitMap(ghost id: nat, ghost props: seq<Prop>) returns (r: Result<seq<Entry>>)
      requires Valid() && paths != [] && id in heap && heap[id] == ObjectNode(props)
      requires paths[|paths| - 1] == Frame(id, 0, Some(PropertyIter(NamesOf(props), 0)))
      modifies this
      ensures Valid() && |paths| == |old(paths)| && paths[..|paths| - 1] == old(paths[..|paths| - 1])
      ensures NodeClosed(heap, id)
      ensures r == ReadProps(heap, props, PathIds(old(paths)))
      decreases Unvisited(), 3
    {
      hide PathIds, PathSound, ReadValue, ReadProps, NamesOf, IterItem, Closed, NamesOnce, Resolve;
      ghost var n, ids, i := |paths| - 1, PathIds(paths), 0;
      ghost var under := paths[..n];
      NodeIsClosed(heap, id);
      var entries := [];
      assert props[0..] == props;
      PrependNone(ReadProps(heap, props, ids));
      while true
        invariant Valid() && |paths| == n + 1 && paths[..n] == under && paths[n] == MapFrame(id, props, 2 * i)
        invariant PathIds(paths) == ids && 0 <= i <= |props|
        invariant ReadProps(heap, props, ids) == Prepend(entries, ReadProps(heap, props[i..], ids))
        decreases |props| - i
      {
        assert paths == under + [MapFrame(id, props, 2 * i)];
        var more := Next();
        EntriesStep(heap, props, i, ids, entries);
        ItemsAlternate(heap, id, props, i);
        if !more {
          return Ok(entries);
        }
        FrameReplaced(under, MapFrame(id, props, 2 * i), paths);
        KeyReads(heap, props[i].key, ids);
        var key := DeserializeAny();
        assert paths == under + [MapFrame(id, props, 2 * i + 1)];
        var _ := Next();
        FrameReplaced(under, MapFrame(id, props, 2 * i + 1), paths);
        var val := DeserializeAny();
        if val.Err? {
          return Err(val.error);
        }
        entries, i := entries + [Entry(key.value.s, val.value)], i + 1;
      }
    }
  }

  function MapFrame(id: nat, props: seq<Prop>, cur: nat): Frame {
    Frame(id, cur, Some(PropertyIter(NamesOf(props), cur)))
  }

  lemma FrameReplaced(under: seq<Frame>, f: Frame, paths: seq<Frame>)
    requires |paths| == |under| + 1 && paths[..|under|] == under && paths[|under|].id == f.id
    ensures PathIds(paths) == PathIds(under + [f])
  {
    var old_ := under + [f];
    IdsOfAdvance(old_, paths[|under|]);
    assert old_[|under| := paths[|under|]] == paths;
  }

  /** The iterator yields the `i`-th key, then the `i`-th value, and nothing past the last. */
  lemma ItemsAlternate(heap: Heap, id: nat, props: seq<Prop>, i: nat)
    requires Closed(heap) && NamesOnce(heap) && id in heap && heap[id] == ObjectNode(props)
    ensures i < |props| ==> IterItem(PropertyIter(NamesOf(props), 2 * i), props) == Some(JsString(props[i].key))
    ensures i < |props| ==> IterItem(PropertyIter(NamesOf(props), 2 * i + 1), props) == Some(props[i].val)
    ensures i >= |props| ==> IterItem(PropertyIter(NamesOf(props), 2 * i), props).None?
  {
    if i < |props| {
      LookUpFinds(props, i);
    }
  }

  lemma KeyReads(heap: Heap, key: string, ids: set<nat>)
    requires Closed(heap)
    ensures ReadValue(heap, JsString(key), ids) == Ok(Text(CString(key)))
  {
  }

  lemma EntriesStep(heap: Heap, props: seq<Prop>, i: nat, ids: set<nat>, entries: seq<Entry>)
    requires Closed(heap) && (forall k :: 0 <= k < |props| ==> Present(heap, props[k].val)) && i <= |props|
    ensures i == |props| ==> Prepend(entries, ReadProps(heap, props[i..], ids)) == Ok(entries)
    ensures i < |props| && ReadValue(heap, props[i].val, ids).Err? ==>
      Prepend(entries, ReadProps(heap, props[i..], ids)) == Err(ReadValue(heap, props[i].val, ids).error)
    ensures i < |props| && ReadValue(heap, props[i].val, ids).Ok? ==>
      Prepend(entries, ReadProps(heap, props[i..], ids))
        == Prepend(entries + [Entry(CString(props[i].key), ReadValue(heap, props[i].val, ids).value)], ReadProps(heap, props[i + 1..], ids))
  {
    hide ReadValue;
    assert entries + [] == entries;
    if i < |props| {
      assert props[i..][1..] == props[i + 1..];
      var first, rest := ReadValue(heap, props[i].val, ids), ReadProps(heap, props[i + 1..], ids);
      if first.Ok? && rest.Ok? {
        var e := Entry(CString(props[i].key), first.value);
        assert entries + ([e] + rest.value) == (entries + [e]) + rest.value;
      }
    }
  }

  /** One more element of a sequence read. */
  lemma ItemsStep(heap: Heap, elems: seq<Js>, i: nat, ids: set<nat>, items: seq<Plain>)
    requires Closed(heap) && (forall k :: 0 <= k < |elems| ==> Present(heap, elems[k])) && i <= |elems|
    ensures i == |elems| || elems[i].JsUndefined? ==> Prepend(items, ReadItems(heap, elems[i..], ids)) == Ok(items)
    ensures i < |elems| && !elems[i].JsUndefined? && ReadValue(heap, elems[i], ids).Err? ==>
      Prepend(items, ReadItems(heap, elems[i..], ids)) == Err(ReadValue(heap, elems[i], ids).error)
    ensures i < |elems| && !elems[i].JsUndefined? && ReadValue(heap, elems[i], ids).Ok? ==>
      Prepend(items, ReadItems(heap, elems[i..], ids))
        == Prepend(items + [ReadValue(heap, elems[i], ids).value], ReadItems(heap, elems[i + 1..], ids))
  {
    hide ReadValue;
    assert items + [] == items;
    if i < |elems| {
      assert elems[i..][1..] == elems[i + 1..];
      var first, rest := ReadValue(heap, elems[i], ids), ReadItems(heap, elems[i + 1..], ids);
      if first.Ok? && rest.Ok? {
        assert items + ([first.value] + rest.value) == (items + [first.value]) + rest.value;
      }
    }
  }

  lemma ItemPresent(heap: Heap, id: nat, it: PropertyIter)
    requires Closed(heap) && id in heap && heap[id].ObjectNode? && it.names == NamesOf(heap[id].props) && DistinctKeys(heap[id].props)
    requires IterItem(it, heap[id].props).Some?
    ensures Present(heap, IterItem(it, heap[id].props).value)
  {
    assert NodeClosed(heap, id);
    var props := heap[id].props;
    if it.cur % 2 == 1 {
      LookUpFinds(props, it.cur / 2);
    }
  }
}
