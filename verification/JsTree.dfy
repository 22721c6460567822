/** Trees of JS values: what the serializer is meant to build, and how a heap holds one. */
module JsTree {
  import opened JsValues
  import opened JsHeap

  // ---------------------------------------------------------------------------
  // Rust data
  // ---------------------------------------------------------------------------

  type int64 = x: int | -0x8000_0000_0000_0000 <= x < 0x8000_0000_0000_0000
  type uint64 = x: int | 0 <= x < 0x1_0000_0000_0000_0000

  /** What `Serialize` feeds the serializer. Structs are maps, tuples are
      sequences, and the narrow integers go through `I32`. */
  datatype Data =
    | Nil
    | Flag(b: bool)
    | I32(i: int32) | I64(l: int64) | U32(u: uint32) | U64(w: uint64)
    | F64(n: safeint)
    | Str(s: string)
    | Wrapped(inner: Data)
    | Seq(items: seq<Data>)
    | Map(entries: seq<Pair>)
    | UnitVariant(name: string)
    | NewtypeVariant(name: string, val: Data)
    | TupleVariant(name: string, items: seq<Data>)

  datatype Pair = Pair(key: Data, val: Data)

  // ---------------------------------------------------------------------------
  // JS trees
  // ---------------------------------------------------------------------------

  datatype Tree = Leaf(v: Js) | Arr(items: seq<Tree>) | Obj(entries: seq<TreeEntry>)

  datatype TreeEntry = TreeEntry(key: string, val: Tree)

  function Signed64(v: int64): Js {
    if v > MAX_SAFE_INTEGER then JsBigInt(v)
    else if v > TWO31 - 1 then JsFloat(v)
    else JsInt(S32(v))
  }

  function Unsigned32(v: uint32): Js {
    if v > TWO31 - 1 then JsFloat(v) else JsInt(v)
  }

  function Unsigned64(v: uint64): Js {
    if v > MAX_SAFE_INTEGER then JsBigInt(v)
    else if v > TWO31 - 1 then JsFloat(v)
    else JsInt(v)
  }

  /** The text a map key serializes to, if it is a string. */
  function KeyText(d: Data): Option<string> {
    match d
    case Str(s) => Some(s)
    case UnitVariant(name) => Some(name)
    case Wrapped(inner) => KeyText(inner)
    case _ => None
  }

  function SetEntry(entries: seq<TreeEntry>, key: string, val: Tree): seq<TreeEntry> {
    if entries == [] then [TreeEntry(key, val)]
    else if entries[0].key == key then [TreeEntry(key, val)] + entries[1..]
    else [entries[0]] + SetEntry(entries[1..], key, val)
  }

  function TextOf(p: Pair): string {
    if KeyText(p.key).Some? then KeyText(p.key).value else ""
  }

  predicate UsesKey(done: seq<TreeEntry>, key: string) {
    exists k :: 0 <= k < |done| && done[k].key == key
  }

  lemma {:induction false} SetEntryAdds(done: seq<TreeEntry>, key: string, t: Tree)
    ensures !UsesKey(done, key) ==> SetEntry(done, key, t) == done + [TreeEntry(key, t)]
    ensures UsesKey(done, key) ==> |SetEntry(done, key, t)| == |done|
    ensures forall k :: 0 <= k < |done| && done[k].key == key && (forall j :: 0 <= j < k ==> done[j].key != key) ==>
      SetEntry(done, key, t) == done[k := TreeEntry(key, t)]
    decreases |done|
  {
    if done != [] && done[0].key != key {
      var rest := done[1..];
      SetEntryAdds(rest, key, t);
      assert forall k :: 0 <= k < |rest| ==> rest[k] == done[k + 1];
      if UsesKey(done, key) {
        var k :| 0 <= k < |done| && done[k].key == key;
        assert rest[k - 1] == done[k];
      } else {
        assert [done[0]] + (rest + [TreeEntry(key, t)]) == done + [TreeEntry(key, t)];
      }
    }
  }

  /** The tree for a datum, or the first thing that goes wrong. */
  function TreeOf(d: Data): Result<Tree>
    decreases d
  {
    match d
    case Nil => Ok(Leaf(JsNull))
    case Flag(b) => Ok(Leaf(JsBool(b)))
    case I32(i) => Ok(Leaf(JsInt(i)))
    case I64(l) => Ok(Leaf(Signed64(l)))
    case U32(u) => Ok(Leaf(Unsigned32(u)))
    case U64(w) => Ok(Leaf(Unsigned64(w)))
    case F64(n) => Ok(Leaf(JsFloat(n)))
    case Str(s) => Ok(Leaf(JsString(s)))
    case UnitVariant(name) => Ok(Leaf(JsString(name)))
    case Wrapped(inner) => TreeOf(inner)
    case Seq(items) =>
      var trees :- TreesOf(items);
      Ok(Arr(trees))
    case Map(entries) =>
      var all :- EntriesOf(entries, []);
      Ok(Obj(all))
    case NewtypeVariant(name, val) =>
      if HasZero(name) then Err(ZeroByte) else
      var tree :- TreeOf(val);
      Ok(Obj([TreeEntry(name, tree)]))
    case TupleVariant(name, items) =>
      if HasZero(name) then Err(ZeroByte) else
      var trees :- TreesOf(items);
      Ok(Obj([TreeEntry(name, Arr(trees))]))
  }

  function TreesOf(items: seq<Data>): (r: Result<seq<Tree>>)
    ensures r.Ok? ==> |r.value| == |items|
    decreases items
  {
    if items == [] then Ok([]) else
    var first :- TreeOf(items[0]);
    var rest :- TreesOf(items[1..]);
    Ok([first] + rest)
  }

  function EntryOf(p: Pair): Result<TreeEntry>
    decreases p
  {
    match p
    case Pair(key, datum) =>
      var text := KeyText(key);
      if text.None? then Err(KeyIsNone)
      else if HasZero(text.value) then Err(ZeroByte) else
      var val :- TreeOf(datum);
      Ok(TreeEntry(text.value, val))
  }

  /** Entries set one after the other, later keys replacing equal earlier ones. */
  function EntriesOf(entries: seq<Pair>, done: seq<TreeEntry>): Result<seq<TreeEntry>>
    decreases entries
  {
    if entries == [] then Ok(done) else
    var e :- EntryOf(entries[0]);
    EntriesOf(entries[1..], SetEntry(done, e.key, e.val))
  }

  // ---------------------------------------------------------------------------
  // A tree on the heap
  // ---------------------------------------------------------------------------

  /** `v` stands for the tree; its containers have ids from `lo` up, each
      larger than the one it is in. */
  ghost predicate Stands(heap: Heap, lo: nat, v: Js, t: Tree)
    decreases t
  {
    match t
    case Leaf(x) => v == x && !x.JsObject?
    case Arr(items) =>
      && v.JsObject? && lo <= v.id && v.id in heap && heap[v.id].ArrayNode?
      && |heap[v.id].elems| == |items|
      && forall k :: 0 <= k < |items| ==> Stands(heap, v.id + 1, heap[v.id].elems[k], items[k])
    case Obj(entries) =>
      && v.JsObject? && lo <= v.id && v.id in heap && heap[v.id].ObjectNode?
      && |heap[v.id].props| == |entries|
      && forall k :: 0 <= k < |entries| ==>
           heap[v.id].props[k].key == entries[k].key && Stands(heap, v.id + 1, heap[v.id].props[k].val, entries[k].val)
  }

  ghost predicate ItemsStand(heap: Heap, lo: nat, elems: seq<Js>, items: seq<Tree>) {
    |elems| == |items| && forall k :: 0 <= k < |items| ==> Stands(heap, lo, elems[k], items[k])
  }

  ghost predicate PropsStand(heap: Heap, lo: nat, props: seq<Prop>, entries: seq<TreeEntry>) {
    |props| == |entries|
    && forall k :: 0 <= k < |entries| ==> props[k].key == entries[k].key && Stands(heap, lo, props[k].val, entries[k].val)
  }

  /** `after` agrees with `before` on every id from `lo` up. */
  ghost predicate KeptFrom(before: Heap, after: Heap, lo: nat) {
    forall id :: id in before && id >= lo ==> id in after && after[id] == before[id]
  }

  lemma {:induction false} StandsStays(before: Heap, after: Heap, lo: nat, v: Js, t: Tree)
    requires Stands(before, lo, v, t) && KeptFrom(before, after, lo)
    ensures Stands(after, lo, v, t)
    decreases t
  {
    match t
    case Leaf(_) =>
    case Arr(items) =>
      forall k | 0 <= k < |items|
        ensures Stands(after, v.id + 1, after[v.id].elems[k], items[k])
      {
        StandsStays(before, after, v.id + 1, before[v.id].elems[k], items[k]);
      }
    case Obj(entries) =>
      forall k | 0 <= k < |entries|
        ensures after[v.id].props[k].key == entries[k].key && Stands(after, v.id + 1, after[v.id].props[k].val, entries[k].val)
      {
        StandsStays(before, after, v.id + 1, before[v.id].props[k].val, entries[k].val);
      }
  }

  lemma StandsLower(heap: Heap, lo: nat, lower: nat, v: Js, t: Tree)
    requires Stands(heap, lo, v, t) && lower <= lo
    ensures Stands(heap, lower, v, t)
  {
  }

  // ---------------------------------------------------------------------------
  // Reading a tree back
  // ---------------------------------------------------------------------------

  function PlainOf(t: Tree): Result<Plain>
    decreases t
  {
    match t
    case Leaf(v) => if v.JsObject? then Err(ExpectedObject) else ReadScalar(v)
    case Arr(items) =>
      var all :- PlainItems(items);
      Ok(List(all))
    case Obj(entries) =>
      var all :- PlainEntries(entries);
      Ok(Dict(all))
  }

  function PlainItems(items: seq<Tree>): Result<seq<Plain>>
    decreases items
  {
    if items == [] || items[0] == Leaf(JsUndefined) then Ok([]) else
    var first :- PlainOf(items[0]);
    var rest :- PlainItems(items[1..]);
    Ok([first] + rest)
  }

  function PlainEntries(entries: seq<TreeEntry>): Result<seq<Entry>>
    decreases entries
  {
    if entries == [] then Ok([]) else
    assert entries[0] in entries;
    var first :- PlainOf(entries[0].val);
    var rest :- PlainEntries(entries[1..]);
    Ok([Entry(CString(entries[0].key), first)] + rest)
  }

  /** A traversal of the heap reads the tree it holds. */
  lemma {:induction false} ReadsTree(heap: Heap, lo: nat, v: Js, t: Tree, path: set<nat>)
    requires Closed(heap) && Present(heap, v) && Stands(heap, lo, v, t) && forall id :: id in path ==> id < lo
    ensures ReadValue(heap, v, path) == PlainOf(t)
    decreases t, 0
  {
    hide ReadItems, ReadProps, PlainItems, PlainEntries;
    match t
    case Leaf(_) =>
    case Arr(items) =>
      assert NodeClosed(heap, v.id);
      JsHeap.PathGrows(heap, path, v.id);
      ReadsItems(heap, v.id + 1, heap[v.id].elems, items, path + {v.id});
    case Obj(entries) =>
      assert NodeClosed(heap, v.id);
      JsHeap.PathGrows(heap, path, v.id);
      ReadsEntries(heap, v.id + 1, heap[v.id].props, entries, path + {v.id});
  }

  lemma {:induction false} ReadsItems(heap: Heap, lo: nat, elems: seq<Js>, items: seq<Tree>, path: set<nat>)
    requires Closed(heap) && (forall k :: 0 <= k < |elems| ==> Present(heap, elems[k]))
    requires ItemsStand(heap, lo, elems, items) && forall id :: id in path ==> id < lo
    ensures ReadItems(heap, elems, path) == PlainItems(items)
    decreases items, 1
  {
    hide ReadValue, PlainOf;
    if items != [] {
      LeafOrNot(heap, lo, elems[0], items[0]);
      if items[0] != Leaf(JsUndefined) {
        ReadsTree(heap, lo, elems[0], items[0], path);
        ReadsItems(heap, lo, elems[1..], items[1..], path);
      }
    }
  }

  lemma LeafOrNot(heap: Heap, lo: nat, v: Js, t: Tree)
    requires Stands(heap, lo, v, t)
    ensures v == JsUndefined <==> t == Leaf(JsUndefined)
  {
  }

  lemma {:induction false} ReadsEntries(heap: Heap, lo: nat, props: seq<Prop>, entries: seq<TreeEntry>, path: set<nat>)
    requires Closed(heap) && (forall k :: 0 <= k < |props| ==> Present(heap, props[k].val))
    requires PropsStand(heap, lo, props, entries) && forall id :: id in path ==> id < lo
    ensures ReadProps(heap, props, path) == PlainEntries(entries)
    decreases entries, 1
  {
    hide ReadValue, PlainOf;
    if entries != [] {
      assert entries[0] in entries;
      ReadsTree(heap, lo, props[0].val, entries[0].val, path);
      ReadsEntries(heap, lo, props[1..], entries[1..], path);
    }
  }
}
