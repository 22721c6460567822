/** What reading a JS value means, by rules, whatever way the heap is traversed. */
module ReadLaws {
  import opened JsValues
  import opened JsHeap

  /** `t` is `s` up to its first NUL. */
  predicate UpToZero(s: string, t: string) {
    t <= s && '\0' !in t && (|t| < |s| ==> s[|t|] == '\0')
  }

  /** `undefined` and `null` are the unit; booleans, numbers, 64-bit BigInts and
      strings are themselves; a proxy is what it stands for; an array is its
      elements before the first `undefined`; an object is its properties in order. */
  ghost predicate Reads(heap: Heap, v: Js, p: Plain)
    requires Closed(heap) && Present(heap, v)
    decreases p, if v.JsObject? then v.id + 1 else 0
  {
    match v
    case JsUndefined | JsNull => p == Unit
    case JsBool(b) => p == Truth(b)
    case JsInt(i) => p == Number(i)
    case JsFloat(n) => p == Number(n)
    case JsString(s) => p.Text? && UpToZero(s, p.s)
    case JsBigInt(n) => -0x8000_0000_0000_0000 <= n < 0x8000_0000_0000_0000 && p == Number(n)
    case JsObject(id) =>
      assert NodeClosed(heap, id);
      match heap[id]
      case ProxyNode(target) => Reads(heap, JsObject(target), p)
      case ArrayNode(elems) =>
        && p.List? && |p.items| <= |elems|
        && (|p.items| < |elems| ==> elems[|p.items|].JsUndefined?)
        && forall k :: 0 <= k < |p.items| ==> !elems[k].JsUndefined? && Reads(heap, elems[k], p.items[k])
      case ObjectNode(props) =>
        && p.Dict? && |p.entries| == |props|
        && forall k :: 0 <= k < |p.entries| ==> UpToZero(props[k].key, p.entries[k].key) && EntryReads(heap, props[k].val, p.entries[k])
  }

  ghost predicate EntryReads(heap: Heap, v: Js, e: Entry)
    requires Closed(heap) && Present(heap, v)
    decreases e, if v.JsObject? then v.id + 1 else 0
  {
    match e
    case Entry(_, val) => Reads(heap, v, val)
  }

  ghost predicate ItemsRead(heap: Heap, elems: seq<Js>, items: seq<Plain>)
    requires Closed(heap) && forall k :: 0 <= k < |elems| ==> Present(heap, elems[k])
  {
    && |items| <= |elems|
    && (|items| < |elems| ==> elems[|items|].JsUndefined?)
    && forall k :: 0 <= k < |items| ==> !elems[k].JsUndefined? && Reads(heap, elems[k], items[k])
  }

  ghost predicate PropsRead(heap: Heap, props: seq<Prop>, entries: seq<Entry>)
    requires Closed(heap) && forall k :: 0 <= k < |props| ==> Present(heap, props[k].val)
  {
    && |entries| == |props|
    && forall k :: 0 <= k < |entries| ==> UpToZero(props[k].key, entries[k].key) && Reads(heap, props[k].val, entries[k].val)
  }

  lemma {:induction false} CutIsUpToZero(s: string)
    ensures UpToZero(s, CString(s))
  {
    if s != "" && s[0] != '\0' {
      CutIsUpToZero(s[1..]);
      assert s == [s[0]] + s[1..];
    }
  }

  lemma UpToZeroOnce(s: string, t: string, u: string)
    requires UpToZero(s, t) && UpToZero(s, u)
    ensures t == u
  {
    assert forall k :: 0 <= k < |t| ==> s[k] == t[k] && t[k] in t;
    assert forall k :: 0 <= k < |u| ==> s[k] == u[k] && u[k] in u;
    assert |t| == |u|;
  }

  // ---------------------------------------------------------------------------
  // Proxies
  // ---------------------------------------------------------------------------

  lemma {:induction false} ReadsBehind(heap: Heap, id: nat, p: Plain)
    requires Closed(heap) && id in heap
    ensures Reads(heap, JsObject(id), p) <==> Reads(heap, JsObject(Behind(heap, id)), p)
    decreases id
  {
    assert NodeClosed(heap, id);
    if heap[id].ProxyNode? {
      ReadsBehind(heap, heap[id].target, p);
    }
  }

  lemma ReadsResolved(heap: Heap, v: Js, p: Plain)
    requires Closed(heap) && Present(heap, v)
    ensures Reads(heap, v, p) <==> Reads(heap, Resolve(heap, v), p)
  {
    hide Reads;
    if v.JsObject? {
      ReadsBehind(heap, v.id, p);
    }
  }

  // ---------------------------------------------------------------------------
  // What a traversal returns is what the rules say
  // ---------------------------------------------------------------------------

  lemma ScalarReads(heap: Heap, v: Js)
    requires Closed(heap) && !v.JsObject?
    ensures ReadScalar(v).Ok? ==> Reads(heap, v, ReadScalar(v).value)
    ensures ReadScalar(v).Err? ==> forall p :: !Reads(heap, v, p)
  {
    if v.JsString? {
      CutIsUpToZero(v.s);
    }
  }

  lemma {:induction false} TraversalReads(heap: Heap, v: Js, path: set<nat>)
    requires Closed(heap) && Present(heap, v) && ReadValue(heap, v, path).Ok?
    ensures Reads(heap, v, ReadValue(heap, v, path).value)
    decreases |heap.Keys - path|, 0
  {
    hide ReadItems, ReadProps, ReadScalar;
    var r, p := Resolve(heap, v), ReadValue(heap, v, path).value;
    ReadsResolved(heap, v, p);
    if !r.JsObject? {
      ScalarReads(heap, r);
    } else {
      assert NodeClosed(heap, r.id);
      PathGrows(heap, path, r.id);
      match heap[r.id]
      case ArrayNode(elems) =>
        ItemsTraversal(heap, elems, path + {r.id});
      case ObjectNode(props) =>
        PropsTraversal(heap, props, path + {r.id});
        EntriesRead(heap, props, ReadProps(heap, props, path + {r.id}).value);
    }
  }

  lemma {:induction false} ItemsTraversal(heap: Heap, elems: seq<Js>, path: set<nat>)
    requires Closed(heap) && (forall k :: 0 <= k < |elems| ==> Present(heap, elems[k])) && ReadItems(heap, elems, path).Ok?
    ensures ItemsRead(heap, elems, ReadItems(heap, elems, path).value)
    decreases |heap.Keys - path|, 1, |elems|
  {
    hide ReadValue, Reads;
    if elems != [] && !elems[0].JsUndefined? {
      TraversalReads(heap, elems[0], path);
      ItemsTraversal(heap, elems[1..], path);
      var items, rest := ReadItems(heap, elems, path).value, ReadItems(heap, elems[1..], path).value;
      assert forall k :: 0 < k < |items| ==> items[k] == rest[k - 1] && elems[k] == elems[1..][k - 1];
    }
  }

  lemma {:induction false} PropsTraversal(heap: Heap, props: seq<Prop>, path: set<nat>)
    requires Closed(heap) && (forall k :: 0 <= k < |props| ==> Present(heap, props[k].val)) && ReadProps(heap, props, path).Ok?
    ensures PropsRead(heap, props, ReadProps(heap, props, path).value)
    decreases |heap.Keys - path|, 1, |props|
  {
    hide ReadValue, Reads, UpToZero;
    if props != [] {
      CutIsUpToZero(props[0].key);
      TraversalReads(heap, props[0].val, path);
      PropsTraversal(heap, props[1..], path);
      var entries, rest := ReadProps(heap, props, path).value, ReadProps(heap, props[1..], path).value;
      assert forall k :: 0 < k < |entries| ==> entries[k] == rest[k - 1] && props[k] == props[1..][k - 1];
    }
  }

  lemma EntriesRead(heap: Heap, props: seq<Prop>, entries: seq<Entry>)
    requires Closed(heap) && (forall k :: 0 <= k < |props| ==> Present(heap, props[k].val))
    ensures PropsRead(heap, props, entries) <==>
      |entries| == |props|
      && forall k :: 0 <= k < |entries| ==> UpToZero(props[k].key, entries[k].key) && EntryReads(heap, props[k].val, entries[k])
  {
    hide Reads;
  }

  // ---------------------------------------------------------------------------
  // One reading at most
  // ---------------------------------------------------------------------------

  lemma {:induction false} ReadsOnce(heap: Heap, v: Js, p: Plain, q: Plain)
    requires Closed(heap) && Present(heap, v) && Reads(heap, v, p) && Reads(heap, v, q)
    ensures p == q
    decreases p, if v.JsObject? then v.id + 1 else 0
  {
    match v
    case JsString(s) => UpToZeroOnce(s, p.s, q.s);
    case JsObject(id) =>
      assert NodeClosed(heap, id);
      match heap[id] {
        case ProxyNode(target) =>
          ReadsOnce(heap, JsObject(target), p, q);
        case ArrayNode(elems) =>
          forall k | 0 <= k < |p.items| && k < |q.items|
            ensures p.items[k] == q.items[k]
          {
            ReadsOnce(heap, elems[k], p.items[k], q.items[k]);
          }
          assert |p.items| == |q.items|;
        case ObjectNode(props) =>
          forall k | 0 <= k < |p.entries|
            ensures p.entries[k] == q.entries[k]
          {
            UpToZeroOnce(props[k].key, p.entries[k].key, q.entries[k].key);
            EntryOnce(heap, props[k].val, p.entries[k], q.entries[k]);
          }
      }
    case _ =>
  }

  lemma {:induction false} EntryOnce(heap: Heap, v: Js, e: Entry, f: Entry)
    requires Closed(heap) && Present(heap, v) && EntryReads(heap, v, e) && EntryReads(heap, v, f)
    ensures e.val == f.val
    decreases e, if v.JsObject? then v.id + 1 else 0
  {
    hide Reads;
    match e
    case Entry(_, val) => ReadsOnce(heap, v, val, f.val);
  }

  // ---------------------------------------------------------------------------
  // What the rules say is returned
  // ---------------------------------------------------------------------------

  function Size(p: Plain): nat
    decreases p
  {
    match p
    case List(items) => 1 + SizeOfItems(items)
    case Dict(entries) => 1 + SizeOfEntries(entries)
    case _ => 1
  }

  function SizeOfItems(items: seq<Plain>): nat
    decreases items
  {
    if items == [] then 0 else Size(items[0]) + SizeOfItems(items[1..])
  }

  function SizeOfEntry(e: Entry): nat
    decreases e
  {
    match e
    case Entry(_, val) => Size(val)
  }

  function SizeOfEntries(entries: seq<Entry>): nat
    decreases entries
  {
    if entries == [] then 0 else SizeOfEntry(entries[0]) + SizeOfEntries(entries[1..])
  }

  lemma {:induction false} ItemIsSmaller(items: seq<Plain>, k: nat)
    requires k < |items|
    ensures Size(items[k]) <= SizeOfItems(items)
    decreases |items|
  {
    if k > 0 {
      ItemIsSmaller(items[1..], k - 1);
    }
  }

  lemma {:induction false} EntryIsSmaller(entries: seq<Entry>, k: nat)
    requires k < |entries|
    ensures Size(entries[k].val) <= SizeOfEntries(entries)
    decreases |entries|
  {
    if k > 0 {
      EntryIsSmaller(entries[1..], k - 1);
    }
  }

  /** Container `id` reads as something larger than `p`. */
  ghost predicate Above(heap: Heap, id: nat, p: Plain)
    requires Closed(heap)
  {
    id in heap && exists q :: Reads(heap, JsObject(id), q) && Size(q) > Size(p)
  }

  ghost predicate AllAbove(heap: Heap, path: set<nat>, p: Plain)
    requires Closed(heap)
  {
    forall id :: id in path ==> Above(heap, id, p)
  }

  lemma AboveChild(heap: Heap, path: set<nat>, id: nat, p: Plain, child: Plain)
    requires Closed(heap) && id in heap && AllAbove(heap, path, p) && Reads(heap, JsObject(id), p) && Size(child) < Size(p)
    ensures AllAbove(heap, path + {id}, child)
  {
    hide Reads, Size;
    forall x | x in path + {id}
      ensures Above(heap, x, child)
    {
      if x in path {
        assert Above(heap, x, p);
        var q :| Reads(heap, JsObject(x), q) && Size(q) > Size(p);
      }
    }
  }

  lemma {:induction false} RulesAreRead(heap: Heap, v: Js, p: Plain, path: set<nat>)
    requires Closed(heap) && Present(heap, v) && Reads(heap, v, p) && AllAbove(heap, path, p)
    ensures ReadValue(heap, v, path) == Ok(p)
    decreases p, 1
  {
    hide ReadItems, ReadProps, ReadScalar, AllAbove, Size;
    ReadsResolved(heap, v, p);
    var r := Resolve(heap, v);
    if !r.JsObject? {
      ScalarReads(heap, r);
      ScalarOnce(heap, r, p);
    } else {
      NotOnPath(heap, r.id, p, path);
      assert NodeClosed(heap, r.id);
      match heap[r.id]
      case ArrayNode(elems) =>
        forall k | 0 <= k < |p.items|
          ensures AllAbove(heap, path + {r.id}, p.items[k])
        {
          ListIsLarger(p, k);
          AboveChild(heap, path, r.id, p, p.items[k]);
        }
        ItemsAreRead(heap, elems, p.items, path + {r.id});
      case ObjectNode(props) =>
        forall k | 0 <= k < |p.entries|
          ensures AllAbove(heap, path + {r.id}, p.entries[k].val)
        {
          DictIsLarger(p, k);
          AboveChild(heap, path, r.id, p, p.entries[k].val);
        }
        EntriesRead(heap, props, p.entries);
        EntriesAreRead(heap, props, p.entries, path + {r.id});
    }
  }

  lemma ListIsLarger(p: Plain, k: nat)
    requires p.List? && k < |p.items|
    ensures Size(p.items[k]) < Size(p)
  {
    ItemIsSmaller(p.items, k);
  }

  lemma DictIsLarger(p: Plain, k: nat)
    requires p.Dict? && k < |p.entries|
    ensures Size(p.entries[k].val) < Size(p)
  {
    EntryIsSmaller(p.entries, k);
  }

  lemma ScalarOnce(heap: Heap, v: Js, p: Plain)
    requires Closed(heap) && !v.JsObject? && Reads(heap, v, p)
    ensures ReadScalar(v) == Ok(p)
  {
    hide Reads;
    ScalarReads(heap, v);
    ReadsOnce(heap, v, p, ReadScalar(v).value);
  }

  lemma NotOnPath(heap: Heap, id: nat, p: Plain, path: set<nat>)
    requires Closed(heap) && id in heap && Reads(heap, JsObject(id), p) && AllAbove(heap, path, p)
    ensures id !in path
  {
    hide Reads, Size;
    if id in path {
      assert Above(heap, id, p);
      var q :| Reads(heap, JsObject(id), q) && Size(q) > Size(p);
      ReadsOnce(heap, JsObject(id), p, q);
      assert false;
    }
  }

  lemma {:induction false} ItemsAreRead(heap: Heap, elems: seq<Js>, items: seq<Plain>, path: set<nat>)
    requires Closed(heap) && (forall k :: 0 <= k < |elems| ==> Present(heap, elems[k])) && ItemsRead(heap, elems, items)
    requires forall k :: 0 <= k < |items| ==> AllAbove(heap, path, items[k])
    ensures ReadItems(heap, elems, path) == Ok(items)
    decreases items, 0
  {
    hide ReadValue, Reads, AllAbove;
    if items != [] {
      RulesAreRead(heap, elems[0], items[0], path);
      var rest := items[1..];
      assert forall k :: 0 <= k < |rest| ==> rest[k] == items[k + 1] && elems[1..][k] == elems[k + 1];
      ItemsAreRead(heap, elems[1..], rest, path);
      assert items == [items[0]] + rest;
    }
  }

  lemma {:induction false} EntryIsRead(heap: Heap, v: Js, e: Entry, path: set<nat>)
    requires Closed(heap) && Present(heap, v) && Reads(heap, v, e.val) && AllAbove(heap, path, e.val)
    ensures ReadValue(heap, v, path) == Ok(e.val)
    decreases e, 2
  {
    hide ReadValue, Reads, AllAbove;
    match e
    case Entry(_, val) => RulesAreRead(heap, v, val, path);
  }

  lemma {:induction false} EntriesAreRead(heap: Heap, props: seq<Prop>, entries: seq<Entry>, path: set<nat>)
    requires Closed(heap) && (forall k :: 0 <= k < |props| ==> Present(heap, props[k].val)) && PropsRead(heap, props, entries)
    requires forall k :: 0 <= k < |entries| ==> AllAbove(heap, path, entries[k].val)
    ensures ReadProps(heap, props, path) == Ok(entries)
    decreases entries, 0
  {
    hide ReadValue, Reads, AllAbove, UpToZero;
    if entries != [] {
      EntryIsRead(heap, props[0].val, entries[0], path);
      CutIsUpToZero(props[0].key);
      UpToZeroOnce(props[0].key, entries[0].key, CString(props[0].key));
      var rest := entries[1..];
      assert forall k :: 0 <= k < |rest| ==> rest[k] == entries[k + 1] && props[1..][k] == props[k + 1];
      EntriesAreRead(heap, props[1..], rest, path);
      assert entries == [entries[0]] + rest;
    }
  }

  /** A complete traversal succeeds exactly with what the rules say; where they
      say nothing, it fails. */
  lemma TraversalIffRules(heap: Heap, v: Js, p: Plain)
    requires Closed(heap) && Present(heap, v)
    ensures ReadValue(heap, v, {}) == Ok(p) <==> Reads(heap, v, p)
  {
    hide ReadValue, Reads;
    if ReadValue(heap, v, {}) == Ok(p) {
      TraversalReads(heap, v, {});
    }
    if Reads(heap, v, p) {
      RulesAreRead(heap, v, p, {});
    }
  }
}
