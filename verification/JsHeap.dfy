/** JS values as the serde bridge sees them: scalars, and arrays, plain objects
    and proxies on a heap that may share nodes and contain cycles. */
module JsHeap {
  import opened JsValues

  datatype Js =
    | JsUndefined
    | JsNull
    | JsBool(b: bool)
    | JsInt(i: int32)
    | JsFloat(n: safeint)
    | JsString(s: string)
    | JsBigInt(big: int)
    | JsObject(id: nat)

  datatype Prop = Prop(key: string, val: Js)

  /** Properties are listed in the order the engine enumerates them. */
  datatype Node = ArrayNode(elems: seq<Js>) | ObjectNode(props: seq<Prop>) | ProxyNode(target: nat)

  type Heap = map<nat, Node>

  datatype SerdeError =
    | CircularReference
    | BigIntOverflow
    | ExpectedArray
    | ExpectedObject
    | ExpectedArrayOrObject
    | KeyIsNone
    | TwoKeys
    | NotAContainer
    | ZeroByte

  datatype Result<+T> = Ok(value: T) | Err(error: SerdeError) {
    predicate IsFailure() {
      Err?
    }

    function PropagateFailure<U>(): Result<U>
      requires Err?
    {
      Err(error)
    }

    function Extract(): T
      requires Ok?
    {
      value
    }
  }

  function Prepend<T>(done: seq<T>, rest: Result<seq<T>>): Result<seq<T>> {
    match rest
    case Ok(more) => Ok(done + more)
    case Err(e) => Err(e)
  }

  lemma PrependNone<T>(rest: Result<seq<T>>)
    ensures Prepend([], rest) == rest
  {
    if rest.Ok? {
      assert [] + rest.value == rest.value;
    }
  }

  // ---------------------------------------------------------------------------
  // Well-formed heaps
  // ---------------------------------------------------------------------------

  predicate Present(heap: Heap, v: Js) {
    v.JsObject? ==> v.id in heap
  }

  predicate NodeClosed(heap: Heap, id: nat)
    requires id in heap
  {
    match heap[id]
    case ArrayNode(elems) => forall k :: 0 <= k < |elems| ==> Present(heap, elems[k])
    case ObjectNode(props) => forall k :: 0 <= k < |props| ==> Present(heap, props[k].val)
    case ProxyNode(target) => target in heap && target < id
  }

  /** No reference dangles, and a proxy is younger than its target. */
  ghost predicate Closed(heap: Heap) {
    forall id :: id in heap ==> NodeClosed(heap, id)
  }

  predicate DistinctKeys(props: seq<Prop>) {
    forall j, k :: 0 <= j < k < |props| ==> props[j].key != props[k].key
  }

  /** Objects name each property once. */
  ghost predicate NamesOnce(heap: Heap) {
    forall id :: id in heap && heap[id].ObjectNode? ==> DistinctKeys(heap[id].props)
  }

  lemma NodeIsClosed(heap: Heap, id: nat)
    requires Closed(heap) && id in heap
    ensures NodeClosed(heap, id)
  {
  }

  /** The object behind any number of proxies. */
  function Behind(heap: Heap, id: nat): (r: nat)
    requires Closed(heap) && id in heap
    ensures r in heap && !heap[r].ProxyNode?
    decreases id
  {
    assert NodeClosed(heap, id);
    if heap[id].ProxyNode? then Behind(heap, heap[id].target) else id
  }

  function Resolve(heap: Heap, v: Js): (r: Js)
    requires Closed(heap) && Present(heap, v)
    ensures Present(heap, r) && (r.JsObject? <==> v.JsObject?)
    ensures r.JsObject? ==> !heap[r.id].ProxyNode?
  {
    if v.JsObject? then JsObject(Behind(heap, v.id)) else v
  }

  /** Array elements up to the first `undefined`, which ends a traversal. */
  function Visited(elems: seq<Js>): (r: seq<Js>)
    ensures r <= elems
    ensures forall k :: 0 <= k < |r| ==> !r[k].JsUndefined?
  {
    if elems == [] || elems[0].JsUndefined? then [] else [elems[0]] + Visited(elems[1..])
  }

  /** The values a traversal goes on to from a node. */
  function Children(node: Node): seq<Js> {
    match node
    case ArrayNode(elems) => Visited(elems)
    case ObjectNode(props) => seq(|props|, k requires 0 <= k < |props| => props[k].val)
    case ProxyNode(_) => []
  }

  function Child(heap: Heap, id: nat, k: nat): (r: Js)
    requires Closed(heap) && id in heap && k < |Children(heap[id])|
    ensures Present(heap, r) && r == Children(heap[id])[k]
  {
    assert NodeClosed(heap, id);
    Children(heap[id])[k]
  }

  // ---------------------------------------------------------------------------
  // What a self-describing visitor builds
  // ---------------------------------------------------------------------------

  datatype Plain =
    | Unit
    | Truth(b: bool)
    | Number(n: int)
    | Text(s: string)
    | List(items: seq<Plain>)
    | Dict(entries: seq<Entry>)

  datatype Entry = Entry(key: string, val: Plain)

  predicate HasZero(s: string) {
    '\0' in s
  }

  /** What is left of a string read through a C string: the part before the first NUL. */
  function CString(s: string): string {
    if s == "" || s[0] == '\0' then "" else [s[0]] + CString(s[1..])
  }

  lemma {:induction false} CStringKeeps(s: string)
    ensures CString(s) == s <==> !HasZero(s)
  {
    if s != "" && s[0] != '\0' {
      CStringKeeps(s[1..]);
      assert s == [s[0]] + s[1..];
      assert CString(s)[1..] == CString(s[1..]);
    }
  }

  predicate IsI64(n: int) {
    -I64_MAX - 1 <= n <= I64_MAX
  }

  function ReadScalar(v: Js): Result<Plain>
    requires !v.JsObject?
  {
    match v
    case JsUndefined | JsNull => Ok(Unit)
    case JsBool(b) => Ok(Truth(b))
    case JsInt(i) => Ok(Number(i))
    case JsFloat(n) => Ok(Number(n))
    case JsString(s) => Ok(Text(CString(s)))
    case JsBigInt(n) => if IsI64(n) then Ok(Number(n)) else Err(BigIntOverflow)
  }

  lemma PathGrows(heap: Heap, path: set<nat>, id: nat)
    requires id in heap && id !in path
    ensures |heap.Keys - (path + {id})| < |heap.Keys - path|
  {
    assert heap.Keys - (path + {id}) == (heap.Keys - path) - {id};
  }

  /** A complete traversal of `v` under the containers in `path`. */
  function ReadValue(heap: Heap, v: Js, path: set<nat>): Result<Plain>
    requires Closed(heap) && Present(heap, v)
    decreases |heap.Keys - path|, 0
  {
    var r := Resolve(heap, v);
    if !r.JsObject? then ReadScalar(r)
    else if r.id in path then Err(CircularReference)
    else
      assert NodeClosed(heap, r.id);
      PathGrows(heap, path, r.id);
      match heap[r.id]
      case ArrayNode(elems) =>
        var items :- ReadItems(heap, elems, path + {r.id});
        Ok(List(items))
      case ObjectNode(props) =>
        var entries :- ReadProps(heap, props, path + {r.id});
        Ok(Dict(entries))
  }

  function ReadItems(heap: Heap, elems: seq<Js>, path: set<nat>): (r: Result<seq<Plain>>)
    requires Closed(heap) && forall k :: 0 <= k < |elems| ==> Present(heap, elems[k])
    decreases |heap.Keys - path|, |elems|
  {
    if elems == [] || elems[0].JsUndefined? then Ok([]) else
    var first :- ReadValue(heap, elems[0], path);
    var rest :- ReadItems(heap, elems[1..], path);
    Ok([first] + rest)
  }

  function ReadProps(heap: Heap, props: seq<Prop>, path: set<nat>): (r: Result<seq<Entry>>)
    requires Closed(heap) && forall k :: 0 <= k < |props| ==> Present(heap, props[k].val)
    decreases |heap.Keys - path|, |props|
  {
    if props == [] then Ok([]) else
    var first :- ReadValue(heap, props[0].val, path);
    var rest :- ReadProps(heap, props[1..], path);
    Ok([Entry(CString(props[0].key), first)] + rest)
  }
}
