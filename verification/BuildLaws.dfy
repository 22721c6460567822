/** What is built for a datum, by rules, whatever way the serializer gets there. */
module BuildLaws {
  import opened JsValues
  import opened JsHeap
  import opened JsTree

  // ---------------------------------------------------------------------------
  // The rules
  // ---------------------------------------------------------------------------

  /** An integer becomes an int32 where it fits (below that, its low 32 bits), a
      float64 up to 2^53 - 1, a BigInt beyond, and is the same number. */
  predicate BecomesNumber(n: int, v: Js) {
    && (n < -0x8000_0000 ==> v.JsInt? && (v.i - n) % 0x1_0000_0000 == 0)
    && (-0x8000_0000 <= n <= 0x7fff_ffff ==> v == JsInt(n))
    && (0x7fff_ffff < n <= 0x1f_ffff_ffff_ffff ==> v == JsFloat(n))
    && (n > 0x1f_ffff_ffff_ffff ==> v == JsBigInt(n))
  }

  ghost predicate Built(heap: Heap, v: Js, d: Data)
    decreases d
  {
    match d
    case Nil => v == JsNull
    case Flag(b) => v == JsBool(b)
    case I32(i) => v == JsInt(i)
    case I64(l) => BecomesNumber(l, v)
    case U32(u) => BecomesNumber(u, v)
    case U64(w) => BecomesNumber(w, v)
    case F64(n) => v == JsFloat(n)
    case Str(s) => v == JsString(s)
    case UnitVariant(name) => v == JsString(name)
    case Wrapped(inner) => Built(heap, v, inner)
    case Seq(items) =>
      && IsArray(heap, v) && |heap[v.id].elems| == |items|
      && forall k :: 0 <= k < |items| ==> Built(heap, heap[v.id].elems[k], items[k])
    case Map(entries) =>
      && IsObject(heap, v)
      && exists first, last :: Named(heap[v.id].props, entries, first, last)
           && forall k :: 0 <= k < |last| ==> PairBuilt(heap, heap[v.id].props[k].val, entries[last[k]])
    case NewtypeVariant(name, val) =>
      IsObject(heap, v) && |heap[v.id].props| == 1 && heap[v.id].props[0].key == name && Built(heap, heap[v.id].props[0].val, val)
    case TupleVariant(name, items) =>
      && IsObject(heap, v) && |heap[v.id].props| == 1 && heap[v.id].props[0].key == name
      && var w := heap[v.id].props[0].val;
      && IsArray(heap, w) && |heap[w.id].elems| == |items|
      && forall k :: 0 <= k < |items| ==> Built(heap, heap[w.id].elems[k], items[k])
  }

  ghost predicate PairBuilt(heap: Heap, v: Js, p: Pair)
    decreases p
  {
    match p
    case Pair(_, val) => Built(heap, v, val)
  }

  predicate IsArray(heap: Heap, v: Js) {
    v.JsObject? && v.id in heap && heap[v.id].ArrayNode?
  }

  predicate IsObject(heap: Heap, v: Js) {
    v.JsObject? && v.id in heap && heap[v.id].ObjectNode?
  }

  /** The properties have the names of the pairs, each once, in the order in which
      the names first occur; `first` and `last` are a name's first and last pair. */
  ghost predicate Named(props: seq<Prop>, entries: seq<Pair>, first: seq<nat>, last: seq<nat>) {
    && |first| == |last| == |props|
    && (forall k :: 0 <= k < |props| ==> IsFirst(entries, |entries|, first[k], props[k].key) && IsLast(entries, |entries|, last[k], props[k].key))
    && (forall j, k :: 0 <= j < k < |props| ==> first[j] < first[k])
    && (forall j :: 0 <= j < |entries| ==> HasName(props, TextOf(entries[j])))
  }

  predicate HasName(props: seq<Prop>, key: string) {
    exists k :: 0 <= k < |props| && props[k].key == key
  }

  ghost predicate IsFirst(entries: seq<Pair>, n: nat, j: nat, key: string)
    requires n <= |entries|
  {
    j < n && TextOf(entries[j]) == key && forall i :: 0 <= i < j ==> TextOf(entries[i]) != key
  }

  ghost predicate IsLast(entries: seq<Pair>, n: nat, j: nat, key: string)
    requires n <= |entries|
  {
    j < n && TextOf(entries[j]) == key && forall i :: j < i < n ==> TextOf(entries[i]) != key
  }

  // ---------------------------------------------------------------------------
  // Setting entries one after the other
  // ---------------------------------------------------------------------------

  /** The entry a name has after the first `n` pairs. */
  ghost predicate Tracks(entries: seq<Pair>, n: nat, e: TreeEntry, first: nat, last: nat) {
    && n <= |entries| && IsFirst(entries, n, first, e.key) && IsLast(entries, n, last, e.key) && EntryOf(entries[last]) == Ok(e)
  }

  /** The entries after the first `n` pairs. */
  ghost predicate Settled(entries: seq<Pair>, n: nat, done: seq<TreeEntry>, first: seq<nat>, last: seq<nat>)
    requires n <= |entries|
  {
    && |first| == |last| == |done|
    && (forall k :: 0 <= k < |done| ==> Tracks(entries, n, done[k], first[k], last[k]))
    && (forall j, k :: 0 <= j < k < |done| ==> first[j] < first[k])
    && (forall j :: 0 <= j < n ==> UsesKey(done, TextOf(entries[j])))
  }

  lemma EntryIsNamed(p: Pair)
    ensures EntryOf(p).Ok? ==> EntryOf(p).value.key == TextOf(p)
  {
    hide TreeOf;
  }

  lemma TracksOn(entries: seq<Pair>, n: nat, e: TreeEntry, first: nat, last: nat)
    requires Tracks(entries, n, e, first, last) && n < |entries| && TextOf(entries[n]) != e.key
    ensures Tracks(entries, n + 1, e, first, last)
  {
    hide EntryOf;
  }

  lemma TracksAgain(entries: seq<Pair>, n: nat, e: TreeEntry, first: nat, last: nat)
    requires Tracks(entries, n, e, first, last) && n < |entries| && TextOf(entries[n]) == e.key && EntryOf(entries[n]).Ok?
    ensures Tracks(entries, n + 1, EntryOf(entries[n]).value, first, n)
  {
    hide EntryOf;
    EntryIsNamed(entries[n]);
  }

  lemma TracksNew(entries: seq<Pair>, n: nat)
    requires n < |entries| && EntryOf(entries[n]).Ok? && forall i :: 0 <= i < n ==> TextOf(entries[i]) != TextOf(entries[n])
    ensures Tracks(entries, n + 1, EntryOf(entries[n]).value, n, n)
  {
    hide EntryOf;
    EntryIsNamed(entries[n]);
  }

  /** Two names that first occur at different pairs differ. */
  lemma NamesDiffer(entries: seq<Pair>, n: nat, e: TreeEntry, f: TreeEntry, first: nat, first': nat, last: nat, last': nat)
    requires Tracks(entries, n, e, first, last) && Tracks(entries, n, f, first', last') && first != first'
    ensures e.key != f.key
  {
    hide EntryOf;
  }

  lemma CoversAgain(done: seq<TreeEntry>, at: nat, e: TreeEntry, key: string)
    requires at < |done| && done[at].key == e.key && (UsesKey(done, key) || key == e.key)
    ensures UsesKey(done[at := e], key)
  {
    var all := done[at := e];
    if key == e.key {
      assert all[at].key == key;
    } else {
      var k :| 0 <= k < |done| && done[k].key == key;
      assert all[k].key == key;
    }
  }

  lemma CoversNew(done: seq<TreeEntry>, e: TreeEntry, key: string)
    requires UsesKey(done, key) || key == e.key
    ensures UsesKey(done + [e], key)
  {
    var all := done + [e];
    if key == e.key {
      assert all[|done|].key == key;
    } else {
      var k :| 0 <= k < |done| && done[k].key == key;
      assert all[k].key == key;
    }
  }

  /** A name used before keeps its place and takes the new value. */
  lemma SettleAgain(entries: seq<Pair>, n: nat, done: seq<TreeEntry>, first: seq<nat>, last: seq<nat>, at: nat)
    requires n < |entries| && Settled(entries, n, done, first, last) && EntryOf(entries[n]).Ok?
    requires at < |done| && done[at].key == TextOf(entries[n])
    ensures
      var e := EntryOf(entries[n]).value;
      Settled(entries, n + 1, SetEntry(done, e.key, e.val), first, last[at := n])
  {
    hide EntryOf, SetEntry, Tracks, UsesKey;
    EntryIsNamed(entries[n]);
    var e := EntryOf(entries[n]).value;
    forall k | 0 <= k < |done| && k != at
      ensures done[k].key != e.key
    {
      NamesDiffer(entries, n, done[k], done[at], first[k], first[at], last[k], last[at]);
    }
    SetEntryAdds(done, e.key, e.val);
    var all, last' := done[at := e], last[at := n];
    assert SetEntry(done, e.key, e.val) == all;
    forall k | 0 <= k < |all|
      ensures Tracks(entries, n + 1, all[k], first[k], last'[k])
    {
      if k == at {
        TracksAgain(entries, n, done[k], first[k], last[k]);
      } else {
        TracksOn(entries, n, done[k], first[k], last[k]);
      }
    }
    forall j | 0 <= j < n + 1
      ensures UsesKey(all, TextOf(entries[j]))
    {
      CoversAgain(done, at, e, TextOf(entries[j]));
    }
  }

  lemma UsedKey(done: seq<TreeEntry>, k: nat)
    requires k < |done|
    ensures UsesKey(done, done[k].key)
  {
  }

  /** A new name comes last. */
  lemma SettleNew(entries: seq<Pair>, n: nat, done: seq<TreeEntry>, first: seq<nat>, last: seq<nat>)
    requires n < |entries| && Settled(entries, n, done, first, last) && EntryOf(entries[n]).Ok?
    requires !UsesKey(done, TextOf(entries[n]))
    ensures
      var e := EntryOf(entries[n]).value;
      Settled(entries, n + 1, SetEntry(done, e.key, e.val), first + [n], last + [n])
  {
    hide EntryOf, SetEntry, Tracks, UsesKey;
    EntryIsNamed(entries[n]);
    var e := EntryOf(entries[n]).value;
    SetEntryAdds(done, e.key, e.val);
    var all, first', last' := done + [e], first + [n], last + [n];
    assert SetEntry(done, e.key, e.val) == all;
    TracksNew(entries, n);
    forall k | 0 <= k < |all|
      ensures Tracks(entries, n + 1, all[k], first'[k], last'[k])
    {
      if k < |done| {
        UsedKey(done, k);
        TracksOn(entries, n, done[k], first[k], last[k]);
      }
    }
    forall j | 0 <= j < n + 1
      ensures UsesKey(all, TextOf(entries[j]))
    {
      CoversNew(done, e, TextOf(entries[j]));
    }
    forall j, k | 0 <= j < k < |all|
      ensures first'[j] < first'[k]
    {
      FirstBefore(entries, n, done[j], first[j], last[j]);
    }
  }

  lemma FirstBefore(entries: seq<Pair>, n: nat, e: TreeEntry, first: nat, last: nat)
    requires Tracks(entries, n, e, first, last)
    ensures first < n
  {
    hide EntryOf;
  }

  lemma {:induction false} AllSettle(entries: seq<Pair>, n: nat, done: seq<TreeEntry>, first: seq<nat>, last: seq<nat>)
    returns (first': seq<nat>, last': seq<nat>)
    requires n <= |entries| && Settled(entries, n, done, first, last) && EntriesOf(entries[n..], done).Ok?
    ensures Settled(entries, |entries|, EntriesOf(entries[n..], done).value, first', last')
    decreases |entries| - n
  {
    hide EntryOf, SetEntry, Settled;
    if n == |entries| {
      first', last' := first, last;
    } else {
      assert entries[n..][1..] == entries[n + 1..];
      var e := EntryOf(entries[n]).value;
      if UsesKey(done, TextOf(entries[n])) {
        var at :| 0 <= at < |done| && done[at].key == TextOf(entries[n]);
        LengthsSettled(entries, n, done, first, last);
        SettleAgain(entries, n, done, first, last, at);
        first', last' := AllSettle(entries, n + 1, SetEntry(done, e.key, e.val), first, last[at := n]);
      } else {
        SettleNew(entries, n, done, first, last);
        first', last' := AllSettle(entries, n + 1, SetEntry(done, e.key, e.val), first + [n], last + [n]);
      }
    }
  }

  lemma LengthsSettled(entries: seq<Pair>, n: nat, done: seq<TreeEntry>, first: seq<nat>, last: seq<nat>)
    requires n <= |entries| && Settled(entries, n, done, first, last)
    ensures |first| == |last| == |done|
  {
  }

  // ---------------------------------------------------------------------------
  // A tree on the heap is what the rules say
  // ---------------------------------------------------------------------------

  lemma {:induction false} StandsIsBuilt(heap: Heap, lo: nat, v: Js, d: Data)
    requires TreeOf(d).Ok? && Stands(heap, lo, v, TreeOf(d).value)
    ensures Built(heap, v, d)
    decreases d, 1
  {
    hide TreesOf, EntriesOf;
    match d
    case Wrapped(inner) => StandsIsBuilt(heap, lo, v, inner);
    case Seq(items) => ItemsAreBuilt(heap, v.id + 1, heap[v.id].elems, items);
    case NewtypeVariant(name, val) => StandsIsBuilt(heap, v.id + 1, heap[v.id].props[0].val, val);
    case TupleVariant(name, items) =>
      var w := heap[v.id].props[0].val;
      ItemsAreBuilt(heap, w.id + 1, heap[w.id].elems, items);
    case Map(entries) => MapIsBuilt(heap, lo, v, entries);
    case _ => IntegersAreBuilt(heap, v, d);
  }

  lemma IntegersAreBuilt(heap: Heap, v: Js, d: Data)
    requires d.I64? || d.U32? || d.U64? ==> TreeOf(d) == Ok(Leaf(v))
    ensures d.I64? ==> BecomesNumber(d.l, v)
    ensures d.U32? ==> BecomesNumber(d.u, v)
    ensures d.U64? ==> BecomesNumber(d.w, v)
  {
    if d.I64? && d.l < -0x8000_0000 {
      LowWord(d.l);
    }
  }

  lemma LowWord(n: int)
    ensures (S32(n) - n) % 0x1_0000_0000 == 0
  {
    var k := n / TWO32;
    assert n == k * TWO32 + n % TWO32;
    AddMultiple(0, -k);
    AddMultiple(0, -k - 1);
    assert S32(n) - n == (-k) * TWO32 || S32(n) - n == (-k - 1) * TWO32;
  }

  lemma {:induction false} ItemsAreBuilt(heap: Heap, lo: nat, elems: seq<Js>, items: seq<Data>)
    requires TreesOf(items).Ok? && ItemsStand(heap, lo, elems, TreesOf(items).value)
    ensures |elems| == |items| && forall k :: 0 <= k < |items| ==> Built(heap, elems[k], items[k])
    decreases items, 0
  {
    hide TreeOf, Stands, Built;
    if items != [] {
      StandsIsBuilt(heap, lo, elems[0], items[0]);
      var rest := TreesOf(items[1..]).value;
      assert forall k :: 0 <= k < |rest| ==> TreesOf(items).value[k + 1] == rest[k] && elems[1..][k] == elems[k + 1];
      ItemsAreBuilt(heap, lo, elems[1..], items[1..]);
      assert forall k :: 0 < k < |items| ==> items[k] == items[1..][k - 1] && elems[k] == elems[1..][k - 1];
    }
  }

  lemma {:induction false} PairIsBuilt(heap: Heap, lo: nat, v: Js, p: Pair)
    requires EntryOf(p).Ok? && Stands(heap, lo, v, EntryOf(p).value.val)
    ensures PairBuilt(heap, v, p)
    decreases p, 0
  {
    hide Stands, Built;
    match p
    case Pair(_, val) => StandsIsBuilt(heap, lo, v, val);
  }

  lemma {:induction false} MapIsBuilt(heap: Heap, lo: nat, v: Js, entries: seq<Pair>)
    requires EntriesOf(entries, []).Ok? && Stands(heap, lo, v, Obj(EntriesOf(entries, []).value))
    ensures Built(heap, v, Map(entries))
    decreases entries, 2
  {
    hide EntryOf, EntriesOf, Tracks;
    var all := EntriesOf(entries, []).value;
    assert entries[0..] == entries;
    assert Settled(entries, 0, [], [], []);
    var first, last := AllSettle(entries, 0, [], [], []);
    var props := heap[v.id].props;
    forall k | 0 <= k < |props|
      ensures IsFirst(entries, |entries|, first[k], props[k].key) && IsLast(entries, |entries|, last[k], props[k].key)
      ensures PairBuilt(heap, props[k].val, entries[last[k]])
    {
      TracksMeans(entries, all[k], first[k], last[k]);
      PairIsBuilt(heap, v.id + 1, props[k].val, entries[last[k]]);
    }
    forall j | 0 <= j < |entries|
      ensures HasName(props, TextOf(entries[j]))
    {
      assert UsesKey(all, TextOf(entries[j]));
      var k :| 0 <= k < |all| && all[k].key == TextOf(entries[j]);
      assert props[k].key == TextOf(entries[j]);
    }
    assert Named(props, entries, first, last);
  }

  lemma TracksMeans(entries: seq<Pair>, e: TreeEntry, first: nat, last: nat)
    requires Tracks(entries, |entries|, e, first, last)
    ensures IsFirst(entries, |entries|, first, e.key) && IsLast(entries, |entries|, last, e.key)
    ensures last < |entries| && EntryOf(entries[last]) == Ok(e)
  {
    hide EntryOf;
  }

  // ---------------------------------------------------------------------------
  // Which data can be built
  // ---------------------------------------------------------------------------

  /** Map keys are strings, and neither they nor the names of variants with data hold a NUL. */
  predicate Buildable(d: Data)
    decreases d
  {
    match d
    case Wrapped(inner) => Buildable(inner)
    case Seq(items) => forall k :: 0 <= k < |items| ==> Buildable(items[k])
    case Map(entries) => forall k :: 0 <= k < |entries| ==> PairBuildable(entries[k])
    case NewtypeVariant(name, val) => '\0' !in name && Buildable(val)
    case TupleVariant(name, items) => '\0' !in name && forall k :: 0 <= k < |items| ==> Buildable(items[k])
    case _ => true
  }

  predicate PairBuildable(p: Pair)
    decreases p
  {
    match p
    case Pair(key, val) => KeyText(key).Some? && '\0' !in KeyText(key).value && Buildable(val)
  }

  lemma {:induction false} BuildableIff(d: Data)
    ensures TreeOf(d).Ok? <==> Buildable(d)
    decreases d, 1
  {
    hide TreesOf, EntriesOf;
    match d
    case Wrapped(inner) => BuildableIff(inner);
    case Seq(items) => ItemsBuildable(items);
    case Map(entries) => EntriesBuildable(entries, []);
    case NewtypeVariant(_, val) => BuildableIff(val);
    case TupleVariant(_, items) => ItemsBuildable(items);
    case _ =>
  }

  lemma {:induction false} ItemsBuildable(items: seq<Data>)
    ensures TreesOf(items).Ok? <==> forall k :: 0 <= k < |items| ==> Buildable(items[k])
    decreases items, 0
  {
    hide TreeOf, Buildable;
    if items != [] {
      BuildableIff(items[0]);
      ItemsBuildable(items[1..]);
      assert forall k :: 0 < k < |items| ==> items[k] == items[1..][k - 1];
      assert forall k :: 0 <= k < |items[1..]| ==> items[1..][k] == items[k + 1];
    }
  }

  lemma {:induction false} PairBuildableIff(p: Pair)
    ensures EntryOf(p).Ok? <==> PairBuildable(p)
    decreases p, 0
  {
    hide TreeOf, Buildable;
    match p
    case Pair(_, val) => BuildableIff(val);
  }

  lemma {:induction false} EntriesBuildable(entries: seq<Pair>, done: seq<TreeEntry>)
    ensures EntriesOf(entries, done).Ok? <==> forall k :: 0 <= k < |entries| ==> PairBuildable(entries[k])
    decreases entries, 0
  {
    hide EntryOf, SetEntry, PairBuildable;
    if entries != [] {
      PairBuildableIff(entries[0]);
      assert forall k :: 0 < k < |entries| ==> entries[k] == entries[1..][k - 1];
      assert forall k :: 0 <= k < |entries[1..]| ==> entries[1..][k] == entries[k + 1];
      if EntryOf(entries[0]).Ok? {
        var e := EntryOf(entries[0]).value;
        EntriesBuildable(entries[1..], SetEntry(done, e.key, e.val));
      }
    }
  }
}
