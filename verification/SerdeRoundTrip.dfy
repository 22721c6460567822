/** `from_js` of `to_js`. */
module SerdeRoundTrip {
  import opened JsValues
  import opened JsHeap
  import opened JsTree
  import opened CycleGuard
  import opened ReadLaws
  import opened BuildLaws
  import Serializer
  import Deserializer

  // ---------------------------------------------------------------------------
  // The two entry points
  // ---------------------------------------------------------------------------

  datatype JsRoot = JsRoot(heap: Heap, root: Js)

  /** Builds the tree of `d` in fresh nodes of the heap. */
  method ToJs(d: Data, heap: Heap, next: nat) returns (r: Result<JsRoot>)
    requires Closed(heap) && NamesOnce(heap) && Serializer.Fresh(heap, next)
    ensures r.Ok? <==> Buildable(d)
    ensures r.Ok? ==> Built(r.value.heap, r.value.root, d)
    ensures r.Ok? <==> TreeOf(d).Ok?
    ensures r.Err? ==> r.error == TreeOf(d).error
    ensures r.Ok? ==>
      && Closed(r.value.heap) && NamesOnce(r.value.heap) && Present(r.value.heap, r.value.root)
      && KeptFrom(heap, r.value.heap, 0)
      && Stands(r.value.heap, next, r.value.root, TreeOf(d).value)
  {
    hide TreeOf, Stands, Built, Buildable;
    BuildableIff(d);
    var s := new Serializer.Serializer(heap, next);
    ghost var v: Js;
    var done;
    done, v := s.Serialize(d);
    if done.Err? {
      return Err(done.error);
    }
    StandsIsBuilt(s.heap, next, s.root, d);
    r := Ok(JsRoot(s.heap, s.root));
  }

  method FromJs(heap: Heap, v: Js) returns (r: Result<Plain>)
    requires Closed(heap) && NamesOnce(heap) && Present(heap, v)
    ensures r == ReadValue(heap, v, {})
    ensures forall p :: r == Ok(p) <==> Reads(heap, v, p)
    ensures r.Err? ==> r.error == CircularReference || r.error == BigIntOverflow
    ensures r == Err(CircularReference) ==> ReachesCycle(heap, v)
    ensures r.Ok? ==> !ReachesCycle(heap, v)
  {
    hide ReadValue, Reads;
    var de := new Deserializer.Deserializer(heap, v);
    r := de.DeserializeAny();
    assert Deserializer.PathIds([]) == {};
    forall p
      ensures r == Ok(p) <==> Reads(heap, v, p)
    {
      TraversalIffRules(heap, v, p);
    }
    if r.Err? {
      OnlyTwoErrors(heap, v, {});
    }
    if r == Err(CircularReference) {
      CircularMeansCycle(heap, v);
    }
    if r.Ok? {
      OkMeansNoCycle(heap, v);
    }
  }

  // ---------------------------------------------------------------------------
  // What should come back
  // ---------------------------------------------------------------------------

  /** The datum up to numeric type; variants in their externally tagged form. */
  function Meaning(d: Data): Plain
    decreases d
  {
    match d
    case Nil => Unit
    case Flag(b) => Truth(b)
    case I32(i) => Number(i)
    case I64(l) => Number(l)
    case U32(u) => Number(u)
    case U64(w) => Number(w)
    case F64(n) => Number(n)
    case Str(s) => Text(s)
    case UnitVariant(name) => Text(name)
    case Wrapped(inner) => Meaning(inner)
    case Seq(items) => List(Meanings(items))
    case Map(entries) => Dict(EntryMeanings(entries))
    case NewtypeVariant(name, val) => Dict([Entry(name, Meaning(val))])
    case TupleVariant(name, items) => Dict([Entry(name, List(Meanings(items)))])
  }

  function Meanings(items: seq<Data>): (r: seq<Plain>)
    ensures |r| == |items|
    decreases items
  {
    if items == [] then [] else [Meaning(items[0])] + Meanings(items[1..])
  }

  function PairMeaning(p: Pair): Entry
    decreases p
  {
    match p
    case Pair(_, val) => Entry(TextOf(p), Meaning(val))
  }

  function EntryMeanings(entries: seq<Pair>): (r: seq<Entry>)
    ensures |r| == |entries|
    decreases entries
  {
    if entries == [] then [] else [PairMeaning(entries[0])] + EntryMeanings(entries[1..])
  }

  function Restored(d: Data): Result<Plain> {
    match TreeOf(d)
    case Ok(t) => PlainOf(t)
    case Err(e) => Err(e)
  }

  // ---------------------------------------------------------------------------
  // When it does
  // ---------------------------------------------------------------------------

  /** Integers between `i32::MIN` and `i64::MAX`; strings without NUL; string keys,
      each used once. */
  predicate Faithful(d: Data)
    decreases d
  {
    match d
    case I64(l) => l >= -TWO31
    case U64(w) => w <= I64_MAX
    case Wrapped(inner) => Faithful(inner)
    case Seq(items) => AllFaithful(items)
    case Map(entries) => FaithfulEntries(entries) && DistinctTexts(entries)
    case NewtypeVariant(name, val) => !HasZero(name) && Faithful(val)
    case TupleVariant(name, items) => !HasZero(name) && AllFaithful(items)
    case Str(s) => !HasZero(s)
    case UnitVariant(name) => !HasZero(name)
    case Nil | Flag(_) | I32(_) | U32(_) | F64(_) => true
  }

  predicate AllFaithful(items: seq<Data>)
    decreases items
  {
    items == [] || (Faithful(items[0]) && AllFaithful(items[1..]))
  }

  predicate FaithfulPair(p: Pair)
    decreases p
  {
    match p
    case Pair(key, val) => KeyText(key).Some? && !HasZero(KeyText(key).value) && Faithful(val)
  }

  predicate FaithfulEntries(entries: seq<Pair>)
    decreases entries
  {
    entries == [] || (FaithfulPair(entries[0]) && FaithfulEntries(entries[1..]))
  }

  predicate DistinctTexts(entries: seq<Pair>) {
    forall j, k :: 0 <= j < k < |entries| ==> TextOf(entries[j]) != TextOf(entries[k])
  }

  /** `serialize_i64` truncates: only values from `i32::MIN` up come back. */
  lemma SignedRoundTrip(v: int64)
    ensures ReadScalar(Signed64(v)) == Ok(Number(v)) <==> v >= -TWO31
  {
  }

  /** Values beyond `i64::MAX` are written as BigInts that cannot be read. */
  lemma UnsignedRoundTrip(v: uint64)
    ensures ReadScalar(Unsigned64(v)) == if v <= I64_MAX then Ok(Number(v)) else Err(BigIntOverflow)
  {
  }

  lemma TruncatedExample()
    ensures Restored(I64(-0x8000_0001)) == Ok(Number(0x7fff_ffff))
    ensures Meaning(I64(-0x8000_0001)) == Number(-0x8000_0001)
  {
  }

  /** Strings are written whole and read up to the first NUL. */
  lemma CutExample()
    ensures Restored(Str("a\0b")) == Ok(Text("a"))
    ensures Meaning(Str("a\0b")) == Text("a\0b")
  {
    var s := "a\0b";
    assert s[1..][0] == '\0';
    assert CString(s) == [s[0]] + CString(s[1..]);
    assert CString(s) == "a";
  }

  predicate ComesBack(d: Data) {
    Restored(d) == Ok(Meaning(d))
  }

  lemma NeverUndefined(d: Data)
    ensures TreeOf(d).Ok? ==> TreeOf(d).value != Leaf(JsUndefined)
    decreases d
  {
    hide TreesOf, EntriesOf;
    if d.Wrapped? {
      NeverUndefined(d.inner);
    }
  }

  function PlainsOf(items: seq<Data>): Result<seq<Plain>> {
    match TreesOf(items)
    case Ok(trees) => PlainItems(trees)
    case Err(e) => Err(e)
  }

  lemma {:induction false} ItemsComeBack(items: seq<Data>)
    ensures PlainsOf(items) == Ok(Meanings(items)) <==> AllFaithful(items)
    decreases items, 0
  {
    hide TreeOf, PlainOf, Faithful, Meaning;
    if items != [] {
      FaithfulIffComesBack(items[0]);
      NeverUndefined(items[0]);
      ItemsComeBack(items[1..]);
      ConsItems(items);
    }
  }

  /** A sequence comes back when its first element and the rest do. */
  lemma ConsItems(items: seq<Data>)
    requires items != [] && (TreeOf(items[0]).Ok? ==> TreeOf(items[0]).value != Leaf(JsUndefined))
    ensures PlainsOf(items) == Ok(Meanings(items)) <==> ComesBack(items[0]) && PlainsOf(items[1..]) == Ok(Meanings(items[1..]))
  {
    hide TreeOf, PlainOf, Meaning;
    var first, rest := TreeOf(items[0]), TreesOf(items[1..]);
    if first.Ok? && rest.Ok? {
      var trees := [first.value] + rest.value;
      assert trees[1..] == rest.value;
      if PlainOf(first.value).Ok? && PlainItems(rest.value).Ok? {
        ConsEqual(PlainOf(first.value).value, PlainItems(rest.value).value, Meaning(items[0]), Meanings(items[1..]));
      }
    }
  }

  lemma ConsEqual<T>(a: T, s: seq<T>, b: T, t: seq<T>)
    ensures [a] + s == [b] + t <==> a == b && s == t
  {
    if [a] + s == [b] + t {
      assert ([a] + s)[0] == ([b] + t)[0];
      assert ([a] + s)[1..] == s && ([b] + t)[1..] == t;
    }
  }

  // ---------------------------------------------------------------------------
  // Maps
  // ---------------------------------------------------------------------------

  /** The entries one by one, none replacing another. */
  function EntryList(entries: seq<Pair>): Result<seq<TreeEntry>>
    decreases entries
  {
    if entries == [] then Ok([]) else
    var first :- EntryOf(entries[0]);
    var rest :- EntryList(entries[1..]);
    Ok([first] + rest)
  }

  predicate NewKeys(entries: seq<Pair>, done: seq<TreeEntry>) {
    DistinctTexts(entries) && forall k :: 0 <= k < |entries| ==> !UsesKey(done, TextOf(entries[k]))
  }

  lemma EntryKey(p: Pair)
    ensures EntryOf(p).Ok? ==> EntryOf(p).value.key == TextOf(p)
  {
    hide TreeOf;
  }

  lemma UsesAfter(done: seq<TreeEntry>, e: TreeEntry, key: string)
    ensures UsesKey(done + [e], key) <==> UsesKey(done, key) || e.key == key
  {
    var all := done + [e];
    if UsesKey(done, key) {
      var k :| 0 <= k < |done| && done[k].key == key;
      assert all[k] == done[k];
    }
    if e.key == key {
      assert all[|done|] == e;
    }
  }

  lemma NewKeysStep(entries: seq<Pair>, done: seq<TreeEntry>, e: TreeEntry)
    requires entries != [] && e.key == TextOf(entries[0])
    ensures NewKeys(entries, done) <==> !UsesKey(done, e.key) && NewKeys(entries[1..], done + [e])
  {
    hide UsesKey;
    var rest := entries[1..];
    assert forall k :: 0 <= k < |rest| ==> rest[k] == entries[k + 1];
    forall k | 0 <= k < |rest|
      ensures UsesKey(done + [e], TextOf(rest[k])) <==> UsesKey(done, TextOf(rest[k])) || e.key == TextOf(rest[k])
    {
      UsesAfter(done, e, TextOf(rest[k]));
    }
    if !UsesKey(done, e.key) && NewKeys(rest, done + [e]) {
      forall j, k | 0 <= j < k < |entries|
        ensures TextOf(entries[j]) != TextOf(entries[k])
      {
        assert entries[k] == rest[k - 1];
        if j > 0 {
          assert entries[j] == rest[j - 1];
        }
      }
      forall k | 0 <= k < |entries|
        ensures !UsesKey(done, TextOf(entries[k]))
      {
        if k > 0 {
          assert entries[k] == rest[k - 1];
        }
      }
    }
    if NewKeys(entries, done) {
      forall k | 0 <= k < |rest|
        ensures !UsesKey(done + [e], TextOf(rest[k]))
      {
        assert rest[k] == entries[k + 1];
      }
    }
  }

  /** With new keys throughout, setting them one after the other lists them. */
  lemma {:induction false} DistinctEntriesList(entries: seq<Pair>, done: seq<TreeEntry>)
    requires NewKeys(entries, done)
    ensures EntriesOf(entries, done) == Prepend(done, EntryList(entries))
    decreases |entries|
  {
    hide EntryOf, SetEntry, UsesKey, NewKeys;
    if entries == [] {
      assert done + [] == done;
    } else {
      EntryKey(entries[0]);
      if EntryOf(entries[0]).Ok? {
        var e := EntryOf(entries[0]).value;
        NewKeysStep(entries, done, e);
        SetEntryAdds(done, e.key, e.val);
        DistinctEntriesList(entries[1..], done + [e]);
        var rest := EntryList(entries[1..]);
        if rest.Ok? {
          assert (done + [e]) + rest.value == done + ([e] + rest.value);
        }
      }
    }
  }

  /** A key used twice leaves fewer entries than pairs. */
  lemma {:induction false} RepeatsShorten(entries: seq<Pair>, done: seq<TreeEntry>)
    requires EntriesOf(entries, done).Ok?
    ensures |EntriesOf(entries, done).value| <= |done| + |entries|
    ensures !NewKeys(entries, done) ==> |EntriesOf(entries, done).value| < |done| + |entries|
    decreases |entries|
  {
    hide EntryOf, SetEntry, UsesKey;
    if entries != [] {
      EntryKey(entries[0]);
      var e := EntryOf(entries[0]).value;
      NewKeysStep(entries, done, e);
      SetEntryAdds(done, e.key, e.val);
      RepeatsShorten(entries[1..], SetEntry(done, e.key, e.val));
    }
  }

  lemma {:induction false} PlainLength(entries: seq<TreeEntry>)
    ensures PlainEntries(entries).Ok? ==> |PlainEntries(entries).value| == |entries|
    decreases |entries|
  {
    hide PlainOf;
    if entries != [] {
      PlainLength(entries[1..]);
    }
  }

  function PlainList(entries: seq<Pair>): Result<seq<Entry>> {
    match EntryList(entries)
    case Ok(all) => PlainEntries(all)
    case Err(e) => Err(e)
  }

  /** A map comes back when its keys are distinct and its pairs come back. */
  lemma MapComesBack(entries: seq<Pair>)
    ensures ComesBack(Map(entries)) <==> DistinctTexts(entries) && PlainList(entries) == Ok(EntryMeanings(entries))
  {
    hide EntryList, EntriesOf, PlainEntries, DistinctTexts;
    if DistinctTexts(entries) {
      assert NewKeys(entries, []);
      DistinctEntriesList(entries, []);
      if EntryList(entries).Ok? {
        assert [] + EntryList(entries).value == EntryList(entries).value;
      }
    } else if EntriesOf(entries, []).Ok? {
      RepeatsShorten(entries, []);
      PlainLength(EntriesOf(entries, []).value);
    }
  }

  function PairPlain(p: Pair): Result<Entry> {
    match EntryOf(p)
    case Ok(e) =>
      (match PlainOf(e.val)
       case Ok(v) => Ok(Entry(CString(e.key), v))
       case Err(x) => Err(x))
    case Err(x) => Err(x)
  }

  lemma ConsEntries(entries: seq<Pair>)
    requires entries != []
    ensures PlainList(entries) == Ok(EntryMeanings(entries))
      <==> PairPlain(entries[0]) == Ok(PairMeaning(entries[0])) && PlainList(entries[1..]) == Ok(EntryMeanings(entries[1..]))
  {
    hide EntryOf, PlainOf, PairMeaning;
    var first, rest := EntryOf(entries[0]), EntryList(entries[1..]);
    if first.Ok? && rest.Ok? {
      var all := [first.value] + rest.value;
      assert all[1..] == rest.value;
      if PlainOf(first.value.val).Ok? && PlainEntries(rest.value).Ok? {
        ConsEqual(Entry(CString(first.value.key), PlainOf(first.value.val).value), PlainEntries(rest.value).value,
                  PairMeaning(entries[0]), EntryMeanings(entries[1..]));
      }
    }
  }

  lemma {:induction false} EntriesComeBack(entries: seq<Pair>)
    ensures PlainList(entries) == Ok(EntryMeanings(entries)) <==> FaithfulEntries(entries)
    decreases entries, 0
  {
    hide EntryOf, PlainOf, PairMeaning, PairPlain, FaithfulPair;
    if entries != [] {
      PairComesBack(entries[0]);
      EntriesComeBack(entries[1..]);
      ConsEntries(entries);
    }
  }

  lemma {:induction false} PairComesBack(p: Pair)
    ensures PairPlain(p) == Ok(PairMeaning(p)) <==> FaithfulPair(p)
    decreases p, 1
  {
    hide TreeOf, PlainOf, Meaning, Faithful;
    match p
    case Pair(_, val) =>
      FaithfulIffComesBack(val);
      CStringKeeps(TextOf(p));
  }

  // ---------------------------------------------------------------------------
  // The round trip
  // ---------------------------------------------------------------------------

  /** A datum comes back, up to numeric type, exactly when it is faithful. */
  lemma {:induction false} FaithfulIffComesBack(d: Data)
    ensures ComesBack(d) <==> Faithful(d)
    decreases d, 1
  {
    hide TreesOf, EntriesOf, PlainItems, AllFaithful, FaithfulEntries, DistinctTexts, Meanings, EntryMeanings;
    match d
    case I64(l) => SignedRoundTrip(l);
    case U64(w) => UnsignedRoundTrip(w);
    case Wrapped(inner) => FaithfulIffComesBack(inner);
    case Seq(items) => ItemsComeBack(items);
    case Map(entries) =>
      MapComesBack(entries);
      EntriesComeBack(entries);
    case NewtypeVariant(name, val) =>
      FaithfulIffComesBack(val);
      OneComesBack(name, val);
    case TupleVariant(name, items) =>
      ItemsComeBack(items);
      TupleComesBack(name, items);
    case Str(s) => CStringKeeps(s);
    case UnitVariant(name) => CStringKeeps(name);
    case Nil | Flag(_) | I32(_) | U32(_) | F64(_) =>
  }

  lemma OneComesBack(name: string, val: Data)
    ensures ComesBack(NewtypeVariant(name, val)) <==> !HasZero(name) && ComesBack(val)
  {
    hide PlainEntries;
    CStringKeeps(name);
    if TreeOf(val).Ok? {
      PlainOne(TreeEntry(name, TreeOf(val).value));
    }
  }

  lemma TupleComesBack(name: string, items: seq<Data>)
    ensures ComesBack(TupleVariant(name, items)) <==> !HasZero(name) && PlainsOf(items) == Ok(Meanings(items))
  {
    hide PlainEntries, TreesOf, PlainItems;
    CStringKeeps(name);
    if TreesOf(items).Ok? {
      PlainOne(TreeEntry(name, Arr(TreesOf(items).value)));
    }
  }

  lemma PlainOne(e: TreeEntry)
    ensures PlainOf(e.val).Ok? ==> PlainEntries([e]) == Ok([Entry(CString(e.key), PlainOf(e.val).value)])
    ensures PlainOf(e.val).Err? ==> PlainEntries([e]).Err?
  {
    hide PlainOf;
    assert [e][1..] == [];
    assert PlainEntries([]) == Ok([]);
    if PlainOf(e.val).Ok? {
      var entry := Entry(CString(e.key), PlainOf(e.val).value);
      assert [entry] + [] == [entry];
    }
  }

  /** The two bridges, one after the other. */
  method ThereAndBack(d: Data, heap: Heap, next: nat) returns (r: Result<Plain>)
    requires Closed(heap) && NamesOnce(heap) && Serializer.Fresh(heap, next)
    ensures r == Restored(d)
    ensures r == Ok(Meaning(d)) <==> Faithful(d)
  {
    hide TreeOf, PlainOf, ReadValue, Stands, Faithful, Meaning;
    FaithfulIffComesBack(d);
    var built := ToJs(d, heap, next);
    if built.Err? {
      return Err(built.error);
    }
    ReadsTree(built.value.heap, next, built.value.root, TreeOf(d).value, {});
    r := FromJs(built.value.heap, built.value.root);
  }
}
