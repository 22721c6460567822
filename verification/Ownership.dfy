/** Reference counts of heap objects, against the slots that own them. */
module Ownership {
  import opened JsValues

  /** The count of every live object. */
  type Counts = map<nat, nat>

  function Weight(v: Value, id: nat): nat {
    if v == Ref(id) then 1 else 0
  }

  /** How many of the slots hold the object. */
  function Owners(slots: seq<Value>, id: nat): nat {
    if slots == [] then 0 else Owners(slots[..|slots| - 1], id) + Weight(slots[|slots| - 1], id)
  }

  function CountOf(counts: Counts, id: nat): nat {
    if id in counts then counts[id] else 0
  }

  /** Every live object is owned exactly as often as its count says, and only
      live objects are owned: nothing dangles and nothing leaks. */
  ghost predicate Counted(counts: Counts, slots: seq<Value>) {
    && (forall id: nat :: CountOf(counts, id) == Owners(slots, id))
    && (forall id: nat :: id in counts ==> counts[id] > 0)
  }

  function Dup(counts: Counts, v: Value): Counts
    requires v.Ref? ==> v.id in counts
  {
    if v.Ref? then counts[v.id := counts[v.id] + 1] else counts
  }

  /** The last owner gone, so is the object. */
  function Free(counts: Counts, v: Value): Counts
    requires v.Ref? ==> v.id in counts && counts[v.id] > 0
  {
    if v.Ref? then
      if counts[v.id] > 1 then counts[v.id := counts[v.id] - 1] else counts - {v.id}
    else counts
  }

  lemma {:induction false} OwnersConcat(a: seq<Value>, b: seq<Value>, id: nat)
    ensures Owners(a + b, id) == Owners(a, id) + Owners(b, id)
    decreases |b|
  {
    if b == [] {
      assert a + b == a;
    } else {
      var n := |b| - 1;
      assert (a + b)[..|a| + n] == a + b[..n];
      OwnersConcat(a, b[..n], id);
    }
  }

  lemma OwnersOne(v: Value, id: nat)
    ensures Owners([v], id) == Weight(v, id)
  {
    assert [v][..0] == [];
  }

  lemma OwnersSplit(slots: seq<Value>, k: nat, id: nat)
    requires k < |slots|
    ensures Owners(slots, id) == Owners(slots[..k], id) + Weight(slots[k], id) + Owners(slots[k + 1..], id)
  {
    assert slots == (slots[..k] + [slots[k]]) + slots[k + 1..];
    OwnersConcat(slots[..k] + [slots[k]], slots[k + 1..], id);
    OwnersConcat(slots[..k], [slots[k]], id);
    OwnersOne(slots[k], id);
  }

  lemma OwnersUpdate(slots: seq<Value>, k: nat, v: Value, id: nat)
    requires k < |slots|
    ensures Owners(slots[k := v], id) + Weight(slots[k], id) == Owners(slots, id) + Weight(v, id)
  {
    var after := slots[k := v];
    OwnersSplit(slots, k, id);
    OwnersSplit(after, k, id);
    assert after[..k] == slots[..k] && after[k + 1..] == slots[k + 1..];
  }

  /** A value found in a slot is live. */
  lemma OwnedIsLive(counts: Counts, slots: seq<Value>, k: nat)
    requires Counted(counts, slots) && k < |slots|
    ensures slots[k].Ref? ==> slots[k].id in counts && counts[slots[k].id] > 0
  {
    if slots[k].Ref? {
      var id := slots[k].id;
      OwnersSplit(slots, k, id);
      assert CountOf(counts, id) == Owners(slots, id);
    }
  }

  /** Slots that own one value more. */
  ghost predicate OneMore(before: seq<Value>, after: seq<Value>, v: Value) {
    forall id: nat :: Owners(after, id) == Owners(before, id) + Weight(v, id)
  }

  lemma DupCounted(counts: Counts, before: seq<Value>, after: seq<Value>, v: Value)
    requires Counted(counts, before) && OneMore(before, after, v)
    requires v.Ref? ==> v.id in counts
    ensures Counted(Dup(counts, v), after)
  {
    hide Owners;
    forall id: nat
      ensures CountOf(Dup(counts, v), id) == Owners(after, id)
    {
      assert CountOf(counts, id) == Owners(before, id);
      assert Owners(after, id) == Owners(before, id) + Weight(v, id);
    }
  }

  lemma FreeCounted(counts: Counts, before: seq<Value>, after: seq<Value>, v: Value)
    requires Counted(counts, before) && OneMore(after, before, v)
    requires v.Ref? ==> v.id in counts && counts[v.id] > 0
    ensures Counted(Free(counts, v), after)
  {
    hide Owners;
    forall id: nat
      ensures CountOf(Free(counts, v), id) == Owners(after, id)
    {
      assert CountOf(counts, id) == Owners(before, id);
      assert Owners(before, id) == Owners(after, id) + Weight(v, id);
    }
  }

  /** A value moves between owners: no count changes. */
  lemma MoveCounted(counts: Counts, before: seq<Value>, after: seq<Value>)
    requires Counted(counts, before) && forall id: nat :: Owners(before, id) == Owners(after, id)
    ensures Counted(counts, after)
  {
    hide Owners;
    forall id: nat
      ensures CountOf(counts, id) == Owners(after, id)
    {
      assert CountOf(counts, id) == Owners(before, id);
      assert Owners(before, id) == Owners(after, id);
    }
  }
}
