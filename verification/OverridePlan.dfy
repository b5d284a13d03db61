/** Last-wins resolution of fields that share a key, and what extending a spec does to it. */
module OverridePlan {

  // ------------------------------------------------------------------ the reference

  ghost predicate Occurs<K(!new)>(keys: seq<K>, key: K) {
    exists i :: 0 <= i < |keys| && keys[i] == key
  }

  /** The position of the last field with `key`: the one that wins. */
  ghost function LastIndex<K(!new)>(keys: seq<K>, key: K): (i: nat)
    requires Occurs(keys, key)
    ensures i < |keys| && keys[i] == key
    ensures forall j :: i < j < |keys| ==> keys[j] != key
  {
    if keys[|keys| - 1] == key then |keys| - 1
    else
      assert Occurs(keys[..|keys| - 1], key) by {
        var i :| 0 <= i < |keys| && keys[i] == key;
        assert keys[..|keys| - 1][i] == key;
      }
      LastIndex(keys[..|keys| - 1], key)
  }

  /** The distinct keys, in the order in which each first appears. */
  ghost function Slots<K(!new)>(keys: seq<K>): (slots: seq<K>)
    ensures forall k: K :: k in slots <==> Occurs(keys, k)
  {
    if keys == [] then []
    else
      var init, last := keys[..|keys| - 1], keys[|keys| - 1];
      assert forall k: K :: Occurs(keys, k) <==> Occurs(init, k) || k == last by {
        OccursSnoc(init, last);
        assert keys == init + [last];
      }
      if last in Slots(init) then Slots(init) else Slots(init) + [last]
  }

  lemma OccursSnoc<K(!new)>(keys: seq<K>, last: K)
    ensures forall k: K :: Occurs(keys + [last], k) <==> Occurs(keys, k) || k == last
  {
    forall k: K
      ensures Occurs(keys + [last], k) <==> Occurs(keys, k) || k == last
    {
      var all := keys + [last];
      if Occurs(keys, k) {
        var i :| 0 <= i < |keys| && keys[i] == k;
        assert all[i] == k;
      }
      assert all[|keys|] == last;
    }
  }

  /** The indices of the fields a walk visits, in order: one slot per key, filled by its last
    field. */
  ghost function Effective<K(!new)>(keys: seq<K>): seq<nat> {
    seq(|Slots(keys)|, i requires 0 <= i < |Slots(keys)| =>
      assert Slots(keys)[i] in Slots(keys);
      LastIndex(keys, Slots(keys)[i]))
  }

  /** Every key has exactly one slot. */
  lemma {:induction false} OneSlotPerKey<K(!new)>(keys: seq<K>, i: nat, j: nat)
    requires i < j < |Slots(keys)|
    ensures Slots(keys)[i] != Slots(keys)[j]
  {
    var init, last := keys[..|keys| - 1], keys[|keys| - 1];
    if j < |Slots(init)| {
      OneSlotPerKey(init, i, j);
    } else {
      assert Slots(init)[i] in Slots(init);
    }
  }

  // ------------------------------------------------------------------ the plan

  ghost predicate IsFirst<K(!new)>(keys: seq<K>, i: nat)
    requires i < |keys|
  {
    forall j :: 0 <= j < i ==> keys[j] != keys[i]
  }

  /** `w` is the last field with the key of field `i`. */
  ghost predicate IsLast<K(!new)>(keys: seq<K>, i: nat, w: nat)
    requires i < |keys|
  {
    i <= w < |keys| && keys[w] == keys[i] && forall j :: w < j < |keys| ==> keys[j] != keys[i]
  }

  /** Fills the plan's two arrays with the source's nested loops. */
  method BuildOverridePlan<K(==,!new)>(keys: seq<K>) returns (shouldRun: array<bool>, effectiveIdx: array<nat>)
    ensures fresh(shouldRun) && fresh(effectiveIdx)
    ensures shouldRun.Length == effectiveIdx.Length == |keys|
    ensures forall i :: 0 <= i < |keys| ==> (shouldRun[i] <==> IsFirst(keys, i))
    ensures forall i :: 0 <= i < |keys| && IsFirst(keys, i) ==> IsLast(keys, i, effectiveIdx[i])
  {
    shouldRun, effectiveIdx := new bool[|keys|], new nat[|keys|];
    for i := 0 to |keys|
      invariant forall m :: 0 <= m < i ==> (shouldRun[m] <==> IsFirst(keys, m))
      invariant forall m :: 0 <= m < i && IsFirst(keys, m) ==> IsLast(keys, m, effectiveIdx[m])
    {
      var isFirst := true;
      for j := 0 to i
        invariant isFirst
        invariant forall m :: 0 <= m < j ==> keys[m] != keys[i]
      {
        if keys[j] == keys[i] {
          isFirst := false;
          break;
        }
      }
      assert isFirst <==> IsFirst(keys, i);
      shouldRun[i] := isFirst;
      if isFirst {
        var last := i;
        for j := i + 1 to |keys|
          invariant i <= last < j && keys[last] == keys[i]
          invariant forall m :: last < m < j ==> keys[m] != keys[i]
        {
          if keys[j] == keys[i] {
            last := j;
          }
        }
        effectiveIdx[i] := last;
      }
    }
  }

  /** Field `i` opens the next slot exactly when its key is new. */
  lemma SlotStep<K(!new)>(keys: seq<K>, i: nat)
    requires i < |keys|
    ensures |Slots(keys[..i])| <= |Slots(keys[..i + 1])| <= |Slots(keys)|
    ensures IsFirst(keys, i) <==> |Slots(keys[..i + 1])| == |Slots(keys[..i])| + 1
    ensures !IsFirst(keys, i) <==> |Slots(keys[..i + 1])| == |Slots(keys[..i])|
    ensures |Effective(keys)| == |Slots(keys)|
    ensures forall w: nat :: IsFirst(keys, i) && IsLast(keys, i, w) ==>
      Effective(keys)[|Slots(keys[..i])|] == w
  {
    FirstIsNew(keys, i);
    SlotsGrow(keys, i + 1);
    var next := keys[..i + 1];
    assert next[..|next| - 1] == keys[..i] && next[|next| - 1] == keys[i];
    if IsFirst(keys, i) {
      assert Slots(next)[|Slots(keys[..i])|] == keys[i];
      assert Slots(keys)[|Slots(keys[..i])|] == keys[i];
    }
  }

  lemma FirstIsNew<K(!new)>(keys: seq<K>, i: nat)
    requires i < |keys|
    ensures IsFirst(keys, i) <==> keys[i] !in Slots(keys[..i])
  {
    var init := keys[..i];
    assert keys[i] in Slots(init) <==> Occurs(init, keys[i]);
    if Occurs(init, keys[i]) {
      var j :| 0 <= j < |init| && init[j] == keys[i];
      assert keys[j] == keys[i];
    } else {
      forall j | 0 <= j < i
        ensures keys[j] != keys[i]
      {
        assert init[j] == keys[j];
      }
    }
  }

  lemma {:induction false} SlotsGrow<K(!new)>(keys: seq<K>, i: nat)
    requires i <= |keys|
    ensures Slots(keys[..i]) <= Slots(keys)
    decreases |keys|
  {
    if i == |keys| {
      assert keys[..i] == keys;
    } else {
      SlotsGrow(keys[..|keys| - 1], i);
      assert keys[..|keys| - 1][..i] == keys[..i];
    }
  }

  // ------------------------------------------------------------------ extending a spec

  lemma OccursConcat<K(!new)>(a: seq<K>, b: seq<K>, k: K)
    ensures Occurs(a + b, k) <==> Occurs(a, k) || Occurs(b, k)
  {
    var all := a + b;
    if Occurs(a, k) {
      var i :| 0 <= i < |a| && a[i] == k;
      assert all[i] == k;
    }
    if Occurs(b, k) {
      var i :| 0 <= i < |b| && b[i] == k;
      assert all[|a| + i] == k;
    }
    if Occurs(all, k) {
      var i :| 0 <= i < |all| && all[i] == k;
      assert if i < |a| then a[i] == k else b[i - |a|] == k;
    }
  }

  /** The keys of `extra`'s slots that `base` does not have, in order. */
  ghost function NewSlots<K(!new)>(base: seq<K>, slots: seq<K>): seq<K> {
    if slots == [] then []
    else
      NewSlots(base, slots[..|slots| - 1])
      + if Occurs(base, slots[|slots| - 1]) then [] else [slots[|slots| - 1]]
  }

  /** One more field: a new key gets the next slot. */
  lemma SlotsSnoc<K(!new)>(keys: seq<K>, last: K)
    ensures Slots(keys + [last]) == if Occurs(keys, last) then Slots(keys) else Slots(keys) + [last]
  {
    assert (keys + [last])[..|keys|] == keys;
    assert last in Slots(keys) <==> Occurs(keys, last);
  }

  lemma NewSlotsSnoc<K(!new)>(base: seq<K>, slots: seq<K>, last: K)
    ensures NewSlots(base, slots + [last])
         == NewSlots(base, slots) + if Occurs(base, last) then [] else [last]
  {
    assert (slots + [last])[..|slots|] == slots;
  }

  /** Extending keeps the base's slots in place and appends the extra spec's new ones. */
  lemma {:induction false} SlotsOfExtended<K(!new)>(base: seq<K>, extra: seq<K>)
    ensures Slots(base + extra) == Slots(base) + NewSlots(base, Slots(extra))
  {
    hide Slots, NewSlots, Occurs;
    if extra == [] {
      assert base + extra == base;
      NoSlots(base);
    } else {
      var init, last := extra[..|extra| - 1], extra[|extra| - 1];
      SlotsOfExtended(base, init);
      assert extra == init + [last] && base + extra == (base + init) + [last];
      SlotsSnoc(base + init, last);
      SlotsSnoc(init, last);
      OccursConcat(base, init, last);
      NewSlotsSnoc(base, Slots(init), last);
    }
  }

  lemma NoSlots<K(!new)>(base: seq<K>)
    ensures Slots<K>([]) == [] && NewSlots(base, []) == []
  {
  }

  lemma NotInTail<K(!new)>(base: seq<K>, extra: seq<K>, w: nat)
    requires w < |base + extra|
    ensures Occurs(extra, (base + extra)[w]) || w < |base|
  {
    if w >= |base| {
      assert extra[w - |base|] == (base + extra)[w];
    }
  }

  /** Override composition: in an extended spec every key is decided by the extra spec's last
    definition if it has one, and by the base's last otherwise; indices past the base name extra
    fields. */
  lemma ExtendedField<K(!new)>(base: seq<K>, extra: seq<K>, key: K)
    requires Occurs(base + extra, key)
    ensures if Occurs(extra, key) then LastIndex(base + extra, key) == |base| + LastIndex(extra, key)
            else Occurs(base, key) && LastIndex(base + extra, key) == LastIndex(base, key)
  {
    OccursConcat(base, extra, key);
    var all := base + extra;
    var w := LastIndex(all, key);
    if Occurs(extra, key) {
      var e := LastIndex(extra, key);
      assert all[|base| + e] == key;
      assert w >= |base| + e;
      assert extra[w - |base|] == key;
    } else {
      NotInTail(base, extra, w);
      var b := LastIndex(base, key);
      assert all[b] == key && base[w] == key;
    }
  }

  /** The whole walk over an extended spec: the base's effective sequence with every redefined key
    replaced in its slot, then the extra's effective sequence restricted to new keys. */
  lemma ExtendedWalk<K(!new)>(base: seq<K>, extra: seq<K>, i: nat)
    requires i < |Slots(base + extra)|
    ensures |Slots(base + extra)| == |Slots(base)| + |NewSlots(base, Slots(extra))|
    ensures |Effective(base + extra)| == |Slots(base + extra)|
    ensures var key, n := Slots(base + extra)[i], |Slots(base)|;
      && key == (if i < n then Slots(base)[i] else NewSlots(base, Slots(extra))[i - n])
      && (Occurs(extra, key) ==> Effective(base + extra)[i] == |base| + LastIndex(extra, key))
      && (!Occurs(extra, key) ==>
            Occurs(base, key) && Effective(base + extra)[i] == LastIndex(base, key))
  {
    SlotsOfExtended(base, extra);
    var key := Slots(base + extra)[i];
    assert key in Slots(base + extra);
    ExtendedField(base, extra, key);
  }
}
