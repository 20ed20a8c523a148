/** Re-shaping an overlay never changes what a reader sees, and the canonical
    shape is one that a reader addressing by position renders the same. */
module OverlayLaws {
  import opened Json
  import opened Options
  import opened Addressing
  import opened Overlay

  lemma {:induction false} MergeNothing(s: Json, o: Json)
    requires o.Nullish()
    ensures Merge(s, o) == s
  {
  }

  // ---- Stamping -------------------------------------------------------------

  /** The source entry an overlay entry of an id-addressable array belongs to, if any. */
  function Owner(s: seq<Json>, o: seq<Json>, i: nat): (w: Json)
    requires IdAddressable(s) && i < |o|
    ensures w.Undefined? || (w in s && HasId(w))
  {
    if HasIds(o) then if HasId(o[i]) then FindById(s, IdOf(o[i])) else Undefined
    else At(s, i)
  }

  lemma StampEntryByOwner(s: seq<Json>, o: seq<Json>, i: nat)
    requires IdAddressable(s) && i < |o|
    ensures var w := Owner(s, o, i);
      StampEntry(s, o, i) == if w.Undefined? || !o[i].Obj? then o[i] else WithId(Stamp(w, o[i]), IdOf(w))
  {
  }

  /** Ids of a stamped entry: kept when the array was id-keyed, else the source's own. */
  lemma StampEntryId(s: seq<Json>, o: seq<Json>, i: nat)
    requires IdAddressable(s) && i < |o|
    ensures HasIds(o) ==> EntryId(StampEntry(s, o, i)) == EntryId(o[i])
    ensures !HasIds(o) ==>
      EntryId(StampEntry(s, o, i)) == if i < |s| && o[i].Obj? then EntryId(s[i]) else None
  {
    assert !HasIds(o) ==> !HasId(o[i]);
  }

  function StampItems(s: seq<Json>, o: seq<Json>): (r: seq<Json>)
    ensures |r| == |o|
  {
    seq(|o|, i requires 0 <= i < |o| => StampEntry(s, o, i))
  }

  /** What the merger finds for a source entry after stamping is what it found before, stamped. */
  lemma SlotOfStamped(s: seq<Json>, o: seq<Json>, i: nat)
    requires IdAddressable(s) && i < |s|
    ensures var x, y := Slot(s, o, i), Slot(s, StampItems(s, o), i);
      if x.Obj? then y == WithId(Stamp(s[i], x), IdOf(s[i])) else y.Undefined? || y == x
  {
    var o' := StampItems(s, o);
    var id := IdOf(s[i]);
    forall j | 0 <= j < |o| { StampEntryId(s, o, j); }
    FindSelf(s, i);
    if HasIds(o) {
      SameIds(o, o', id);
    } else if i < |o| && o[i].Obj? {
      assert EntryId(o'[i]) == Some(id);
      assert forall j :: 0 <= j < i ==> EntryId(o'[j]) != Some(id);
      assert IndexOf(o', id) == i;
    } else {
      assert forall j :: 0 <= j < |o'| ==> EntryId(o'[j]) != Some(id);
      if i < |o| { StampEntryByOwner(s, o, i); }
    }
  }

  lemma {:induction false} MergeIgnoresId(s: Json, o: Json, id: string)
    requires HasId(s)
    ensures Merge(s, WithId(o, id)) == Merge(s, o)
  {
  }

  lemma {:induction false} StampPreservesRendering(s: Json, o: Json)
    ensures Merge(s, Stamp(s, o)) == Merge(s, o)
    decreases s
  {
    if o.Nullish() {
    } else if s.Arr? && o.Arr? {
      var o' := StampItems(s.items, o.items);
      assert Stamp(s, o) == Arr(o');
      forall i | 0 <= i < |s.items|
        ensures Merge(s.items[i], Slot(s.items, o', i)) == Merge(s.items[i], Slot(s.items, o.items, i))
      {
        var x := Slot(s.items, o.items, i);
        if IdAddressable(s.items) {
          SlotOfStamped(s.items, o.items, i);
          if x.Obj? {
            MergeIgnoresId(s.items[i], Stamp(s.items[i], x), IdOf(s.items[i]));
            StampPreservesRendering(s.items[i], x);
          }
        } else {
          StampPreservesRendering(s.items[i], x);
        }
      }
    } else if s.Obj? && o.Obj? {
      forall k | k in s.fields
        ensures Merge(s.fields[k], Get(Stamp(s, o).fields, k)) == Merge(s.fields[k], Get(o.fields, k))
      {
        StampPreservesRendering(s.fields[k], Get(o.fields, k));
      }
    }
  }

  lemma {:induction false} StampWithId(s: Json, o: Json, id: string)
    requires HasId(s)
    ensures Stamp(s, WithId(o, id)) == WithId(Stamp(s, o), id)
  {
    if o.Obj? {
      assert Stamp(s, WithId(o, id)).fields == WithId(Stamp(s, o), id).fields;
    }
  }

  lemma {:induction false} StampIdempotent(s: Json, o: Json)
    ensures Stamp(s, Stamp(s, o)) == Stamp(s, o)
    decreases o, 0
  {
    if o.Nullish() {
    } else if s.Arr? && o.Arr? {
      var o' := StampItems(s.items, o.items);
      forall i | 0 <= i < |o'| ensures StampEntry(s.items, o', i) == o'[i] {
        StampEntryIdempotent(s.items, o.items, i);
      }
      assert Stamp(s, Arr(o')) == Arr(StampItems(s.items, o'));
    } else if s.Obj? && o.Obj? {
      forall k | k in o.fields && k in s.fields
        ensures Stamp(s.fields[k], Stamp(s, o).fields[k]) == Stamp(s, o).fields[k]
      {
        StampIdempotent(s.fields[k], o.fields[k]);
      }
    }
  }

  lemma OwnerOfStamped(s: seq<Json>, o: seq<Json>, i: nat)
    requires IdAddressable(s) && i < |o| && o[i].Obj?
    ensures Owner(s, StampItems(s, o), i) == Owner(s, o, i)
  {
    var o' := StampItems(s, o);
    forall j | 0 <= j < |o| { StampEntryId(s, o, j); }
    if HasIds(o) {
      SameIds(o, o', "");
    } else if i < |s| {
      assert EntryId(o'[i]) == EntryId(s[i]);
      FindSelf(s, i);
    }
  }

  lemma {:induction false} StampEntryIdempotent(s: seq<Json>, o: seq<Json>, i: nat)
    requires i < |o|
    ensures StampEntry(s, StampItems(s, o), i) == StampItems(s, o)[i]
    decreases o[i], 1
  {
    var o' := StampItems(s, o);
    if !IdAddressable(s) {
      StampIdempotent(At(s, i), o[i]);
    } else {
      StampEntryByOwner(s, o, i);
      StampEntryByOwner(s, o', i);
      if o[i].Obj? {
        OwnerOfStamped(s, o, i);
        var w := Owner(s, o, i);
        if !w.Undefined? {
          StampIdempotent(w, o[i]);
          StampWithId(w, Stamp(w, o[i]), IdOf(w));
        }
      }
    }
  }

  // ---- Alignment ------------------------------------------------------------

  /** Every overlay array over an id-addressable array is either free of ids or has
      each of its entries, if any, at its source entry's own position. */
  ghost predicate Aligned(s: Json, a: Json)
    decreases a
  {
    match (s, a)
    case (Arr(ss), Arr(aa)) =>
      && (IdAddressable(ss) && HasIds(aa) ==> InPlace(ss, aa))
      && (forall i :: 0 <= i < |aa| && i < |ss| ==> Aligned(ss[i], aa[i]))
    case (Obj(ss), Obj(aa)) => forall k :: k in aa && k in ss ==> Aligned(ss[k], aa[k])
    case _ => true
  }

  ghost predicate InPlace(s: seq<Json>, a: seq<Json>) {
    && |a| <= |s|
    && (forall i :: 0 <= i < |a| ==> a[i].Nullish() || (HasId(a[i]) && EntryId(a[i]) == EntryId(s[i])))
  }

  /** In place, both ways of addressing find the same entry. */
  lemma SlotInPlace(s: seq<Json>, a: seq<Json>, i: nat)
    requires IdAddressable(s) && HasIds(a) && InPlace(s, a) && i < |s|
    ensures Slot(s, a, i) == At(a, i) || (Slot(s, a, i).Nullish() && At(a, i).Nullish())
  {
    var id := IdOf(s[i]);
    assert forall j :: 0 <= j < |a| && j != i ==> EntryId(a[j]) != Some(id);
    if i < |a| && HasId(a[i]) {
      assert EntryId(a[i]) == Some(id);
      assert IndexOf(a, id) == i;
    }
  }

  /** On an aligned overlay a reader that addresses by position sees what the id-aware one sees. */
  lemma {:induction false} AlignedRendersByPosition(s: Json, a: Json)
    requires Aligned(s, a)
    ensures MergeByPosition(s, a) == Merge(s, a)
    decreases s
  {
    if s.Arr? && a.Arr? {
      forall i | 0 <= i < |s.items|
        ensures MergeByPosition(s.items[i], At(a.items, i)) == Merge(s.items[i], Slot(s.items, a.items, i))
      {
        AlignedRendersByPosition(s.items[i], At(a.items, i));
        if IdAddressable(s.items) && HasIds(a.items) { SlotInPlace(s.items, a.items, i); }
      }
    } else if s.Obj? && a.Obj? {
      forall k | k in s.fields
        ensures MergeByPosition(s.fields[k], Get(a.fields, k)) == Merge(s.fields[k], Get(a.fields, k))
      {
        AlignedRendersByPosition(s.fields[k], Get(a.fields, k));
      }
    }
  }

  lemma {:induction false} AlignKeepsId(s: Json, o: Json)
    requires HasId(s)
    ensures EntryId(Align(s, o)) == EntryId(o)
    ensures !o.Obj? ==> Align(s, o) == o
  {
  }

  function AlignItems(s: seq<Json>, o: seq<Json>): seq<Json> {
    Align(Arr(s), Arr(o)).items
  }

  lemma AlignItemsIds(s: seq<Json>, o: seq<Json>)
    requires IdAddressable(s)
    ensures var a := AlignItems(s, o);
      if HasIds(o) then |a| == |s| && InPlace(s, a) else !HasIds(a)
  {
    var a := AlignItems(s, o);
    if HasIds(o) {
      forall i | 0 <= i < |s| ensures a[i].Nullish() || (HasId(a[i]) && EntryId(a[i]) == EntryId(s[i])) {
        AlignKeepsId(s[i], FindById(o, IdOf(s[i])));
      }
    } else {
      forall i | 0 <= i < |a| ensures !HasId(a[i]) {
        assert a[i] == Align(At(s, i), o[i]) && !HasId(o[i]);
        if i < |s| { AlignKeepsId(s[i], o[i]); }
      }
    }
  }

  lemma {:induction false} AlignIsAligned(s: Json, o: Json)
    ensures Aligned(s, Align(s, o))
    decreases o
  {
    if o.Nullish() {
    } else if s.Arr? && o.Arr? {
      var a := AlignItems(s.items, o.items);
      assert Align(s, o) == Arr(a);
      if IdAddressable(s.items) { AlignItemsIds(s.items, o.items); }
      forall i | 0 <= i < |a| && i < |s.items| ensures Aligned(s.items[i], a[i]) {
        if IdAddressable(s.items) && HasIds(o.items) {
          var e := FindById(o.items, IdOf(s.items[i]));
          if !e.Undefined? { AlignIsAligned(s.items[i], e); }
        } else {
          AlignIsAligned(s.items[i], o.items[i]);
        }
      }
    } else if s.Obj? && o.Obj? {
      forall k | k in o.fields && k in s.fields ensures Aligned(s.fields[k], Align(s, o).fields[k]) {
        AlignIsAligned(s.fields[k], o.fields[k]);
      }
    }
  }

  lemma {:induction false} AlignPreservesRendering(s: Json, o: Json)
    ensures Merge(s, Align(s, o)) == Merge(s, o)
    decreases s
  {
    if o.Nullish() {
    } else if s.Arr? && o.Arr? {
      var a := AlignItems(s.items, o.items);
      assert Align(s, o) == Arr(a);
      forall i | 0 <= i < |s.items|
        ensures Merge(s.items[i], Slot(s.items, a, i)) == Merge(s.items[i], Slot(s.items, o.items, i))
      {
        if IdAddressable(s.items) {
          AlignItemsIds(s.items, o.items);
          if HasIds(a) { SlotInPlace(s.items, a, i); }
        }
        AlignPreservesRendering(s.items[i], Slot(s.items, o.items, i));
      }
    } else if s.Obj? && o.Obj? {
      forall k | k in s.fields
        ensures Merge(s.fields[k], Get(Align(s, o).fields, k)) == Merge(s.fields[k], Get(o.fields, k))
      {
        AlignPreservesRendering(s.fields[k], Get(o.fields, k));
      }
    }
  }

  lemma AlignFixesInPlace(s: seq<Json>, a: seq<Json>)
    requires IdAddressable(s) && |a| == |s| && InPlace(s, a)
    requires forall i :: 0 <= i < |a| ==> a[i] == Null || (HasId(a[i]) && Align(s[i], a[i]) == a[i])
    ensures AlignItems(s, a) == a
  {
    forall i | 0 <= i < |a| ensures AlignItems(s, a)[i] == a[i] {
      if HasIds(a) {
        SlotInPlace(s, a, i);
        var e := FindById(a, IdOf(s[i]));
        assert Align(Arr(s), Arr(a)).items[i] == if e.Undefined? then Null else Align(s[i], e);
        assert a[i].Null? ==> e.Undefined?;
      } else {
        assert !HasId(a[i]);
        assert Align(Arr(s), Arr(a)).items[i] == Align(At(s, i), a[i]);
      }
    }
  }

  lemma {:induction false} AlignIdempotent(s: Json, o: Json)
    ensures Align(s, Align(s, o)) == Align(s, o)
    decreases o
  {
    if o.Nullish() {
    } else if s.Arr? && o.Arr? {
      var a := AlignItems(s.items, o.items);
      assert Align(s, o) == Arr(a);
      if IdAddressable(s.items) { AlignItemsIds(s.items, o.items); }
      if IdAddressable(s.items) && HasIds(o.items) {
        forall i | 0 <= i < |s.items|
          ensures a[i] == Null || (HasId(a[i]) && Align(s.items[i], a[i]) == a[i])
        {
          var e := FindById(o.items, IdOf(s.items[i]));
          if !e.Undefined? { AlignIdempotent(s.items[i], e); AlignKeepsId(s.items[i], e); }
        }
        AlignFixesInPlace(s.items, a);
      } else {
        forall i | 0 <= i < |a| ensures Align(At(s.items, i), a[i]) == a[i] {
          AlignIdempotent(At(s.items, i), o.items[i]);
        }
      }
      assert AlignItems(s.items, a) == a;
    } else if s.Obj? && o.Obj? {
      forall k | k in o.fields && k in s.fields
        ensures Align(s.fields[k], Align(s, o).fields[k]) == Align(s, o).fields[k]
      {
        AlignIdempotent(s.fields[k], o.fields[k]);
      }
    }
  }

  /** Aligning an overlay that is already stamped leaves it stamped. */
  lemma {:induction false} AlignKeepsStamped(s: Json, o: Json)
    requires Stamp(s, o) == o
    ensures Stamp(s, Align(s, o)) == Align(s, o)
    decreases o
  {
    if o.Nullish() {
    } else if s.Arr? && o.Arr? {
      var ss, oo := s.items, o.items;
      var a := AlignItems(ss, oo);
      assert Align(s, o) == Arr(a);
      assert StampItems(ss, oo) == oo;
      forall i | 0 <= i < |a| ensures StampEntry(ss, a, i) == a[i] {
        AlignedEntryStaysStamped(ss, oo, i);
      }
      assert StampItems(ss, a) == a;
    } else if s.Obj? && o.Obj? {
      forall k | k in o.fields && k in s.fields
        ensures Stamp(s.fields[k], Align(s, o).fields[k]) == Align(s, o).fields[k]
      {
        assert Stamp(s, o).fields[k] == o.fields[k];
        AlignKeepsStamped(s.fields[k], o.fields[k]);
      }
    }
  }

  lemma AlignedEntryStaysStamped(s: seq<Json>, o: seq<Json>, i: nat)
    requires StampItems(s, o) == o && i < |AlignItems(s, o)|
    ensures StampEntry(s, AlignItems(s, o), i) == AlignItems(s, o)[i]
    decreases Arr(o), 1
  {
    if !IdAddressable(s) {
      assert StampItems(s, o)[i] == o[i];
      AlignKeepsStamped(At(s, i), o[i]);
    } else if HasIds(o) {
      FoundEntryStaysStamped(s, o, i);
    } else {
      AlignItemsIds(s, o);
      StampEntryByOwner(s, AlignItems(s, o), i);
      assert StampItems(s, o)[i] == o[i] && !HasId(o[i]);
      StampEntryByOwner(s, o, i);
      if i < |s| { AlignKeepsId(s[i], o[i]); }
    }
  }

  lemma FoundEntryStaysStamped(s: seq<Json>, o: seq<Json>, i: nat)
    requires StampItems(s, o) == o && i < |AlignItems(s, o)| && IdAddressable(s) && HasIds(o)
    ensures StampEntry(s, AlignItems(s, o), i) == AlignItems(s, o)[i]
    decreases Arr(o), 0
  {
    var a := AlignItems(s, o);
    AlignItemsIds(s, o);
    StampEntryByOwner(s, a, i);
    FindSelf(s, i);
    var e := FindById(o, IdOf(s[i]));
    if !e.Undefined? {
      EntryIsStamped(s, o, i);
      AlignKeepsStamped(s[i], e);
      AlignKeepsId(s[i], e);
      assert HasId(a[i]) && Owner(s, a, i) == s[i];
      hide Stamp, StampEntry, Align, Owner, FindById;
    }
  }

  /** In a stamped, id-keyed array the entry found for a source entry is itself stamped. */
  lemma EntryIsStamped(s: seq<Json>, o: seq<Json>, i: nat)
    requires IdAddressable(s) && HasIds(o) && StampItems(s, o) == o && i < |s|
    ensures var e := FindById(o, IdOf(s[i])); Stamp(s[i], e) == e
  {
    var j := IndexOf(o, IdOf(s[i]));
    if j < |o| {
      FindSelf(s, i);
      StampEntryByOwner(s, o, j);
      assert StampItems(s, o)[j] == o[j];
      StampWithId(s[i], o[j], IdOf(s[i]));
    }
  }

  // ---- The canonical form ---------------------------------------------------

  lemma CanonicalPreservesRendering(s: Json, o: Json)
    ensures Merge(s, Canonicalize(s, o)) == Merge(s, o)
  {
    AlignPreservesRendering(s, Stamp(s, o));
    StampPreservesRendering(s, o);
  }

  lemma CanonicalRendersByPosition(s: Json, o: Json)
    ensures Aligned(s, Canonicalize(s, o))
    ensures MergeByPosition(s, Canonicalize(s, o)) == Merge(s, o)
  {
    AlignIsAligned(s, Stamp(s, o));
    AlignedRendersByPosition(s, Canonicalize(s, o));
    CanonicalPreservesRendering(s, o);
  }

  lemma CanonicalIsNormalForm(s: Json, o: Json)
    ensures var c := Canonicalize(s, o);
      && Stamp(s, c) == c && Align(s, c) == c && Canonicalize(s, c) == c
    ensures Canonicalize(s, Stamp(s, o)) == Canonicalize(s, o)
  {
    StampIdempotent(s, o);
    AlignKeepsStamped(s, Stamp(s, o));
    AlignIdempotent(s, Stamp(s, o));
  }
}
