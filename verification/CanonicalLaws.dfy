/** One canonical form for one set of translations, however they are addressed. */
module CanonicalLaws {
  import opened Json
  import opened Options
  import opened Addressing
  import opened Overlay
  import opened OverlayLaws

  /** An overlay array that stamping keys by id: it has ids, or an object in a source entry's place. */
  ghost predicate Keyable(s: seq<Json>, o: seq<Json>) {
    HasIds(o) || exists i :: 0 <= i < |o| && i < |s| && o[i].Obj?
  }

  ghost predicate Keyed(s: seq<Json>, o: seq<Json>) {
    IdAddressable(s) && Keyable(s, o)
  }

  /** A keyed array in which no source entry finds anything, against one that says `null` of each. */
  ghost predicate BothSilent(s: seq<Json>, keyed: seq<Json>, o: seq<Json>) {
    && (forall i :: 0 <= i < |s| ==> !Slot(s, keyed, i).Obj?)
    && |o| == |s| && forall i :: 0 <= i < |o| ==> o[i] == Null
  }

  /** Two overlays say the same of the source: over every id-addressable array the entries that
      the merger finds agree but for their ids, and everything else is equal. */
  ghost predicate SameContent(s: Json, o: Json, q: Json)
    decreases s, 2
  {
    || o == q
    || (match (s, o, q)
        case (Arr(ss), Arr(oo), Arr(qq)) => SameItems(ss, oo, qq)
        case (Obj(ss), Obj(oo), Obj(qq)) =>
          && oo.Keys == qq.Keys
          && forall k :: k in oo ==> if k in ss then SameContent(ss[k], oo[k], qq[k]) else oo[k] == qq[k]
        case _ => false)
  }

  ghost predicate SameItems(s: seq<Json>, o: seq<Json>, q: seq<Json>)
    decreases Arr(s), 1
  {
    if Keyed(s, o) && Keyed(s, q) then forall i :: 0 <= i < |s| ==> SameEntry(s[i], Slot(s, o, i), Slot(s, q, i))
    else if Keyed(s, o) then BothSilent(s, o, q)
    else if Keyed(s, q) then BothSilent(s, q, o)
    else
      && |o| == |q|
      && forall i :: 0 <= i < |o| ==> if i < |s| then SameContent(s[i], o[i], q[i]) else o[i] == q[i]
  }

  /** Neither says anything, or both say the same but for their ids. */
  ghost predicate SameEntry(s: Json, x: Json, y: Json)
    decreases s, 0
  {
    if s.Obj? && x.Obj? && y.Obj? then
      && x.fields.Keys - {ID} == y.fields.Keys - {ID}
      && forall k :: k in x.fields && k in y.fields && k != ID ==>
        if k in s.fields then SameContent(s.fields[k], x.fields[k], y.fields[k]) else x.fields[k] == y.fields[k]
    else !x.Obj? && !y.Obj?
  }

  lemma {:induction false} AlignWithId(s: Json, w: Json, id: string)
    requires HasId(s) && w.Obj?
    ensures Align(s, WithId(w, id)) == WithId(Align(s, w), id)
  {
    assert Align(s, WithId(w, id)).fields == WithId(Align(s, w), id).fields;
  }

  lemma KeyableIsKeyed(s: seq<Json>, o: seq<Json>)
    requires IdAddressable(s)
    ensures HasIds(StampItems(s, o)) <==> Keyable(s, o)
  {
    var o' := StampItems(s, o);
    forall i | 0 <= i < |o| { StampEntryId(s, o, i); }
    if i :| 0 <= i < |o| && HasId(o[i]) { assert HasId(o'[i]); }
    if i :| 0 <= i < |o| && i < |s| && o[i].Obj? { assert !HasIds(o) ==> HasId(o'[i]); }
  }

  function CanonicalItems(s: seq<Json>, o: seq<Json>): seq<Json> {
    Align(Arr(s), Arr(StampItems(s, o))).items
  }

  lemma CanonicalArray(s: seq<Json>, o: seq<Json>)
    ensures Canonicalize(Arr(s), Arr(o)) == Arr(CanonicalItems(s, o))
  {
    assert Stamp(Arr(s), Arr(o)).items == StampItems(s, o);
  }

  /** A keyed array in canonical form: in each slot the entry found for it, canonical and under
      the source entry's id. */
  lemma CanonicalSlot(s: seq<Json>, o: seq<Json>, i: nat)
    requires Keyed(s, o) && i < |s|
    ensures var x := Slot(s, o, i);
      |CanonicalItems(s, o)| == |s| &&
      CanonicalItems(s, o)[i] == if x.Obj? then WithId(Canonicalize(s[i], x), IdOf(s[i])) else Null
  {
    var o', x := StampItems(s, o), Slot(s, o, i);
    KeyableIsKeyed(s, o);
    SlotOfStamped(s, o, i);
    var e := FindById(o', IdOf(s[i]));
    assert e == Slot(s, o', i) && (e.Undefined? || e.Obj?);
    if x.Obj? { AlignWithId(s[i], Stamp(s[i], x), IdOf(s[i])); }
  }

  lemma CanonicalPlace(s: seq<Json>, o: seq<Json>, i: nat)
    requires !Keyed(s, o) && i < |o|
    ensures |CanonicalItems(s, o)| == |o| && CanonicalItems(s, o)[i] == Canonicalize(At(s, i), o[i])
  {
    if IdAddressable(s) {
      KeyableIsKeyed(s, o);
      StampEntryByOwner(s, o, i);
    }
  }

  lemma CanonicalLength(s: seq<Json>, o: seq<Json>)
    ensures |CanonicalItems(s, o)| == if Keyed(s, o) then |s| else |o|
  {
    if Keyed(s, o) {
      CanonicalSlot(s, o, 0);
    } else if o != [] {
      CanonicalPlace(s, o, 0);
    } else {
      KeylessStaysEmpty(s);
    }
  }

  lemma KeylessStaysEmpty(s: seq<Json>)
    ensures CanonicalItems(s, []) == []
  {
    assert !HasIds([]) && StampItems(s, []) == [];
  }

  lemma CanonicalField(s: map<string, Json>, o: map<string, Json>, k: string)
    requires k in o
    ensures var c := Canonicalize(Obj(s), Obj(o));
      && c.Obj? && c.fields.Keys == o.Keys
      && c.fields[k] == if k in s then Canonicalize(s[k], o[k]) else o[k]
  {
  }

  lemma CanonicalKeys(s: map<string, Json>, o: map<string, Json>)
    ensures Canonicalize(Obj(s), Obj(o)).Obj? && Canonicalize(Obj(s), Obj(o)).fields.Keys == o.Keys
  {
  }

  /** What is no array over an array and no object over an object is in canonical form. */
  lemma CanonicalLeaf(s: Json, o: Json)
    requires !(s.Arr? && o.Arr?) && !(s.Obj? && o.Obj?)
    ensures Canonicalize(s, o) == o
  {
  }

  /** Overlays have one canonical form if and only if they say the same of the source. */
  lemma {:induction false} CanonicalByContent(s: Json, o: Json, q: Json)
    ensures Canonicalize(s, o) == Canonicalize(s, q) <==> SameContent(s, o, q)
    decreases s, 2
  {
    if o == q {
    } else if s.Arr? && o.Arr? && q.Arr? {
      ItemsByContent(s.items, o.items, q.items);
      CanonicalArray(s.items, o.items);
      CanonicalArray(s.items, q.items);
    } else if s.Obj? && o.Obj? && q.Obj? {
      var ss, oo, qq := s.fields, o.fields, q.fields;
      forall k | k in ss && k in oo && k in qq
        ensures Canonicalize(ss[k], oo[k]) == Canonicalize(ss[k], qq[k]) <==> SameContent(ss[k], oo[k], qq[k])
      {
        CanonicalByContent(ss[k], oo[k], qq[k]);
      }
      FieldsByContent(ss, oo, qq);
    } else {
      KindsDiffer(s, o, q);
    }
  }

  lemma KindsDiffer(s: Json, o: Json, q: Json)
    requires o != q && !(s.Arr? && o.Arr? && q.Arr?) && !(s.Obj? && o.Obj? && q.Obj?)
    ensures Canonicalize(s, o) != Canonicalize(s, q) && !SameContent(s, o, q)
  {
    CanonicalKind(s, o);
    CanonicalKind(s, q);
    if !(s.Arr? && o.Arr?) && !(s.Obj? && o.Obj?) { CanonicalLeaf(s, o); }
    if !(s.Arr? && q.Arr?) && !(s.Obj? && q.Obj?) { CanonicalLeaf(s, q); }
    hide Canonicalize;
  }

  lemma CanonicalKind(s: Json, o: Json)
    ensures Canonicalize(s, o).Arr? == o.Arr? && Canonicalize(s, o).Obj? == o.Obj?
  {
  }

  lemma FieldsByContent(s: map<string, Json>, o: map<string, Json>, q: map<string, Json>)
    requires o != q
    requires forall k :: k in s && k in o && k in q ==>
      (Canonicalize(s[k], o[k]) == Canonicalize(s[k], q[k]) <==> SameContent(s[k], o[k], q[k]))
    ensures Canonicalize(Obj(s), Obj(o)) == Canonicalize(Obj(s), Obj(q)) <==> SameContent(Obj(s), Obj(o), Obj(q))
  {
    var c, d := Canonicalize(Obj(s), Obj(o)), Canonicalize(Obj(s), Obj(q));
    CanonicalKeys(s, o);
    CanonicalKeys(s, q);
    forall k | k in o { CanonicalField(s, o, k); }
    forall k | k in q { CanonicalField(s, q, k); }
    hide Canonicalize;
    if c == d {
      forall k | k in o ensures k in q && if k in s then SameContent(s[k], o[k], q[k]) else o[k] == q[k] {
        assert c.fields[k] == d.fields[k];
      }
    }
    if SameContent(Obj(s), Obj(o), Obj(q)) { assert c.fields == d.fields; }
  }

  lemma {:induction false} ItemsByContent(s: seq<Json>, o: seq<Json>, q: seq<Json>)
    ensures CanonicalItems(s, o) == CanonicalItems(s, q) <==> SameItems(s, o, q)
    decreases Arr(s), 1
  {
    if Keyed(s, o) && Keyed(s, q) {
      SlotsByContent(s, o, q);
    } else if Keyed(s, o) {
      SilentExactly(s, o, q);
    } else if Keyed(s, q) {
      SilentExactly(s, q, o);
    } else {
      PlacesByContent(s, o, q);
    }
  }

  lemma {:induction false} SlotsByContent(s: seq<Json>, o: seq<Json>, q: seq<Json>)
    requires Keyed(s, o) && Keyed(s, q)
    ensures CanonicalItems(s, o) == CanonicalItems(s, q) <==> SameItems(s, o, q)
    decreases Arr(s), 0
  {
    CanonicalLength(s, o);
    CanonicalLength(s, q);
    forall i | 0 <= i < |s|
      ensures CanonicalItems(s, o)[i] == CanonicalItems(s, q)[i] <==> SameEntry(s[i], Slot(s, o, i), Slot(s, q, i))
    {
      EntryByContent(s[i], Slot(s, o, i), Slot(s, q, i));
      CanonicalSlot(s, o, i);
      CanonicalSlot(s, q, i);
      hide CanonicalItems, Slot, SameEntry, Keyable;
    }
    SameWhereAlike(s, o, q);
  }

  lemma SameWhereAlike(s: seq<Json>, o: seq<Json>, q: seq<Json>)
    requires Keyed(s, o) && Keyed(s, q) && |CanonicalItems(s, o)| == |CanonicalItems(s, q)| == |s|
    requires forall i :: 0 <= i < |s| ==>
      (CanonicalItems(s, o)[i] == CanonicalItems(s, q)[i] <==> SameEntry(s[i], Slot(s, o, i), Slot(s, q, i)))
    ensures CanonicalItems(s, o) == CanonicalItems(s, q) <==> SameItems(s, o, q)
  {
    hide CanonicalItems, Slot, Keyed, SameEntry;
    var c, d := CanonicalItems(s, o), CanonicalItems(s, q);
    if c == d {
      forall i | 0 <= i < |s| ensures SameEntry(s[i], Slot(s, o, i), Slot(s, q, i)) {
        assert c[i] == d[i];
      }
    }
  }

  lemma SilentExactly(s: seq<Json>, o: seq<Json>, q: seq<Json>)
    requires Keyed(s, o) && !Keyed(s, q)
    ensures CanonicalItems(s, o) == CanonicalItems(s, q) <==> BothSilent(s, o, q)
  {
    var c, d := CanonicalItems(s, o), CanonicalItems(s, q);
    CanonicalLength(s, o);
    CanonicalLength(s, q);
    forall i | 0 <= i < |s| ensures c[i] == if Slot(s, o, i).Obj? then c[i] else Null {
      CanonicalSlot(s, o, i);
    }
    forall i | 0 <= i < |s| ensures Slot(s, o, i).Obj? ==> c[i].Obj? {
      CanonicalSlot(s, o, i);
    }
    forall i | 0 <= i < |q| && i < |s| ensures d[i] == q[i] && !q[i].Obj? {
      CanonicalPlace(s, q, i);
      CanonicalLeaf(s[i], q[i]);
    }
    hide CanonicalItems, Slot, Keyed;
    if c == d {
      forall i | 0 <= i < |s| ensures !Slot(s, o, i).Obj? && q[i] == Null {
        assert c[i] == d[i];
      }
    }
    if BothSilent(s, o, q) { assert c == d; }
  }

  lemma {:induction false} PlacesByContent(s: seq<Json>, o: seq<Json>, q: seq<Json>)
    requires !Keyed(s, o) && !Keyed(s, q)
    ensures CanonicalItems(s, o) == CanonicalItems(s, q) <==> SameItems(s, o, q)
    decreases Arr(s), 0
  {
    var c, d := CanonicalItems(s, o), CanonicalItems(s, q);
    CanonicalLength(s, o);
    CanonicalLength(s, q);
    forall i | 0 <= i < |o| && i < |q|
      ensures c[i] == d[i] <==> if i < |s| then SameContent(s[i], o[i], q[i]) else o[i] == q[i]
    {
      CanonicalPlace(s, o, i);
      CanonicalPlace(s, q, i);
      if i < |s| {
        CanonicalByContent(s[i], o[i], q[i]);
      } else {
        CanonicalLeaf(Undefined, o[i]);
        CanonicalLeaf(Undefined, q[i]);
      }
    }
    hide CanonicalItems, Keyed, SameContent;
    if c == d {
      forall i | 0 <= i < |o| ensures if i < |s| then SameContent(s[i], o[i], q[i]) else o[i] == q[i] {
        assert c[i] == d[i];
      }
    }
    if SameItems(s, o, q) { assert c == d; }
  }

  /** What a keyed array holds in a slot. */
  function SlotForm(s: Json, x: Json): Json
    requires HasId(s)
  {
    if x.Obj? then WithId(Canonicalize(s, x), IdOf(s)) else Null
  }

  lemma {:induction false} EntryByContent(s: Json, x: Json, y: Json)
    requires HasId(s)
    ensures SlotForm(s, x) == SlotForm(s, y) <==> SameEntry(s, x, y)
    ensures x.Obj? ==> SlotForm(s, x).Obj?
    decreases s, 0
  {
    if x.Obj? { CanonicalKeys(s.fields, x.fields); }
    if y.Obj? { CanonicalKeys(s.fields, y.fields); }
    if x.Obj? && y.Obj? {
      forall k | k in x.fields && k in y.fields && k != ID
        ensures SlotForm(s, x).fields[k] == SlotForm(s, y).fields[k] <==>
          if k in s.fields then SameContent(s.fields[k], x.fields[k], y.fields[k]) else x.fields[k] == y.fields[k]
      {
        CanonicalField(s.fields, x.fields, k);
        CanonicalField(s.fields, y.fields, k);
        if k in s.fields { CanonicalByContent(s.fields[k], x.fields[k], y.fields[k]); }
      }
      EntryFields(s, x, y);
    }
  }

  lemma EntryFields(s: Json, x: Json, y: Json)
    requires HasId(s) && x.Obj? && y.Obj? && SlotForm(s, x).Obj? && SlotForm(s, y).Obj?
    requires SlotForm(s, x).fields.Keys == x.fields.Keys + {ID} && SlotForm(s, y).fields.Keys == y.fields.Keys + {ID}
    requires SlotForm(s, x).fields[ID] == SlotForm(s, y).fields[ID]
    requires forall k :: k in x.fields && k in y.fields && k != ID ==>
      (SlotForm(s, x).fields[k] == SlotForm(s, y).fields[k] <==>
        if k in s.fields then SameContent(s.fields[k], x.fields[k], y.fields[k]) else x.fields[k] == y.fields[k])
    ensures SlotForm(s, x) == SlotForm(s, y) <==> SameEntry(s, x, y)
  {
    var c, d := SlotForm(s, x), SlotForm(s, y);
    hide SlotForm, SameContent;
    assert x.fields.Keys - {ID} == c.fields.Keys - {ID} && y.fields.Keys - {ID} == d.fields.Keys - {ID};
    if SameEntry(s, x, y) {
      forall k | k in c.fields ensures k in d.fields && c.fields[k] == d.fields[k] {
        if k != ID { assert k in x.fields.Keys - {ID}; }
      }
      forall k | k in d.fields ensures k in c.fields {
        if k != ID { assert k in y.fields.Keys - {ID}; }
      }
      assert c.fields == d.fields;
    }
  }

  // ---- Rearranging an id-keyed overlay ---------------------------------------------------------

  /** Every entry carries an id and no id repeats: nothing is dropped and order says nothing. */
  predicate FullyKeyed(o: seq<Json>) {
    && (forall i :: 0 <= i < |o| ==> HasId(o[i]))
    && (forall i, j :: 0 <= i < j < |o| ==> EntryId(o[i]) != EntryId(o[j]))
  }

  lemma {:induction false} LookupIgnoresOrder(o: seq<Json>, q: seq<Json>, id: string)
    requires FullyKeyed(o) && FullyKeyed(q) && multiset(o) == multiset(q)
    ensures FindById(o, id) == FindById(q, id)
  {
    var i, j := IndexOf(o, id), IndexOf(q, id);
    if i < |o| {
      assert o[i] in multiset(q);
      var n :| 0 <= n < |q| && q[n] == o[i];
      assert EntryId(q[n]) == Some(id);
      assert j == n;
    }
    assert j < |q| ==> q[j] in multiset(o);
  }

  /** Permuting a fully id-keyed overlay array over an id-addressable source array
      changes neither its canonical form nor what it renders. */
  lemma {:induction false} CanonicalIgnoresOverlayOrder(s: seq<Json>, o: seq<Json>, q: seq<Json>)
    requires IdAddressable(s) && FullyKeyed(o) && FullyKeyed(q) && multiset(o) == multiset(q)
    ensures Canonicalize(Arr(s), Arr(o)) == Canonicalize(Arr(s), Arr(q))
    ensures Merge(Arr(s), Arr(o)) == Merge(Arr(s), Arr(q))
  {
    assert |o| == |multiset(o)| == |multiset(q)| == |q|;
    if o != [] {
      assert HasIds(o) && HasIds(q) by { assert HasId(o[0]) && HasId(q[0]); }
      forall i | 0 <= i < |s| ensures SameEntry(s[i], Slot(s, o, i), Slot(s, q, i)) {
        LookupIgnoresOrder(o, q, IdOf(s[i]));
      }
      assert SameContent(Arr(s), Arr(o), Arr(q));
      CanonicalByContent(Arr(s), Arr(o), Arr(q));
    } else {
      assert o == q;
    }
    CanonicalPreservesRendering(Arr(s), Arr(o));
    CanonicalPreservesRendering(Arr(s), Arr(q));
  }
}
