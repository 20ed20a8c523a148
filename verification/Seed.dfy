/** The seeder: a catalog is filled from a lexicon, merged under the translations
    already on disk, and rid of everything that translates nothing. */
module Seed {
  import opened Json
  import opened Addressing
  import opened Allowlist
  import opened Overlay

  type Lexicon = map<string, string>

  // ---- From the lexicon -----------------------------------------------------

  function Hit(lex: Lexicon, text: string): Json {
    if text in lex && |lex[text]| > 0 then Str(lex[text]) else Undefined
  }

  function NullIfAbsent(v: Json): Json {
    if v.Undefined? then Null else v
  }

  /** The overlay holding every translatable text the lexicon knows; `Undefined` when there is none. */
  function SeedNode(source: Json, lex: Lexicon): Json
    decreases source, 1
  {
    match source
    case Arr(s) =>
      if forall i :: 0 <= i < |s| ==> SeedNode(s[i], lex).Undefined? then Undefined
      else Arr(seq(|s|, i requires 0 <= i < |s| => NullIfAbsent(SeedNode(s[i], lex))))
    case Obj(s) =>
      var out := map k | k in s && !SeedField(k, s[k], lex).Undefined? :: SeedField(k, s[k], lex);
      if out == map[] then Undefined else Obj(out)
    case _ => Undefined
  }

  function SeedField(k: string, v: Json, lex: Lexicon): Json
    decreases v, 2
  {
    if k in STRING_FIELDS && v.Str? then Hit(lex, v.s)
    else if k in STRING_VALUE_OBJECTS && v.Obj? then
      var inner := map ik | ik in v.fields && v.fields[ik].Str? && !Hit(lex, v.fields[ik].s).Undefined? ::
        Hit(lex, v.fields[ik].s);
      if inner == map[] then Undefined else Obj(inner)
    else if k in STRING_ARRAYS && v.Arr? then
      var inner := seq(|v.items|, i requires 0 <= i < |v.items| => SeedElement(v.items[i], lex));
      if forall i :: 0 <= i < |inner| ==> inner[i].Null? then Undefined else Arr(inner)
    else if v.Arr? || v.Obj? then SeedNode(v, lex)
    else Undefined
  }

  /** Unlike elsewhere, an empty lexicon entry is taken here; it is pruned at the end. */
  function SeedElement(v: Json, lex: Lexicon): Json {
    if v.Str? && v.s in lex then Str(lex[v.s]) else Null
  }

  // ---- Under what exists ----------------------------------------------------

  /** Whether two overlay arrays are matched by the source's ids. */
  predicate Keyed(source: Json, e: seq<Json>, f: seq<Json>) {
    source.Arr? && IdAddressable(source.items) && (HasIds(e) || HasIds(f))
  }

  function SourceItem(source: Json, i: nat): Json {
    if source.Arr? then At(source.items, i) else Undefined
  }

  function SourceField(source: Json, k: string): Json {
    if source.Obj? then Get(source.fields, k) else Undefined
  }

  /** An absent side still lets the walk go on: it counts as an empty container. */
  function Container(existing: Json, seeded: Json): Json {
    if !seeded.Nullish() then seeded
    else if existing.Arr? then Arr([])
    else if existing.Obj? then Obj(map[])
    else Undefined
  }

  /** `existing` and `seeded` merged; what exists wins. */
  function Keep(source: Json, existing: Json, seeded: Json): Json
    decreases !existing.Nullish(), existing
  {
    if existing.Nullish() then seeded
    else match (existing, Container(existing, seeded))
      case (Arr(e), Arr(f)) =>
        if Keyed(source, e, f) then
          var s := source.items;
          Arr(seq(|s|, i requires 0 <= i < |s| =>
            var kept := Keep(s[i], FindById(e, IdOf(s[i])), FindById(f, IdOf(s[i])));
            NullIfAbsent(kept)))
        else
          var n := if |e| >= |f| then |e| else |f|;
          Arr(seq(n, i requires 0 <= i < n => Keep(SourceItem(source, i), At(e, i), At(f, i))))
      case (Obj(e), Obj(f)) =>
        Obj(map k | k in e.Keys + f.Keys :: Keep(SourceField(source, k), Get(e, k), Get(f, k)))
      case _ => existing
  }

  /** How many pairs the keep-existing merge makes of two arrays. */
  function Width(source: Json, e: seq<Json>, f: seq<Json>): nat {
    if Keyed(source, e, f) then |source.items| else if |e| >= |f| then |e| else |f|
  }

  /** What one of the two arrays, `o`, has for entry `i`. */
  function Pair(source: Json, e: seq<Json>, f: seq<Json>, o: seq<Json>, i: nat): (r: Json)
    requires Keyed(source, e, f) ==> i < |source.items|
    ensures r.Undefined? || r in o
  {
    if Keyed(source, e, f) then FindById(o, IdOf(source.items[i])) else At(o, i)
  }

  // ---- The merge, one pair or one field at a time ------------------------------

  function KeptPair(s: Json, e: seq<Json>, f: seq<Json>, i: nat): Json
    requires i < Width(s, e, f)
  {
    Keep(SourceItem(s, i), Pair(s, e, f, e, i), Pair(s, e, f, f, i))
  }

  function KeptArray(s: Json, e: seq<Json>, f: seq<Json>): seq<Json> {
    Keep(s, Arr(e), Arr(f)).items
  }

  function KeptFields(s: Json, e: map<string, Json>, f: map<string, Json>): map<string, Json> {
    Keep(s, Obj(e), Obj(f)).fields
  }

  lemma {:induction false} KeptArrayItems(s: Json, e: seq<Json>, f: seq<Json>)
    ensures Keep(s, Arr(e), Arr(f)) == Arr(KeptArray(s, e, f)) && |KeptArray(s, e, f)| == Width(s, e, f)
    ensures forall i :: 0 <= i < Width(s, e, f) ==>
      KeptArray(s, e, f)[i] ==
        if Keyed(s, e, f) then NullIfAbsent(KeptPair(s, e, f, i)) else KeptPair(s, e, f, i)
  {
  }

  lemma {:induction false} KeepArr(s: Json, e: seq<Json>, f: Json)
    requires Container(Arr(e), f).Arr?
    ensures Keep(s, Arr(e), f) == Arr(KeptArray(s, e, Container(Arr(e), f).items))
  {
  }

  lemma {:induction false} KeepObj(s: Json, e: map<string, Json>, f: Json)
    requires Container(Obj(e), f).Obj?
    ensures Keep(s, Obj(e), f) == Obj(KeptFields(s, e, Container(Obj(e), f).fields))
  {
  }

  lemma {:induction false} KeptFieldAt(s: Json, e: map<string, Json>, f: map<string, Json>, n: string)
    ensures KeptFields(s, e, f).Keys == e.Keys + f.Keys
    ensures Get(KeptFields(s, e, f), n) == Keep(SourceField(s, n), Get(e, n), Get(f, n))
  {
  }

  // ---- Nothing but translations ---------------------------------------------

  /** Length of `items` without its absent tail. */
  function TrimmedLength(items: seq<Json>): (n: nat)
    ensures n <= |items|
    ensures n > 0 ==> !items[n - 1].Undefined?
    ensures forall i :: n <= i < |items| ==> items[i].Undefined?
  {
    if |items| == 0 then 0
    else if items[|items| - 1].Undefined? then TrimmedLength(items[..|items| - 1])
    else |items|
  }

  method FindTrimmedLength(items: seq<Json>) returns (n: nat)
    ensures n == TrimmedLength(items)
  {
    var last := |items| - 1;
    while last >= 0 && items[last].Undefined?
      invariant -1 <= last < |items|
      invariant TrimmedLength(items[..last + 1]) == TrimmedLength(items)
    {
      assert items[..last + 1][..last] == items[..last];
      last := last - 1;
    }
    assert items[..|items|] == items;
    n := last + 1;
  }

  function Trimmed(items: seq<Json>): Json {
    var n := TrimmedLength(items);
    if n == 0 then Undefined
    else Arr(seq(n, i requires 0 <= i < n => NullIfAbsent(items[i])))
  }

  function PruneUntranslated(node: Json): Json {
    match node
    case Str(s) => if |s| > 0 then node else Undefined
    case Arr(items) =>
      Trimmed(seq(|items|, i requires 0 <= i < |items| => PruneUntranslated(items[i])))
    case Obj(f) =>
      var kept := map k | k in f && k != ID && !PruneUntranslated(f[k]).Undefined? :: PruneUntranslated(f[k]);
      if kept == map[] then Undefined
      else if ID in f && f[ID].Str? then Obj(kept[ID := f[ID]])
      else Obj(kept)
    case _ => Undefined
  }

  // ---- The catalog written for a template -----------------------------------

  function OrEmpty(v: Json): Json {
    if v.Nullish() then Obj(map[]) else v
  }

  function Fresh(source: Json, lex: Lexicon): Json {
    Stamp(source, OrEmpty(SeedNode(source, lex)))
  }

  function SeedCatalog(source: Json, lex: Lexicon, existing: Json): Json {
    OrEmpty(PruneUntranslated(Keep(source, Stamp(source, existing), Fresh(source, lex))))
  }
}
