/** What the last step of a seeding writes of a tree, told place by place. */
module WrittenPlaces {
  import opened Json
  import opened Seed

  /** Somewhere in it, not under an id, there is text. */
  ghost predicate SaysSomething(v: Json) {
    exists p: Path :: Key(ID) !in p && Reach(v, p).Text()
  }

  /** What is written for one step is what is there, cleared; what is absent is `null` in an array. */
  lemma WrittenChild(v: Json, step: Step)
    requires step != Key(ID)
    ensures var x, y := Child(v, step), Child(PruneUntranslated(v), step);
      y == PruneUntranslated(x) || (PruneUntranslated(x).Undefined? && y.Null?)
  {
    if v.Arr? && step.Index? && step.i < |v.items| {
      var cleared := seq(|v.items|, i requires 0 <= i < |v.items| => PruneUntranslated(v.items[i]));
      assert PruneUntranslated(v) == Trimmed(cleared);
      assert step.i >= TrimmedLength(cleared) ==> cleared[step.i].Undefined?;
    } else if v.Obj? && step.Key? {
      WrittenField(v.fields, step.key);
    }
  }

  lemma WrittenField(f: map<string, Json>, k: string)
    requires k != ID
    ensures Child(PruneUntranslated(Obj(f)), Key(k)) == PruneUntranslated(Get(f, k))
  {
    var kept := map n | n in f && n != ID && !PruneUntranslated(f[n]).Undefined? :: PruneUntranslated(f[n]);
    if k in kept {
      assert kept != map[];
      assert kept[k] == PruneUntranslated(f[k]);
    }
  }

  lemma {:induction false} WrittenAt(v: Json, p: Path)
    requires Key(ID) !in p
    ensures var x, y := Reach(v, p), Reach(PruneUntranslated(v), p);
      y == PruneUntranslated(x) || (PruneUntranslated(x).Undefined? && y.Null?)
    decreases |p|
  {
    if p != [] {
      var x, y, rest := Child(v, p[0]), Child(PruneUntranslated(v), p[0]), p[1..];
      WrittenChild(v, p[0]);
      WrittenAt(x, rest);
      if y.Null? && rest != [] {
        ReachNothing(y, rest);
        ReachNothing(PruneUntranslated(x), rest);
      }
    }
  }

  lemma {:induction false} TextIsWritten(v: Json, p: Path)
    requires Key(ID) !in p && Reach(v, p).Text()
    ensures !PruneUntranslated(v).Undefined?
  {
    WrittenAt(v, p);
    if p != [] && PruneUntranslated(v).Undefined? { ReachNothing(Undefined, p); }
  }

  lemma {:induction false} WrittenSays(v: Json) returns (p: Path)
    requires !PruneUntranslated(v).Undefined?
    ensures Key(ID) !in p && Reach(v, p).Text()
    decreases v
  {
    match v
    case Str(_) => p := [];
    case Arr(items) =>
      var cleared := seq(|items|, i requires 0 <= i < |items| => PruneUntranslated(items[i]));
      assert PruneUntranslated(v) == Trimmed(cleared);
      var i := TrimmedLength(cleared) - 1;
      p := WrittenSays(items[i]);
      ReachStep(v, Index(i), p);
      p := [Index(i)] + p;
    case Obj(f) =>
      var k :| k in f && k != ID && !PruneUntranslated(f[k]).Undefined?;
      p := WrittenSays(f[k]);
      ReachStep(v, Key(k), p);
      p := [Key(k)] + p;
  }

  /** What is written of a value: text as it is, a container as one of its kind that ends in something
      written, an object with its id. */
  ghost predicate WrittenAs(x: Json, y: Json) {
    if x.Arr? then y.Arr? && 0 < |y.items| <= |x.items| && !y.items[|y.items| - 1].Nullish()
    else if x.Obj? then
      y.Obj? && Get(y.fields, ID) == if Get(x.fields, ID).Str? then Get(x.fields, ID) else Undefined
    else y == x && x.Text()
  }

  lemma {:induction false} ClearedIsNoNull(v: Json)
    ensures !PruneUntranslated(v).Null?
  {
  }

  lemma {:induction false} Cleared(v: Json)
    requires !PruneUntranslated(v).Undefined?
    ensures WrittenAs(v, PruneUntranslated(v))
  {
    if v.Arr? {
      var cleared := seq(|v.items|, i requires 0 <= i < |v.items| => PruneUntranslated(v.items[i]));
      assert PruneUntranslated(v) == Trimmed(cleared);
      ClearedIsNoNull(v.items[TrimmedLength(cleared) - 1]);
    }
  }

  /** At every place something is written exactly when text stands at or below it. */
  lemma WrittenPlacesExactly(v: Json, p: Path)
    requires Key(ID) !in p
    ensures var x, y := Reach(v, p), Reach(PruneUntranslated(v), p);
      && (!y.Nullish() <==> SaysSomething(x))
      && (!y.Nullish() ==> WrittenAs(x, y))
  {
    hide PruneUntranslated, WrittenAs;
    var x := Reach(v, p);
    WrittenAt(v, p);
    ClearedIsNoNull(x);
    if q: Path :| Key(ID) !in q && Reach(x, q).Text() {
      TextIsWritten(x, q);
    }
    if !PruneUntranslated(x).Undefined? {
      var q := WrittenSays(x);
      Cleared(x);
    }
  }
}
