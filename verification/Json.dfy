/** The JSON values that templates and translation overlays are made of.
    `Undefined` is the absent value: what reading a missing key or an index past
    the end of an array gives.  Objects are finite maps, so key order is not modelled. */
module Json {

  datatype Json =
    | Undefined
    | Null
    | Bool(b: bool)
    | Num(n: real)
    | Str(s: string)
    | Arr(items: seq<Json>)
    | Obj(fields: map<string, Json>)
  {
    predicate Nullish() {
      Undefined? || Null?
    }

    predicate Text() {
      Str? && |s| > 0
    }
  }

  /** One step of a path into a tree. */
  datatype Step = Key(key: string) | Index(i: nat)

  type Path = seq<Step>

  const ID := "id"

  function At(items: seq<Json>, i: nat): Json {
    if i < |items| then items[i] else Undefined
  }

  function Get(fields: map<string, Json>, k: string): Json {
    if k in fields then fields[k] else Undefined
  }

  /** What a value holds one step down. */
  function Child(v: Json, step: Step): Json {
    match step
    case Key(k) => if v.Obj? then Get(v.fields, k) else Undefined
    case Index(i) => if v.Arr? then At(v.items, i) else Undefined
  }

  /** What a value holds at a path. */
  function Reach(v: Json, p: Path): Json
    decreases |p|
  {
    if p == [] then v else Reach(Child(v, p[0]), p[1..])
  }

  lemma ReachStep(v: Json, step: Step, rest: Path)
    ensures Reach(v, [step] + rest) == Reach(Child(v, step), rest)
  {
    assert ([step] + rest)[1..] == rest;
  }

  lemma {:induction false} ReachNothing(v: Json, p: Path)
    requires p != [] && !v.Arr? && !v.Obj?
    ensures Reach(v, p) == Undefined
    decreases |p|
  {
    if |p| > 1 { ReachNothing(Undefined, p[1..]); }
  }
}
