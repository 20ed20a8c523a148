/** The index over a conversation document: its steps by stream, by talk and by id, in reading
    order.  A step is known by its position in the document, as the source's shared step
    objects are by reference; its `order` is changed in place after it has been indexed. */
module Conversation {
  import opened Options

  /** A landed position: a record's sequence number, and a row in it. */
  datatype Ref = Ref(sequence: int, row: int)

  datatype Node = Node(
    id: string,
    kind: string,
    stream: Option<string>,
    at: int,
    ref: Option<Ref>,
    toCall: Option<string>,
    children: seq<Node>)

  datatype Document = Document(talks: seq<Node>, loose: seq<Node>)

  datatype Step = Step(
    id: string,
    kind: string,
    at: int,
    stream: string,
    run: Option<string>,
    talk: Option<string>,
    ref: Option<Ref>,
    toCall: Option<string>)

  const CONTAINER_KINDS: set<string> := {"talk", "run", "stream", "segment", "session", "epoch"}
  const HISTORY_CHANGE := "history.change"
  const MAIN := "main"

  // ---- The steps of a document -----------------------------------------------------------

  function StreamOf(n: Node, fallback: string): string {
    if n.stream.Some? && n.stream.value != "" then n.stream.value else fallback
  }

  function RunOf(n: Node, run: Option<string>): Option<string> {
    if n.kind == "run" then Some(n.id) else run
  }

  /** The steps of a tree, each node before its children. */
  function TreeSteps(n: Node, run: Option<string>, talk: Option<string>, fallback: string): seq<Step>
    decreases n, 1
  {
    var inner := RunOf(n, run);
    (if n.kind in CONTAINER_KINDS then []
     else [Step(n.id, n.kind, n.at, StreamOf(n, fallback), inner, talk, n.ref, n.toCall)])
    + ChildSteps(n, n.children, inner, talk, fallback)
  }

  function ChildSteps(parent: Node, nodes: seq<Node>, run: Option<string>, talk: Option<string>,
      fallback: string): seq<Step>
    requires forall n :: n in nodes ==> n in parent.children
    decreases parent, 0, |nodes|
  {
    if nodes == [] then []
    else
      var n := nodes[|nodes| - 1];
      assert n in nodes && exists i :: 0 <= i < |parent.children| && parent.children[i] == n;
      ChildSteps(parent, nodes[..|nodes| - 1], run, talk, fallback) + TreeSteps(n, run, talk, fallback)
  }

  function TalkSteps(talks: seq<Node>): seq<Step> {
    if talks == [] then []
    else
      var t := talks[|talks| - 1];
      TalkSteps(talks[..|talks| - 1]) + TreeSteps(t, None, Some(t.id), if t.stream.Some? then t.stream.value else MAIN)
  }

  function LooseSteps(nodes: seq<Node>): seq<Step> {
    if nodes == [] then []
    else
      var n := nodes[|nodes| - 1];
      LooseSteps(nodes[..|nodes| - 1]) + TreeSteps(n, None, None, if n.stream.Some? then n.stream.value else MAIN)
  }

  function DocumentSteps(doc: Document): seq<Step> {
    TalkSteps(doc.talks) + LooseSteps(doc.loose)
  }

  // ---- Lists by key ------------------------------------------------------------------------

  datatype By = ByStream | ByTalk | Loose

  /** The list of an index that a step is pushed to, if it is pushed to one. */
  function ListOf(kind: By, s: Step): Option<string> {
    match kind
    case ByStream => Some(s.stream)
    case ByTalk => if s.talk.Some? && s.talk.value != "" then s.talk else None
    case Loose => if s.talk.Some? && s.talk.value != "" then None else Some(s.stream)
  }

  type Index = map<string, seq<nat>>

  ghost predicate NoRepeats(list: seq<nat>) {
    forall a, b :: 0 <= a < b < |list| ==> list[a] != list[b]
  }

  predicate Belongs(steps: seq<Step>, kind: By, k: string, i: nat) {
    i < |steps| && ListOf(kind, steps[i]) == Some(k)
  }

  /** Every list of `m` holds exactly the positions of the steps that belong to it, once each. */
  ghost predicate Indexes(m: Index, steps: seq<Step>, kind: By) {
    && (forall k :: k in m ==> NoRepeats(m[k]))
    && (forall k, i: nat :: k in m ==> (i in m[k] <==> Belongs(steps, kind, k, i)))
    && (forall i :: 0 <= i < |steps| && ListOf(kind, steps[i]).Some? ==> ListOf(kind, steps[i]).value in m)
  }

  function Push(m: Index, k: string, i: nat): Index {
    m[k := (if k in m then m[k] else []) + [i]]
  }

  lemma PushKeepsIndexes(m: Index, steps: seq<Step>, kind: By, s: Step)
    requires Indexes(m, steps, kind)
    ensures var k := ListOf(kind, s);
      Indexes(if k.Some? then Push(m, k.value, |steps|) else m, steps + [s], kind)
  {
    var all, k := steps + [s], ListOf(kind, s);
    var next := if k.Some? then Push(m, k.value, |steps|) else m;
    forall l, i: nat | l in next
      ensures i in next[l] <==> Belongs(all, kind, l, i)
    {
      assert l in m ==> (i in m[l] <==> Belongs(steps, kind, l, i));
      assert i < |steps| ==> all[i] == steps[i];
      if k == Some(l) && l in m { assert next[l] == m[l] + [|steps|]; }
    }
    forall l | l in next ensures NoRepeats(next[l]) {
      if k == Some(l) && l in m { assert !Belongs(steps, kind, l, |steps|) && |steps| !in m[l]; }
    }
  }

  // ---- Orders --------------------------------------------------------------------------------

  /** Reading order: the landed position where both steps have one, else the time; then `order`. */
  function ReadOrder(steps: seq<Step>, order: seq<real>, a: nat, b: nat): real
    requires a < |steps| && b < |steps| && |order| == |steps|
  {
    var x, y := steps[a], steps[b];
    if x.ref.Some? && y.ref.Some? then
      if x.ref.value.sequence != y.ref.value.sequence
      then (x.ref.value.sequence - y.ref.value.sequence) as real
      else if x.ref.value.row != y.ref.value.row then (x.ref.value.row - y.ref.value.row) as real
      else order[a] - order[b]
    else TimeOrder(steps, order, a, b)
  }

  function TimeOrder(steps: seq<Step>, order: seq<real>, a: nat, b: nat): real
    requires a < |steps| && b < |steps| && |order| == |steps|
  {
    if steps[a].at != steps[b].at then (steps[a].at - steps[b].at) as real else order[a] - order[b]
  }

  function Compare(byTime: bool, steps: seq<Step>, order: seq<real>, a: nat, b: nat): real
    requires a < |steps| && b < |steps| && |order| == |steps|
  {
    if byTime then TimeOrder(steps, order, a, b) else ReadOrder(steps, order, a, b)
  }

  ghost predicate Within(list: seq<nat>, n: nat) {
    forall k :: 0 <= k < |list| ==> list[k] < n
  }

  /** On such a list the comparison is transitive: by time, or all or no steps with a position. */
  ghost predicate Uniform(byTime: bool, steps: seq<Step>, list: seq<nat>)
    requires Within(list, |steps|)
  {
    || byTime
    || (forall k :: 0 <= k < |list| ==> steps[list[k]].ref.Some?)
    || (forall k :: 0 <= k < |list| ==> steps[list[k]].ref.None?)
  }

  ghost predicate Sorted(byTime: bool, steps: seq<Step>, order: seq<real>, list: seq<nat>)
    requires Within(list, |steps|) && |order| == |steps|
  {
    forall a, b :: 0 <= a < b < |list| ==> Compare(byTime, steps, order, list[a], list[b]) <= 0.0
  }

  /** The entry itself, if it compares equal to `x`. */
  function IfTied(byTime: bool, steps: seq<Step>, order: seq<real>, v: nat, x: nat): seq<nat>
    requires v < |steps| && x < |steps| && |order| == |steps|
  {
    if Compare(byTime, steps, order, v, x) == 0.0 then [v] else []
  }

  /** The entries that compare equal to `x`, as they come. */
  function Ties(byTime: bool, steps: seq<Step>, order: seq<real>, list: seq<nat>, x: nat): seq<nat>
    requires Within(list, |steps|) && |order| == |steps| && x < |steps|
  {
    if list == [] then []
    else
      var init, last := list[..|list| - 1], list[|list| - 1];
      Ties(byTime, steps, order, init, x) + IfTied(byTime, steps, order, last, x)
  }

  /** Entries that compare equal come as they did. */
  ghost predicate Stable(byTime: bool, steps: seq<Step>, order: seq<real>, list: seq<nat>, sorted: seq<nat>)
    requires Within(list, |steps|) && Within(sorted, |steps|) && |order| == |steps|
  {
    forall x :: x in list ==> Ties(byTime, steps, order, sorted, x) == Ties(byTime, steps, order, list, x)
  }

  /** The list in order: the same entries and, where the comparison is transitive, sorted and stable. */
  method Sort(byTime: bool, steps: seq<Step>, order: seq<real>, list: seq<nat>) returns (sorted: seq<nat>)
    requires Within(list, |steps|) && |order| == |steps|
    ensures multiset(sorted) == multiset(list) && Within(sorted, |steps|)
    ensures Uniform(byTime, steps, list) ==>
      Sorted(byTime, steps, order, sorted) && Stable(byTime, steps, order, list, sorted)
  {
    sorted := [];
    hide Ties, Compare, IfTied;
    for n := 0 to |list|
      invariant multiset(sorted) == multiset(list[..n]) && Within(sorted, |steps|)
      invariant forall i :: i in sorted ==> i in list
      invariant Uniform(byTime, steps, list) ==> Sorted(byTime, steps, order, sorted)
      invariant Uniform(byTime, steps, list) ==> forall x :: x in list ==>
        Ties(byTime, steps, order, sorted, x) == Ties(byTime, steps, order, list[..n], x)
    {
      assert list[..n + 1] == list[..n] + [list[n]];
      var at := InsertionPoint(byTime, steps, order, sorted, list[n]);
      if Uniform(byTime, steps, list) {
        InsertKeepsSorted(byTime, steps, order, list, sorted, at, list[n]);
        forall x | x in list
          ensures Ties(byTime, steps, order, Insert(sorted, at, list[n]), x)
            == Ties(byTime, steps, order, list[..n + 1], x)
        {
          InsertKeepsTies(byTime, steps, order, list, sorted, at, list[n], x);
          TiesAppended(byTime, steps, order, list[..n], list[n], x);
        }
      }
      sorted := Insert(sorted, at, list[n]);
    }
    assert list[..|list|] == list;
  }

  lemma TiesAppended(byTime: bool, steps: seq<Step>, order: seq<real>, list: seq<nat>, last: nat, x: nat)
    requires Within(list, |steps|) && last < |steps| && |order| == |steps| && x < |steps|
    ensures Within(list + [last], |steps|)
    ensures Ties(byTime, steps, order, list + [last], x) ==
      Ties(byTime, steps, order, list, x) + IfTied(byTime, steps, order, last, x)
  {
    var all := list + [last];
    assert all[..|all| - 1] == list && all[|list|] == last;
  }

  lemma {:induction false} TiesJoin(byTime: bool, steps: seq<Step>, order: seq<real>, a: seq<nat>, b: seq<nat>, x: nat)
    requires Within(a + b, |steps|) && |order| == |steps| && x < |steps|
    ensures Within(a, |steps|) && Within(b, |steps|)
    ensures Ties(byTime, steps, order, a + b, x) ==
      Ties(byTime, steps, order, a, x) + Ties(byTime, steps, order, b, x)
    decreases |b|
  {
    assert forall k :: 0 <= k < |a| ==> (a + b)[k] == a[k];
    assert forall k :: 0 <= k < |b| ==> (a + b)[|a| + k] == b[k];
    if b == [] {
      assert a + b == a;
    } else {
      var init := b[..|b| - 1];
      assert (a + b)[..|a + b| - 1] == a + init;
      TiesJoin(byTime, steps, order, a, init, x);
    }
  }

  lemma {:induction false} NoTies(byTime: bool, steps: seq<Step>, order: seq<real>, list: seq<nat>, x: nat)
    requires Within(list, |steps|) && |order| == |steps| && x < |steps|
    requires forall k :: 0 <= k < |list| ==> Compare(byTime, steps, order, list[k], x) != 0.0
    ensures Ties(byTime, steps, order, list, x) == []
    decreases |list|
  {
    if list != [] { NoTies(byTime, steps, order, list[..|list| - 1], x); }
  }

  lemma NotTied(byTime: bool, steps: seq<Step>, order: seq<real>, list: seq<nat>, a: nat, v: nat, x: nat)
    requires Within(list, |steps|) && |order| == |steps| && Uniform(byTime, steps, list)
    requires a in list && v in list && x in list
    requires Compare(byTime, steps, order, a, v) > 0.0 && Compare(byTime, steps, order, v, x) == 0.0
    ensures Compare(byTime, steps, order, a, x) != 0.0
  {
    CompareAntisymmetric(byTime, steps, order, v, x);
    if Compare(byTime, steps, order, a, x) == 0.0 { CompareTransitive(byTime, steps, order, list, a, x, v); }
    hide Compare;
  }

  lemma SplitWithin(s: seq<nat>, at: nat, v: nat, n: nat)
    requires at <= |s| && Within(s, n) && v < n
    ensures Within(s[..at], n) && Within(s[at..], n) && Within(s[..at] + [v], n)
    ensures s == s[..at] + s[at..] && Insert(s, at, v) == s[..at] + [v] + s[at..] && Within(Insert(s, at, v), n)
  {
  }

  lemma TiesAround(byTime: bool, steps: seq<Step>, order: seq<real>, s: seq<nat>, at: nat, v: nat, x: nat)
    requires at <= |s| && Within(s, |steps|) && |order| == |steps| && v < |steps| && x < |steps|
    ensures Within(s[..at], |steps|) && Within(s[at..], |steps|) && Within(Insert(s, at, v), |steps|)
    ensures var front, back := Ties(byTime, steps, order, s[..at], x), Ties(byTime, steps, order, s[at..], x);
      && Ties(byTime, steps, order, s, x) == front + back
      && Ties(byTime, steps, order, Insert(s, at, v), x) == front + IfTied(byTime, steps, order, v, x) + back
  {
    hide *;
    SplitWithin(s, at, v, |steps|);
    TiesJoin(byTime, steps, order, s[..at], s[at..], x);
    TiesJoin(byTime, steps, order, s[..at] + [v], s[at..], x);
    TiesAppended(byTime, steps, order, s[..at], v, x);
  }

  lemma NoTiesAfter(
      byTime: bool, steps: seq<Step>, order: seq<real>, list: seq<nat>, b: seq<nat>, v: nat, x: nat)
    requires Within(list, |steps|) && |order| == |steps| && Uniform(byTime, steps, list)
    requires v in list && x in list && v < |steps| && x < |steps|
    requires Within(b, |steps|) && forall i :: i in b ==> i in list
    requires forall k :: 0 <= k < |b| ==> Compare(byTime, steps, order, b[k], v) > 0.0
    ensures IfTied(byTime, steps, order, v, x) == [] || Ties(byTime, steps, order, b, x) == []
  {
    hide Compare, Uniform, Ties;
    if Compare(byTime, steps, order, v, x) == 0.0 {
      forall k | 0 <= k < |b| ensures Compare(byTime, steps, order, b[k], x) != 0.0 {
        NotTied(byTime, steps, order, list, b[k], v, x);
      }
      NoTies(byTime, steps, order, b, x);
    }
  }

  lemma BackIsGreater(byTime: bool, steps: seq<Step>, order: seq<real>, list: seq<nat>, s: seq<nat>, at: nat, v: nat)
    requires at <= |s| && Within(s, |steps|) && |order| == |steps| && v < |steps|
    requires forall i :: i in s ==> i in list
    requires forall k :: at <= k < |s| ==> Compare(byTime, steps, order, s[k], v) > 0.0
    ensures Within(s[at..], |steps|) && forall i :: i in s[at..] ==> i in list
    ensures forall k :: 0 <= k < |s[at..]| ==> Compare(byTime, steps, order, s[at..][k], v) > 0.0
  {
    hide Compare;
  }

  /** Put after all that compare equal to it, an entry comes last among them. */
  lemma InsertKeepsTies(
      byTime: bool, steps: seq<Step>, order: seq<real>, list: seq<nat>, s: seq<nat>, at: nat, v: nat, x: nat)
    requires Within(list, |steps|) && |order| == |steps| && Uniform(byTime, steps, list)
    requires v in list && x in list && v < |steps| && x < |steps|
    requires Within(s, |steps|) && forall i :: i in s ==> i in list
    requires at <= |s| && forall k :: at <= k < |s| ==> Compare(byTime, steps, order, s[k], v) > 0.0
    ensures Within(Insert(s, at, v), |steps|)
    ensures Ties(byTime, steps, order, Insert(s, at, v), x) ==
      Ties(byTime, steps, order, s, x) + IfTied(byTime, steps, order, v, x)
  {
    hide *;
    TiesAround(byTime, steps, order, s, at, v, x);
    BackIsGreater(byTime, steps, order, list, s, at, v);
    NoTiesAfter(byTime, steps, order, list, s[at..], v, x);
    JoinsLast(Ties(byTime, steps, order, s[..at], x), Ties(byTime, steps, order, s[at..], x),
      IfTied(byTime, steps, order, v, x));
  }

  lemma JoinsLast(front: seq<nat>, back: seq<nat>, tied: seq<nat>)
    requires tied == [] || back == []
    ensures front + tied + back == front + back + tied
  {
  }

  function Insert(s: seq<nat>, at: nat, x: nat): (r: seq<nat>)
    requires at <= |s|
    ensures multiset(r) == multiset(s) + multiset{x}
    ensures forall i :: i in r ==> i in s || i == x
  {
    assert s == s[..at] + s[at..];
    s[..at] + [x] + s[at..]
  }

  method InsertionPoint(byTime: bool, steps: seq<Step>, order: seq<real>, s: seq<nat>, x: nat) returns (at: nat)
    requires Within(s, |steps|) && |order| == |steps| && x < |steps|
    ensures at <= |s| && (at > 0 ==> Compare(byTime, steps, order, s[at - 1], x) <= 0.0)
    ensures forall k :: at <= k < |s| ==> Compare(byTime, steps, order, s[k], x) > 0.0
  {
    at := |s|;
    while at > 0 && Compare(byTime, steps, order, s[at - 1], x) > 0.0
      invariant 0 <= at <= |s|
      invariant forall k :: at <= k < |s| ==> Compare(byTime, steps, order, s[k], x) > 0.0
    {
      at := at - 1;
    }
  }

  lemma InsertKeepsSorted(byTime: bool, steps: seq<Step>, order: seq<real>, list: seq<nat>, s: seq<nat>, at: nat,
      x: nat)
    requires Within(list, |steps|) && |order| == |steps| && Uniform(byTime, steps, list)
    requires x in list && Within(s, |steps|) && forall i :: i in s ==> i in list
    requires Sorted(byTime, steps, order, s) && at <= |s|
    requires at > 0 ==> Compare(byTime, steps, order, s[at - 1], x) <= 0.0
    requires forall k :: at <= k < |s| ==> Compare(byTime, steps, order, s[k], x) > 0.0
    ensures Within(Insert(s, at, x), |steps|) && Sorted(byTime, steps, order, Insert(s, at, x))
  {
    hide Compare;
    var r := Insert(s, at, x);
    forall k | 0 <= k < at ensures Compare(byTime, steps, order, s[k], x) <= 0.0 {
      if k < at - 1 { CompareTransitive(byTime, steps, order, list, s[k], s[at - 1], x); }
    }
    forall k | at <= k < |s| ensures Compare(byTime, steps, order, x, s[k]) <= 0.0 {
      CompareAntisymmetric(byTime, steps, order, s[k], x);
    }
    forall a, b | 0 <= a < b < |r| ensures Compare(byTime, steps, order, r[a], r[b]) <= 0.0 {
      assert r[a] == if a < at then s[a] else if a == at then x else s[a - 1];
      assert r[b] == if b < at then s[b] else if b == at then x else s[b - 1];
    }
  }

  lemma CompareTransitive(byTime: bool, steps: seq<Step>, order: seq<real>, list: seq<nat>, a: nat, b: nat, c: nat)
    requires Within(list, |steps|) && |order| == |steps| && Uniform(byTime, steps, list)
    requires a in list && b in list && c in list
    requires Compare(byTime, steps, order, a, b) <= 0.0 && Compare(byTime, steps, order, b, c) <= 0.0
    ensures Compare(byTime, steps, order, a, c) <= 0.0
  {
  }

  lemma CompareAntisymmetric(byTime: bool, steps: seq<Step>, order: seq<real>, a: nat, b: nat)
    requires a < |steps| && b < |steps| && |order| == |steps| && Compare(byTime, steps, order, a, b) >= 0.0
    ensures Compare(byTime, steps, order, b, a) <= 0.0
  {
  }

  // ---- Cards stand before their calls --------------------------------------------------------

  function CardCall(s: Step): string {
    if s.toCall.Some? then s.toCall.value else s.id
  }

  ghost predicate ById(steps: seq<Step>, byId: map<string, nat>) {
    && (forall id :: id in byId ==> byId[id] < |steps| && steps[byId[id]].id == id)
    && (forall i :: 0 <= i < |steps| ==> steps[i].id in byId)
  }

  function Positions(n: nat): seq<real> {
    seq(n, i => i as real)
  }

  ghost predicate UniqueIds(steps: seq<Step>) {
    forall i, j :: 0 <= i < j < |steps| ==> steps[i].id != steps[j].id
  }

  /** `byId` finds a step under every id of the document, and `ids` lists those ids as they came. */
  ghost predicate Identified(steps: seq<Step>, byId: map<string, nat>, ids: seq<string>) {
    && ById(steps, byId)
    && (forall id :: id in ids <==> id in byId)
    && (forall a, b :: 0 <= a < b < |ids| ==> ids[a] != ids[b])
    && (UniqueIds(steps) ==> |ids| == |steps| && forall i :: 0 <= i < |steps| ==> ids[i] == steps[i].id)
  }

  lemma IdentifiedGrows(steps: seq<Step>, byId: map<string, nat>, ids: seq<string>, s: Step)
    requires Identified(steps, byId, ids)
    ensures Identified(steps + [s], byId[s.id := |steps|], if s.id in byId then ids else ids + [s.id])
  {
    NewIdIsLast(steps, byId, s);
    hide UniqueIds;
  }

  lemma NewIdIsLast(steps: seq<Step>, byId: map<string, nat>, s: Step)
    requires ById(steps, byId)
    ensures ById(steps + [s], byId[s.id := |steps|])
    ensures UniqueIds(steps + [s]) ==> UniqueIds(steps) && s.id !in byId
  {
    var all := steps + [s];
    assert forall i :: 0 <= i < |steps| ==> all[i] == steps[i];
    assert all[|steps|] == s;
  }

  /** The call a history.change card takes its place before, when the document holds it. */
  function CardTarget(steps: seq<Step>, byId: map<string, nat>, i: nat): (j: Option<nat>)
    requires i < |steps| && forall id :: id in byId ==> byId[id] < |steps|
    ensures j.Some? ==> j.value < |steps|
  {
    if steps[i].kind == HISTORY_CHANGE && CardCall(steps[i]) in byId then Some(byId[CardCall(steps[i])]) else None
  }

  /** The orders once the first `n` indexed steps have been looked at; each starts at its position. */
  function CardOrders(steps: seq<Step>, byId: map<string, nat>, ids: seq<string>, n: nat): (r: seq<real>)
    requires n <= |ids| && (forall id :: id in byId ==> byId[id] < |steps|) && (forall id :: id in ids ==> id in byId)
    ensures |r| == |steps|
  {
    if n == 0 then Positions(|steps|)
    else
      var o, i := CardOrders(steps, byId, ids, n - 1), byId[ids[n - 1]];
      match CardTarget(steps, byId, i)
      case Some(j) => o[i := o[j] - 0.5]
      case None => o
  }

  lemma NothingCollected()
    ensures Indexes(map[], [], ByStream) && Indexes(map[], [], ByTalk) && Indexes(map[], [], Loose)
    ensures Identified([], map[], []) && Positions(0) == []
  {
  }

  // ---- The model -------------------------------------------------------------------------------

  class ConversationModel {
    var steps: seq<Step>
    var order: seq<real>
    var ids: seq<string>
    var stepById: map<string, nat>
    var stepsByStream: Index
    var flowByStream: Index
    var stepsByTalk: Index
    var looseByStream: Index

    ghost predicate Collected()
      reads this
    {
      && Indexes(stepsByStream, steps, ByStream)
      && Indexes(stepsByTalk, steps, ByTalk)
      && Indexes(looseByStream, steps, Loose)
      && order == Positions(|steps|)
      && Identified(steps, stepById, ids)
    }

    /** The lists hold what belongs to them, in order, with the cards in their places. */
    ghost predicate Indexed(doc: Document)
      reads this
    {
      && steps == DocumentSteps(doc)
      && Identified(steps, stepById, ids)
      && order == CardOrders(steps, stepById, ids, |ids|)
      && Indexes(stepsByStream, steps, ByStream) && InOrder(false, steps, order, stepsByStream)
      && Indexes(flowByStream, steps, ByStream) && InOrder(true, steps, order, flowByStream)
      && Indexes(stepsByTalk, steps, ByTalk) && InOrder(false, steps, order, stepsByTalk)
      && Indexes(looseByStream, steps, Loose) && InOrder(false, steps, order, looseByStream)
    }

    constructor (doc: Document)
      ensures Indexed(doc)
    {
      steps, order, ids, stepById := [], [], [], map[];
      stepsByStream, flowByStream, stepsByTalk, looseByStream := map[], map[], map[], map[];
      new;
      NothingCollected();
      hide Indexes, Identified, InOrder, CardOrders, TreeSteps, TalkSteps, LooseSteps, Positions;
      CollectTalks(doc.talks);
      CollectLoose(doc.loose);
      PlaceCards();
      ArrangeLists();
    }

    method CollectTalks(talks: seq<Node>)
      requires Collected() && steps == []
      modifies this
      ensures Collected() && steps == TalkSteps(talks)
    {
      hide Indexes, Identified, TreeSteps;
      assert talks[..|talks|] == talks;
      for n := 0 to |talks|
        invariant Collected() && steps == TalkSteps(talks[..n])
      {
        assert talks[..n + 1][..n] == talks[..n];
        var t := talks[n];
        Flatten(t, None, Some(t.id), if t.stream.Some? then t.stream.value else MAIN);
      }
    }

    method CollectLoose(nodes: seq<Node>)
      requires Collected()
      modifies this
      ensures Collected() && steps == old(steps) + LooseSteps(nodes)
    {
      hide Indexes, Identified, TreeSteps;
      assert nodes[..|nodes|] == nodes;
      for n := 0 to |nodes|
        invariant Collected() && steps == old(steps) + LooseSteps(nodes[..n])
      {
        assert nodes[..n + 1][..n] == nodes[..n];
        var l := nodes[n];
        Flatten(l, None, None, if l.stream.Some? then l.stream.value else MAIN);
      }
    }

    method AddStep(s: Step)
      requires Collected()
      modifies this
      ensures Collected() && steps == old(steps) + [s]
    {
      hide Indexes, Identified;
      PushKeepsIndexes(stepsByStream, steps, ByStream, s);
      PushKeepsIndexes(stepsByTalk, steps, ByTalk, s);
      PushKeepsIndexes(looseByStream, steps, Loose, s);
      IdentifiedGrows(steps, stepById, ids, s);
      var at := |steps|;
      assert Positions(at + 1) == Positions(at) + [at as real];
      stepsByStream := Push(stepsByStream, s.stream, at);
      if s.talk.Some? && s.talk.value != "" {
        stepsByTalk := Push(stepsByTalk, s.talk.value, at);
      } else {
        looseByStream := Push(looseByStream, s.stream, at);
      }
      if s.id !in stepById {
        ids := ids + [s.id];
      }
      stepById := stepById[s.id := at];
      steps := steps + [s];
      order := order + [at as real];
    }

    method Flatten(n: Node, run: Option<string>, talk: Option<string>, fallback: string)
      requires Collected()
      modifies this
      ensures Collected() && steps == old(steps) + TreeSteps(n, run, talk, fallback)
      decreases n, 1
    {
      hide Indexes, Identified;
      var inner := RunOf(n, run);
      if n.kind !in CONTAINER_KINDS {
        AddStep(Step(n.id, n.kind, n.at, StreamOf(n, fallback), inner, talk, n.ref, n.toCall));
      }
      FlattenChildren(n, inner, talk, fallback);
    }

    method FlattenChildren(n: Node, run: Option<string>, talk: Option<string>, fallback: string)
      requires Collected()
      modifies this
      ensures Collected() && steps == old(steps) + ChildSteps(n, n.children, run, talk, fallback)
      decreases n, 0
    {
      hide Indexes, Identified, TreeSteps;
      assert n.children[..|n.children|] == n.children;
      for k := 0 to |n.children|
        invariant Collected()
        invariant steps == old(steps) + ChildSteps(n, n.children[..k], run, talk, fallback)
      {
        assert n.children[..k + 1][..k] == n.children[..k];
        assert n.children[k] in n.children;
        Flatten(n.children[k], run, talk, fallback);
      }
    }

    method ArrangeLists()
      requires |order| == |steps|
      requires Indexes(stepsByStream, steps, ByStream)
      requires Indexes(stepsByTalk, steps, ByTalk)
      requires Indexes(looseByStream, steps, Loose)
      modifies this`stepsByStream, this`flowByStream, this`stepsByTalk, this`looseByStream
      ensures Rearranged(false, steps, order, old(stepsByStream), stepsByStream)
      ensures Rearranged(true, steps, order, stepsByStream, flowByStream)
      ensures Rearranged(false, steps, order, old(stepsByTalk), stepsByTalk)
      ensures Rearranged(false, steps, order, old(looseByStream), looseByStream)
      ensures Indexes(stepsByStream, steps, ByStream) && InOrder(false, steps, order, stepsByStream)
      ensures Indexes(flowByStream, steps, ByStream) && InOrder(true, steps, order, flowByStream)
      ensures Indexes(stepsByTalk, steps, ByTalk) && InOrder(false, steps, order, stepsByTalk)
      ensures Indexes(looseByStream, steps, Loose) && InOrder(false, steps, order, looseByStream)
    {
      hide Indexes, InOrder, Rearranged;
      stepsByStream := SortLists(false, steps, order, stepsByStream, ByStream);
      flowByStream := SortLists(true, steps, order, stepsByStream, ByStream);
      stepsByTalk := SortLists(false, steps, order, stepsByTalk, ByTalk);
      looseByStream := SortLists(false, steps, order, looseByStream, Loose);
    }

    method PlaceCards()
      requires Collected()
      modifies this`order
      ensures order == CardOrders(steps, stepById, ids, |ids|)
    {
      hide Indexes, Belongs;
      for n := 0 to |ids|
        invariant order == CardOrders(steps, stepById, ids, n)
      {
        var i := stepById[ids[n]];
        var call := CardTarget(steps, stepById, i);
        if call.Some? {
          order := order[i := order[call.value] - 0.5];
        }
      }
    }
  }

  ghost predicate InOrder(byTime: bool, steps: seq<Step>, order: seq<real>, m: Index)
    requires |order| == |steps|
  {
    forall k :: k in m ==>
      Within(m[k], |steps|) && (Uniform(byTime, steps, m[k]) ==> Sorted(byTime, steps, order, m[k]))
  }

  /** A list with the same entries, sorted and stable where the comparison is transitive. */
  ghost predicate SortedFrom(byTime: bool, steps: seq<Step>, order: seq<real>, list: seq<nat>, sorted: seq<nat>)
    requires |order| == |steps|
  {
    && Within(list, |steps|) && Within(sorted, |steps|) && multiset(sorted) == multiset(list)
    && (Uniform(byTime, steps, list) ==>
          Sorted(byTime, steps, order, sorted) && Stable(byTime, steps, order, list, sorted))
  }

  ghost predicate Rearranged(byTime: bool, steps: seq<Step>, order: seq<real>, m: Index, sorted: Index)
    requires |order| == |steps|
  {
    sorted.Keys == m.Keys && forall k :: k in m ==> SortedFrom(byTime, steps, order, m[k], sorted[k])
  }

  method SortLists(byTime: bool, steps: seq<Step>, order: seq<real>, m: Index, kind: By) returns (sorted: Index)
    requires Indexes(m, steps, kind) && |order| == |steps|
    ensures Indexes(sorted, steps, kind) && InOrder(byTime, steps, order, sorted)
    ensures Rearranged(byTime, steps, order, m, sorted)
  {
    hide SortedFrom, Indexes;
    sorted := m;
    var keys, visited: set<string> := m.Keys, {};
    while keys - visited != {}
      invariant visited <= keys && sorted.Keys == keys
      invariant forall k :: k in visited ==> SortedFrom(byTime, steps, order, m[k], sorted[k])
      invariant forall k :: k in keys - visited ==> sorted[k] == m[k]
      decreases keys - visited
    {
      var k :| k in keys - visited;
      visited := visited + {k};
      ListWithin(m, steps, kind, k);
      var list := Sort(byTime, steps, order, m[k]);
      SortedIs(byTime, steps, order, m[k], list);
      sorted := sorted[k := list];
    }
    assert visited == keys;
    RearrangedIndexes(byTime, steps, order, m, sorted, kind);
  }

  lemma SortedIs(byTime: bool, steps: seq<Step>, order: seq<real>, list: seq<nat>, sorted: seq<nat>)
    requires |order| == |steps| && Within(list, |steps|) && Within(sorted, |steps|)
    requires multiset(sorted) == multiset(list)
    requires Uniform(byTime, steps, list) ==>
      Sorted(byTime, steps, order, sorted) && Stable(byTime, steps, order, list, sorted)
    ensures SortedFrom(byTime, steps, order, list, sorted)
  {
  }

  lemma RearrangedIndexes(byTime: bool, steps: seq<Step>, order: seq<real>, m: Index, sorted: Index, kind: By)
    requires |order| == |steps| && Indexes(m, steps, kind) && Rearranged(byTime, steps, order, m, sorted)
    ensures Indexes(sorted, steps, kind) && InOrder(byTime, steps, order, sorted)
  {
    forall k | k in m
      ensures NoRepeats(sorted[k]) && (forall i :: i in sorted[k] <==> i in m[k]) && Within(sorted[k], |steps|)
      ensures Uniform(byTime, steps, sorted[k]) ==> Sorted(byTime, steps, order, sorted[k])
    {
      SameEntries(m[k], sorted[k]);
      UniformSame(byTime, steps, m[k], sorted[k]);
    }
    hide Sorted, Stable, Uniform;
  }

  lemma ListWithin(m: Index, steps: seq<Step>, kind: By, k: string)
    requires Indexes(m, steps, kind) && k in m
    ensures Within(m[k], |steps|)
  {
    forall a | 0 <= a < |m[k]| ensures m[k][a] < |steps| {
      assert m[k][a] in m[k];
      assert Belongs(steps, kind, k, m[k][a]);
    }
  }

  lemma SameEntries(a: seq<nat>, b: seq<nat>)
    requires multiset(a) == multiset(b) && NoRepeats(a)
    ensures NoRepeats(b) && forall i :: i in a <==> i in b
  {
    forall i ensures i in a <==> i in b {
      assert i in a <==> i in multiset(a);
      assert i in b <==> i in multiset(b);
    }
    forall x, y | 0 <= x < y < |b| ensures b[x] != b[y] {
      if b[x] == b[y] {
        assert b == b[..x] + [b[x]] + b[x + 1..y] + [b[y]] + b[y + 1..];
        assert multiset(b)[b[x]] >= 2;
        OnceInDistinct(a, b[x]);
      }
    }
  }

  lemma {:induction false} OnceInDistinct(a: seq<nat>, i: nat)
    requires NoRepeats(a)
    ensures multiset(a)[i] <= 1
    decreases |a|
  {
    if a != [] {
      var init := a[..|a| - 1];
      assert a == init + [a[|a| - 1]];
      OnceInDistinct(init, i);
    }
  }

  lemma UniformSame(byTime: bool, steps: seq<Step>, a: seq<nat>, b: seq<nat>)
    requires Within(a, |steps|) && Within(b, |steps|) && forall i :: i in a <==> i in b
    ensures Uniform(byTime, steps, a) <==> Uniform(byTime, steps, b)
  {
    assert forall k :: 0 <= k < |a| ==> a[k] in b;
    assert forall k :: 0 <= k < |b| ==> b[k] in a;
  }
}
