/** The steps of the model are the nodes of the document, told by their places in it. */
module ConversationNodes {
  import opened Options
  import opened Conversation
  import opened ConversationLaws

  /** Child positions, from a root down. */
  type Place = seq<nat>

  // ---- Nodes by place --------------------------------------------------------------------------

  /** The node at a place below `n`, if there is one. */
  function Below(n: Node, place: Place): Option<Node>
    decreases |place|
  {
    if place == [] then Some(n)
    else if place[0] < |n.children| then Below(n.children[place[0]], place[1..])
    else None
  }

  predicate IsStep(n: Option<Node>) {
    n.Some? && n.value.kind !in CONTAINER_KINDS
  }

  /** The id of the last run on the way from `n` down to `place`. */
  function NearestRun(n: Node, place: Place): Option<string>
    requires Below(n, place).Some?
    decreases |place|
  {
    var node := Below(n, place).value;
    if node.kind == "run" then Some(node.id)
    else if place == [] then None
    else BelowPrefix(n, place, |place| - 1); NearestRun(n, place[..|place| - 1])
  }

  lemma {:induction false} BelowPrefix(n: Node, place: Place, k: nat)
    requires Below(n, place).Some? && k <= |place|
    ensures Below(n, place[..k]).Some?
    decreases |place|
  {
    if k > 0 {
      BelowPrefix(n.children[place[0]], place[1..], k - 1);
      assert place[..k][1..] == place[1..][..k - 1];
    }
  }

  /** The step that a node below a root makes. */
  function StepBelow(root: Node, place: Place, talk: Option<string>): Step
    requires Below(root, place).Some?
  {
    var n := Below(root, place).value;
    var stream := if n.stream.Some? && n.stream.value != "" then n.stream.value
                  else if root.stream.Some? then root.stream.value else MAIN;
    Step(n.id, n.kind, n.at, stream, NearestRun(root, place), talk, n.ref, n.toCall)
  }

  /** Document order: a node before what is below it, and one child before the next. */
  predicate Before(a: Place, b: Place)
    decreases |a|
  {
    if b == [] then false
    else if a == [] then true
    else a[0] < b[0] || (a[0] == b[0] && Before(a[1..], b[1..]))
  }

  ghost predicate InDocumentOrder(places: seq<Place>) {
    forall i, j :: 0 <= i < j < |places| ==> Before(places[i], places[j])
  }

  // ---- The places of a tree's steps ------------------------------------------------------------

  function Shifted(k: nat, places: seq<Place>): (r: seq<Place>)
    ensures |r| == |places| && forall i :: 0 <= i < |r| ==> r[i] == [k] + places[i]
  {
    seq(|places|, i requires 0 <= i < |places| => [k] + places[i])
  }

  function TreePlaces(n: Node): seq<Place>
    decreases n, 1
  {
    (if n.kind in CONTAINER_KINDS then [] else [[]]) + ChildPlaces(n, |n.children|)
  }

  function ChildPlaces(n: Node, k: nat): seq<Place>
    requires k <= |n.children|
    decreases n, 0, k
  {
    if k == 0 then [] else ChildPlaces(n, k - 1) + Shifted(k - 1, TreePlaces(n.children[k - 1]))
  }

  lemma {:induction false} TreePlacesAre(n: Node, place: Place)
    ensures place in TreePlaces(n) <==> IsStep(Below(n, place))
    decreases n, 1
  {
    ChildPlacesAre(n, |n.children|, place);
  }

  lemma {:induction false} ChildPlacesAre(n: Node, k: nat, place: Place)
    requires k <= |n.children|
    ensures place in ChildPlaces(n, k) <==> place != [] && place[0] < k && IsStep(Below(n, place))
    decreases n, 0, k
  {
    if k > 0 {
      ChildPlacesAre(n, k - 1, place);
      var c := n.children[k - 1];
      InShifted(k - 1, TreePlaces(c), place);
      if place != [] { TreePlacesAre(c, place[1..]); }
      hide TreePlaces;
    }
  }

  lemma InShifted(k: nat, places: seq<Place>, place: Place)
    ensures place in Shifted(k, places) <==> place != [] && place[0] == k && place[1..] in places
  {
    if place != [] && place[0] == k && place[1..] in places {
      var i :| 0 <= i < |places| && places[i] == place[1..];
      assert place == [k] + places[i] == Shifted(k, places)[i];
    }
    if place in Shifted(k, places) {
      var i :| 0 <= i < |places| && Shifted(k, places)[i] == place;
      assert place[1..] == places[i];
    }
  }

  lemma {:induction false} TreeInOrder(n: Node)
    ensures InDocumentOrder(TreePlaces(n))
    decreases n, 1
  {
    var rest := ChildPlaces(n, |n.children|);
    ChildrenInOrder(n, |n.children|);
    forall i | 0 <= i < |rest| ensures rest[i] != [] {
      ChildPlacesAre(n, |n.children|, rest[i]);
    }
    hide ChildPlaces;
  }

  lemma {:induction false} ChildrenInOrder(n: Node, k: nat)
    requires k <= |n.children|
    ensures InDocumentOrder(ChildPlaces(n, k))
    decreases n, 0, k
  {
    if k > 0 {
      ChildrenInOrder(n, k - 1);
      TreeInOrder(n.children[k - 1]);
      var a, b := ChildPlaces(n, k - 1), TreePlaces(n.children[k - 1]);
      forall i | 0 <= i < |a| ensures a[i] != [] && a[i][0] < k - 1 {
        ChildPlacesAre(n, k - 1, a[i]);
      }
      hide TreePlaces, ChildPlaces;
      AppendsInOrder(a, k - 1, b);
    }
  }

  lemma AppendsInOrder(a: seq<Place>, k: nat, b: seq<Place>)
    requires InDocumentOrder(a) && InDocumentOrder(b) && forall i :: 0 <= i < |a| ==> a[i] != [] && a[i][0] < k
    ensures InDocumentOrder(a + Shifted(k, b))
  {
    var r := Shifted(k, b);
    forall i, j | 0 <= i < j < |a + r| ensures Before((a + r)[i], (a + r)[j]) {
      if i >= |a| {
        assert r[i - |a|][1..] == b[i - |a|] && r[j - |a|][1..] == b[j - |a|];
      }
    }
  }

  // ---- What the steps hold ---------------------------------------------------------------------

  /** The run a step of a tree is walked in, given the run around the tree. */
  function RunAlong(n: Node, place: Place, run: Option<string>): Option<string>
    requires Below(n, place).Some?
    decreases |place|
  {
    if place == [] then RunOf(n, run) else RunAlong(n.children[place[0]], place[1..], RunOf(n, run))
  }

  lemma {:induction false} RunAlongIsNearest(n: Node, place: Place, run: Option<string>)
    requires Below(n, place).Some?
    ensures RunAlong(n, place, run) ==
      if NearestRun(n, place).Some? then NearestRun(n, place) else run
    decreases |place|
  {
    if place != [] {
      RunAlongIsNearest(n.children[place[0]], place[1..], RunOf(n, run));
      NearestFromChild(n, place);
      hide NearestRun;
    }
  }

  /** The nearest run is one below the child, or else the node itself. */
  lemma {:induction false} NearestFromChild(n: Node, place: Place)
    requires Below(n, place).Some? && place != []
    ensures var inner := NearestRun(n.children[place[0]], place[1..]);
      NearestRun(n, place) == if inner.Some? then inner else RunOf(n, None)
    decreases |place|
  {
    var c, rest, shorter := n.children[place[0]], place[1..], place[..|place| - 1];
    if rest != [] {
      BelowPrefix(n, place, |shorter|);
      assert shorter[1..] == rest[..|rest| - 1] && shorter[0] == place[0];
      NearestFromChild(n, shorter);
    } else {
      assert shorter == [];
    }
  }

  function Walked(n: Node, place: Place, run: Option<string>, talk: Option<string>, fallback: string): Step
    requires Below(n, place).Some?
  {
    var node := Below(n, place).value;
    Step(node.id, node.kind, node.at, StreamOf(node, fallback), RunAlong(n, place, run), talk, node.ref, node.toCall)
  }

  ghost predicate StepsAt(steps: seq<Step>, places: seq<Place>, n: Node, run: Option<string>, talk: Option<string>,
      fallback: string)
  {
    && |steps| == |places|
    && forall i :: 0 <= i < |steps| ==>
      Below(n, places[i]).Some? && steps[i] == Walked(n, places[i], run, talk, fallback)
  }

  lemma {:induction false} TreeStepsAt(n: Node, run: Option<string>, talk: Option<string>, fallback: string)
    ensures StepsAt(TreeSteps(n, run, talk, fallback), TreePlaces(n), n, run, talk, fallback)
    decreases n, 1
  {
    assert n.children[..|n.children|] == n.children;
    ChildStepsAt(n, |n.children|, run, talk, fallback);
    hide ChildSteps, ChildPlaces;
  }

  lemma {:induction false} ChildStepsAt(n: Node, k: nat, run: Option<string>, talk: Option<string>, fallback: string)
    requires k <= |n.children|
    ensures StepsAt(
      ChildSteps(n, n.children[..k], RunOf(n, run), talk, fallback), ChildPlaces(n, k), n, run, talk, fallback)
    decreases n, 0, k
  {
    if k > 0 {
      assert n.children[..k][..k - 1] == n.children[..k - 1];
      ChildStepsAt(n, k - 1, run, talk, fallback);
      var c := n.children[k - 1];
      TreeStepsAt(c, RunOf(n, run), talk, fallback);
      hide TreeSteps, TreePlaces;
      ShiftedSteps(n, k - 1, TreeSteps(c, RunOf(n, run), talk, fallback), TreePlaces(c), run, talk, fallback);
    }
  }

  lemma ShiftedSteps(n: Node, k: nat, steps: seq<Step>, places: seq<Place>, run: Option<string>, talk: Option<string>,
      fallback: string)
    requires k < |n.children| && StepsAt(steps, places, n.children[k], RunOf(n, run), talk, fallback)
    ensures StepsAt(steps, Shifted(k, places), n, run, talk, fallback)
  {
    var r := Shifted(k, places);
    forall i | 0 <= i < |steps| ensures Below(n, r[i]).Some? && steps[i] == Walked(n, r[i], run, talk, fallback) {
      assert r[i][1..] == places[i];
    }
  }

  // ---- The document ----------------------------------------------------------------------------

  /** The talks, then what is in none. */
  function Roots(doc: Document): seq<Node> {
    doc.talks + doc.loose
  }

  /** The node at a place of the document: a root, and child positions below it. */
  function NodeAt(doc: Document, place: Place): Option<Node> {
    if place == [] || place[0] >= |Roots(doc)| then None else Below(Roots(doc)[place[0]], place[1..])
  }

  /** The step that a node of the document makes. */
  function StepOf(doc: Document, place: Place): Step
    requires NodeAt(doc, place).Some?
  {
    var root := Roots(doc)[place[0]];
    StepBelow(root, place[1..], if place[0] < |doc.talks| then Some(root.id) else None)
  }

  function PlacesOf(roots: seq<Node>): seq<Place> {
    if roots == [] then []
    else PlacesOf(roots[..|roots| - 1]) + Shifted(|roots| - 1, TreePlaces(roots[|roots| - 1]))
  }

  function Places(doc: Document): seq<Place> {
    PlacesOf(Roots(doc))
  }

  lemma {:induction false} PlacesOfAre(roots: seq<Node>, place: Place)
    ensures place in PlacesOf(roots) <==>
      place != [] && place[0] < |roots| && IsStep(Below(roots[place[0]], place[1..]))
    decreases |roots|
  {
    if roots != [] {
      var init, last := roots[..|roots| - 1], roots[|roots| - 1];
      PlacesOfAre(init, place);
      InShifted(|init|, TreePlaces(last), place);
      if place != [] { TreePlacesAre(last, place[1..]); }
      hide TreePlaces;
    }
  }

  lemma {:induction false} PlacesOfInOrder(roots: seq<Node>)
    ensures InDocumentOrder(PlacesOf(roots))
    decreases |roots|
  {
    if roots != [] {
      var init, last := roots[..|roots| - 1], roots[|roots| - 1];
      PlacesOfInOrder(init);
      TreeInOrder(last);
      var a := PlacesOf(init);
      forall i | 0 <= i < |a| ensures a[i] != [] && a[i][0] < |init| {
        PlacesOfAre(init, a[i]);
      }
      hide TreePlaces, PlacesOf;
      AppendsInOrder(a, |init|, TreePlaces(last));
    }
  }

  /** The steps of the first talks and loose nodes are those at their places. */
  ghost predicate StepsOfPlaces(doc: Document, steps: seq<Step>, places: seq<Place>) {
    && |steps| == |places|
    && forall i :: 0 <= i < |steps| ==> NodeAt(doc, places[i]).Some? && steps[i] == StepOf(doc, places[i])
  }

  lemma RootSteps(doc: Document, k: nat, talk: Option<string>)
    requires k < |Roots(doc)| && talk == if k < |doc.talks| then Some(Roots(doc)[k].id) else None
    ensures var root := Roots(doc)[k];
      StepsOfPlaces(doc, TreeSteps(root, None, talk, if root.stream.Some? then root.stream.value else MAIN),
        Shifted(k, TreePlaces(root)))
  {
    var root := Roots(doc)[k];
    var fallback := if root.stream.Some? then root.stream.value else MAIN;
    TreeStepsAt(root, None, talk, fallback);
    var places, steps := TreePlaces(root), TreeSteps(root, None, talk, fallback);
    var r := Shifted(k, places);
    hide TreePlaces, TreeSteps;
    forall i | 0 <= i < |steps| ensures NodeAt(doc, r[i]).Some? && steps[i] == StepOf(doc, r[i]) {
      assert r[i][1..] == places[i] && r[i][0] == k;
      RunAlongIsNearest(root, places[i], None);
    }
  }

  lemma {:induction false} TalkPlaces(doc: Document, k: nat)
    requires k <= |doc.talks|
    ensures StepsOfPlaces(doc, TalkSteps(doc.talks[..k]), PlacesOf(Roots(doc)[..k]))
    decreases k
  {
    if k > 0 {
      TalkPlaces(doc, k - 1);
      assert doc.talks[..k][..k - 1] == doc.talks[..k - 1] && Roots(doc)[..k][..k - 1] == Roots(doc)[..k - 1];
      RootSteps(doc, k - 1, Some(doc.talks[k - 1].id));
      hide TreeSteps, TreePlaces, NodeAt, StepOf;
    }
  }

  function LooseTree(n: Node): seq<Step> {
    TreeSteps(n, None, None, if n.stream.Some? then n.stream.value else MAIN)
  }

  lemma NextLoose(nodes: seq<Node>, k: nat)
    requires 0 < k <= |nodes|
    ensures LooseSteps(nodes[..k]) == LooseSteps(nodes[..k - 1]) + LooseTree(nodes[k - 1])
  {
    assert nodes[..k][..k - 1] == nodes[..k - 1];
    hide TreeSteps;
  }

  lemma PlacesNext(roots: seq<Node>, m: nat)
    requires 0 < m <= |roots|
    ensures PlacesOf(roots[..m]) == PlacesOf(roots[..m - 1]) + Shifted(m - 1, TreePlaces(roots[m - 1]))
  {
    assert roots[..m][..m - 1] == roots[..m - 1];
    hide TreePlaces;
  }

  lemma StepsTogether(doc: Document, a: seq<Step>, p: seq<Place>, b: seq<Step>, q: seq<Place>)
    requires StepsOfPlaces(doc, a, p) && StepsOfPlaces(doc, b, q)
    ensures StepsOfPlaces(doc, a + b, p + q)
  {
    hide NodeAt, StepOf;
  }

  lemma Associates(a: seq<Step>, b: seq<Step>, c: seq<Step>)
    ensures a + b + c == a + (b + c)
  {
  }

  lemma {:induction false} LoosePlaces(doc: Document, k: nat)
    requires k <= |doc.loose|
    ensures StepsOfPlaces(
      doc, TalkSteps(doc.talks) + LooseSteps(doc.loose[..k]), PlacesOf(Roots(doc)[..|doc.talks| + k]))
    decreases k
  {
    if k > 0 {
      LoosePlaces(doc, k - 1);
      var m := |doc.talks| + k;
      assert Roots(doc)[m - 1] == doc.loose[k - 1];
      RootSteps(doc, m - 1, None);
      NextLoose(doc.loose, k);
      PlacesNext(Roots(doc), m);
      hide *;
      StepsTogether(doc, TalkSteps(doc.talks) + LooseSteps(doc.loose[..k - 1]), PlacesOf(Roots(doc)[..m - 1]),
        LooseTree(doc.loose[k - 1]), Shifted(m - 1, TreePlaces(doc.loose[k - 1])));
      Associates(TalkSteps(doc.talks), LooseSteps(doc.loose[..k - 1]), LooseTree(doc.loose[k - 1]));
    } else {
      TalkPlaces(doc, |doc.talks|);
      assert doc.talks[..|doc.talks|] == doc.talks;
      assert TalkSteps(doc.talks) + LooseSteps([]) == TalkSteps(doc.talks);
    }
  }

  /** The steps of a document correspond one to one, in document order, to its nodes of a kind that
      is no container's, and each is the step of its node. */
  lemma StepsAreNodes(doc: Document)
    ensures InDocumentOrder(Places(doc))
    ensures forall place :: place in Places(doc) <==> IsStep(NodeAt(doc, place))
    ensures StepsOfPlaces(doc, DocumentSteps(doc), Places(doc))
  {
    PlacesOfInOrder(Roots(doc));
    forall place ensures place in Places(doc) <==> IsStep(NodeAt(doc, place)) {
      PlacesOfAre(Roots(doc), place);
    }
    LoosePlaces(doc, |doc.loose|);
    assert doc.loose[..|doc.loose|] == doc.loose && Roots(doc)[..|doc.talks| + |doc.loose|] == Roots(doc);
    hide PlacesOf, TalkSteps, LooseSteps, NodeAt, StepOf;
  }

  lemma {:induction false} NotBeforeItself(place: Place)
    ensures !Before(place, place)
    decreases |place|
  {
    if place != [] { NotBeforeItself(place[1..]); }
  }

  // ---- The model -------------------------------------------------------------------------------

  /** Every node that is no container has one step in the model, which stands exactly once over the
      lists of the streams, in its own stream's, and exactly once over those of the talks and the
      loose ones, in its talk's or its stream's. */
  lemma ModelListsEveryNodeOnce(
      m: ConversationModel, doc: Document, place: Place, streams: seq<string>, talks: seq<string>,
      looseStreams: seq<string>)
    returns (i: nat)
    requires m.Indexed(doc) && IsStep(NodeAt(doc, place))
    requires AllKeys(m.stepsByStream, streams) && AllKeys(m.stepsByTalk, talks)
    requires AllKeys(m.looseByStream, looseStreams)
    ensures i < |m.steps| == |Places(doc)| && m.steps[i] == StepOf(doc, place)
    ensures forall j :: 0 <= j < |Places(doc)| ==> (Places(doc)[j] == place <==> j == i)
    ensures Listings(m.stepsByStream, streams, i) == 1
    ensures Listings(m.stepsByTalk, talks, i) + Listings(m.looseByStream, looseStreams, i) == 1
    ensures var s := StepOf(doc, place);
      && s.stream in m.stepsByStream && i in m.stepsByStream[s.stream]
      && s.stream in m.flowByStream && i in m.flowByStream[s.stream]
      && if s.talk.Some? && s.talk.value != "" then s.talk.value in m.stepsByTalk && i in m.stepsByTalk[s.talk.value]
         else s.stream in m.looseByStream && i in m.looseByStream[s.stream]
  {
    StepsAreNodes(doc);
    i :| 0 <= i < |Places(doc)| && Places(doc)[i] == place;
    OnePlace(Places(doc), i);
    hide DocumentSteps, Places, NodeAt, StepOf, Indexes, AllKeys, Listings, InOrder, Identified, CardOrders;
    ModelListsEveryStepOnce(m, doc, streams, talks, looseStreams, i);
    ListedByKey(m.steps, m.stepsByStream, ByStream, i);
    ListedByKey(m.steps, m.flowByStream, ByStream, i);
    ListedByKey(m.steps, m.stepsByTalk, ByTalk, i);
    ListedByKey(m.steps, m.looseByStream, Loose, i);
  }

  lemma OnePlace(places: seq<Place>, i: nat)
    requires InDocumentOrder(places) && i < |places|
    ensures forall j :: 0 <= j < |places| ==> (places[j] == places[i] <==> j == i)
  {
    NotBeforeItself(places[i]);
  }

  lemma ListedByKey(steps: seq<Step>, m: Index, kind: By, i: nat)
    requires Indexes(m, steps, kind) && i < |steps|
    ensures var s := steps[i];
      match kind
      case ByStream => s.stream in m && i in m[s.stream]
      case ByTalk => s.talk.Some? && s.talk.value != "" ==> s.talk.value in m && i in m[s.talk.value]
      case Loose => !(s.talk.Some? && s.talk.value != "") ==> s.stream in m && i in m[s.stream]
  {
    var k := ListOf(kind, steps[i]);
    if k.Some? { assert Belongs(steps, kind, k.value, i); }
  }
}
