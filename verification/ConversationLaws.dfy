/** What the conversation index promises its readers. */
module ConversationLaws {
  import opened Options
  import opened Conversation

  // ---- Every step is listed once ---------------------------------------------------------

  /** How often step `i` is listed over all the lists of an index with keys `keys`. */
  function Listings(m: Index, keys: seq<string>, i: nat): nat
    requires forall k :: k in keys ==> k in m
  {
    if keys == [] then 0
    else multiset(m[keys[0]])[i] + Listings(m, keys[1..], i)
  }

  /** A list of an index holds a step once if the step belongs to it, else not at all. */
  lemma ListedInOwn(m: Index, steps: seq<Step>, kind: By, k: string, i: nat)
    requires Indexes(m, steps, kind) && k in m
    ensures multiset(m[k])[i] == if Belongs(steps, kind, k, i) then 1 else 0
  {
    OnceInDistinct(m[k], i);
    assert i in multiset(m[k]) <==> i in m[k];
    assert i in m[k] <==> Belongs(steps, kind, k, i);
  }

  lemma {:induction false} ListingsOf(m: Index, steps: seq<Step>, kind: By, keys: seq<string>, i: nat)
    requires Indexes(m, steps, kind) && forall k :: k in keys ==> k in m
    requires forall a, b :: 0 <= a < b < |keys| ==> keys[a] != keys[b]
    ensures Listings(m, keys, i) ==
      if i < |steps| && ListOf(kind, steps[i]).Some? && ListOf(kind, steps[i]).value in keys then 1 else 0
    decreases |keys|
  {
    if keys != [] {
      ListedInOwn(m, steps, kind, keys[0], i);
      ListingsOf(m, steps, kind, keys[1..], i);
      assert forall k :: k in keys <==> k == keys[0] || k in keys[1..];
      assert keys[0] !in keys[1..];
    }
  }

  /** Some listing of all the keys of an index, none twice. */
  ghost predicate AllKeys(m: Index, keys: seq<string>) {
    && (forall k :: k in keys <==> k in m)
    && (forall a, b :: 0 <= a < b < |keys| ==> keys[a] != keys[b])
  }

  /** Over the streams' lists every step of the document is listed exactly once, and over the
      talks' lists and the lists of loose steps together too. */
  lemma EveryStepListedOnce(
      steps: seq<Step>, byStream: Index, byTalk: Index, loose: Index,
      streams: seq<string>, talks: seq<string>, looseStreams: seq<string>, i: nat)
    requires Indexes(byStream, steps, ByStream) && AllKeys(byStream, streams)
    requires Indexes(byTalk, steps, ByTalk) && AllKeys(byTalk, talks)
    requires Indexes(loose, steps, Loose) && AllKeys(loose, looseStreams)
    requires i < |steps|
    ensures Listings(byStream, streams, i) == 1
    ensures Listings(byTalk, talks, i) + Listings(loose, looseStreams, i) == 1
  {
    ListingsOf(byStream, steps, ByStream, streams, i);
    ListingsOf(byTalk, steps, ByTalk, talks, i);
    ListingsOf(loose, steps, Loose, looseStreams, i);
  }

  /** So it is in the model of a document. */
  lemma ModelListsEveryStepOnce(
      m: ConversationModel, doc: Document, streams: seq<string>, talks: seq<string>, looseStreams: seq<string>, i: nat)
    requires m.Indexed(doc) && i < |DocumentSteps(doc)|
    requires AllKeys(m.stepsByStream, streams) && AllKeys(m.stepsByTalk, talks)
    requires AllKeys(m.looseByStream, looseStreams)
    ensures Listings(m.stepsByStream, streams, i) == 1
    ensures Listings(m.stepsByTalk, talks, i) + Listings(m.looseByStream, looseStreams, i) == 1
  {
    hide Indexes, AllKeys, Listings, Identified, CardOrders, InOrder;
    assert forall k :: k in streams ==> k in m.stepsByStream by { KeysKnown(m.stepsByStream, streams); }
    assert forall k :: k in talks ==> k in m.stepsByTalk by { KeysKnown(m.stepsByTalk, talks); }
    assert forall k :: k in looseStreams ==> k in m.looseByStream by { KeysKnown(m.looseByStream, looseStreams); }
    EveryStepListedOnce(m.steps, m.stepsByStream, m.stepsByTalk, m.looseByStream, streams, talks, looseStreams, i);
  }

  lemma KeysKnown(m: Index, keys: seq<string>)
    requires AllKeys(m, keys)
    ensures forall k :: k in keys ==> k in m
  {
  }

  // ---- Reading order ---------------------------------------------------------------------------

  /** The first landed position comes no later than the second. */
  predicate NoLater(a: Ref, b: Ref) {
    a.sequence < b.sequence || (a.sequence == b.sequence && a.row <= b.row)
  }

  ghost predicate AllLanded(steps: seq<Step>, list: seq<nat>) {
    forall k :: 0 <= k < |list| ==> list[k] < |steps| && steps[list[k]].ref.Some?
  }

  ghost predicate NoneLanded(steps: seq<Step>, list: seq<nat>) {
    forall k :: 0 <= k < |list| ==> list[k] < |steps| && steps[list[k]].ref.None?
  }

  /** In a stream whose steps have all landed, positions rise, and steps of one position stand by
      their places, whatever their times. */
  lemma PositionsRise(m: ConversationModel, doc: Document, stream: string, a: nat, b: nat)
    requires m.Indexed(doc) && stream in m.stepsByStream && a < b < |m.stepsByStream[stream]|
    requires AllLanded(m.steps, m.stepsByStream[stream])
    ensures var i, j := m.stepsByStream[stream][a], m.stepsByStream[stream][b];
      && NoLater(m.steps[i].ref.value, m.steps[j].ref.value)
      && (m.steps[i].ref == m.steps[j].ref ==> m.order[i] <= m.order[j])
  {
    hide CardOrders, Identified, Indexes;
    assert Uniform(false, m.steps, m.stepsByStream[stream]);
    assert Sorted(false, m.steps, m.order, m.stepsByStream[stream]);
  }

  /** In a stream of which no step has landed, times rise, and steps of one time stand by their places. */
  lemma UnlandedTimesRise(m: ConversationModel, doc: Document, stream: string, a: nat, b: nat)
    requires m.Indexed(doc) && stream in m.stepsByStream && a < b < |m.stepsByStream[stream]|
    requires NoneLanded(m.steps, m.stepsByStream[stream])
    ensures var i, j := m.stepsByStream[stream][a], m.stepsByStream[stream][b];
      && m.steps[i].at <= m.steps[j].at
      && (m.steps[i].at == m.steps[j].at ==> m.order[i] <= m.order[j])
  {
    hide CardOrders, Identified, Indexes;
    assert Uniform(false, m.steps, m.stepsByStream[stream]);
    assert Sorted(false, m.steps, m.order, m.stepsByStream[stream]);
  }

  /** In a stream's flow times rise, and steps of one time stand by their places. */
  lemma TimesRise(m: ConversationModel, doc: Document, stream: string, a: nat, b: nat)
    requires m.Indexed(doc) && stream in m.flowByStream && a < b < |m.flowByStream[stream]|
    ensures var i, j := m.flowByStream[stream][a], m.flowByStream[stream][b];
      && i < |m.steps| && j < |m.steps| && m.steps[i].at <= m.steps[j].at
      && (m.steps[i].at == m.steps[j].at ==> m.order[i] <= m.order[j])
  {
    hide CardOrders, Identified, Indexes;
    assert Sorted(true, m.steps, m.order, m.flowByStream[stream]);
  }

  // ---- A card and its call -----------------------------------------------------------------

  /** If step `i` stands before another step, that one is no card. */
  ghost predicate Unchained(steps: seq<Step>, byId: map<string, nat>, i: nat)
    requires i < |steps| && forall id :: id in byId ==> byId[id] < |steps|
  {
    var j := CardTarget(steps, byId, i);
    j.Some? && j.value != i ==> steps[j.value].kind != HISTORY_CHANGE
  }

  /** With unique ids a card stands before another step exactly when that step bears the id the card
      names, or, where it names none, the card's own. */
  lemma CardTargetExactly(steps: seq<Step>, byId: map<string, nat>, ids: seq<string>, i: nat, j: nat)
    requires Identified(steps, byId, ids) && UniqueIds(steps) && i < |steps| && j < |steps|
    ensures CardTarget(steps, byId, i) == Some(j) <==>
      && steps[i].kind == "history.change"
      && steps[j].id == (if steps[i].toCall.Some? then steps[i].toCall.value else steps[i].id)
  {
    assert steps[j].id in byId;
  }

  /** Where a step ends up: a card half a place before its call, as the call stands when the card
      is placed, which is the call's own final place only if it comes earlier in the document. */
  function PlaceOf(steps: seq<Step>, byId: map<string, nat>, i: nat): real
    requires i < |steps| && forall id :: id in byId ==> byId[id] < |steps|
    decreases i
  {
    match CardTarget(steps, byId, i)
    case Some(j) => (if j < i then PlaceOf(steps, byId, j) else j as real) - 0.5
    case None => i as real
  }

  lemma IdAt(steps: seq<Step>, byId: map<string, nat>, ids: seq<string>, i: nat)
    requires Identified(steps, byId, ids) && UniqueIds(steps) && i < |steps|
    ensures |ids| == |steps| && ids[i] == steps[i].id && ids[i] in byId && byId[ids[i]] == i
  {
    assert steps[byId[ids[i]]].id == steps[i].id;
  }

  ghost predicate Lookups(steps: seq<Step>, byId: map<string, nat>, ids: seq<string>) {
    (forall id :: id in byId ==> byId[id] < |steps|) && (forall id :: id in ids ==> id in byId)
  }

  /** After the first `n` ids the first `n` steps have their final places. */
  ghost predicate PlacedAfter(steps: seq<Step>, byId: map<string, nat>, ids: seq<string>, n: nat, i: nat)
    requires Lookups(steps, byId, ids) && n <= |ids| && i < |steps|
  {
    CardOrders(steps, byId, ids, n)[i] == if i < n then PlaceOf(steps, byId, i) else i as real
  }

  lemma {:induction false} OrdersAfter(steps: seq<Step>, byId: map<string, nat>, ids: seq<string>, n: nat, i: nat)
    requires Identified(steps, byId, ids) && UniqueIds(steps) && n <= |ids| && i < |steps|
    ensures Lookups(steps, byId, ids) && PlacedAfter(steps, byId, ids, n, i)
    decreases n
  {
    assert Lookups(steps, byId, ids);
    if n > 0 {
      IdAt(steps, byId, ids, 0);
      IdAt(steps, byId, ids, n - 1);
      hide Identified, UniqueIds, PlacedAfter, CardTarget;
      OrdersAfter(steps, byId, ids, n - 1, i);
      var target := CardTarget(steps, byId, n - 1);
      if target.Some? { OrdersAfter(steps, byId, ids, n - 1, target.value); }
      PlacedStep(steps, byId, ids, n, i);
    }
  }

  lemma PlacedStep(steps: seq<Step>, byId: map<string, nat>, ids: seq<string>, n: nat, i: nat)
    requires Lookups(steps, byId, ids) && 0 < n <= |ids| == |steps| && i < |steps|
    requires byId[ids[n - 1]] == n - 1 && PlacedAfter(steps, byId, ids, n - 1, i)
    requires var target := CardTarget(steps, byId, n - 1);
      target.Some? ==> PlacedAfter(steps, byId, ids, n - 1, target.value)
    ensures PlacedAfter(steps, byId, ids, n, i)
  {
    OrdersStep(steps, byId, ids, n, i);
    hide CardOrders, CardTarget;
  }

  lemma OrdersStep(steps: seq<Step>, byId: map<string, nat>, ids: seq<string>, n: nat, i: nat)
    requires Lookups(steps, byId, ids) && 0 < n <= |ids| && i < |steps|
    ensures var before, target := CardOrders(steps, byId, ids, n - 1), CardTarget(steps, byId, byId[ids[n - 1]]);
      CardOrders(steps, byId, ids, n)[i] ==
        if i == byId[ids[n - 1]] && target.Some? then before[target.value] - 0.5 else before[i]
  {
    hide CardTarget;
  }

  /** Where every step has its own id, every step ends up in its place. */
  lemma CardsTakeTheirPlaces(steps: seq<Step>, byId: map<string, nat>, ids: seq<string>, i: nat)
    requires Identified(steps, byId, ids) && UniqueIds(steps) && i < |steps|
    ensures CardOrders(steps, byId, ids, |ids|)[i] == PlaceOf(steps, byId, i)
  {
    OrdersAfter(steps, byId, ids, |ids|, i);
  }

  function FinalOrder(steps: seq<Step>, byId: map<string, nat>, i: nat): real
    requires i < |steps| && forall id :: id in byId ==> byId[id] < |steps|
  {
    match CardTarget(steps, byId, i)
    case Some(j) => (j as real) - 0.5
    case None => i as real
  }

  /** A card that names no other card ends up half a place before where its call stands. */
  lemma UnchainedPlace(steps: seq<Step>, byId: map<string, nat>, i: nat)
    requires i < |steps| && (forall id :: id in byId ==> byId[id] < |steps|) && Unchained(steps, byId, i)
    ensures PlaceOf(steps, byId, i) == FinalOrder(steps, byId, i)
  {
  }

  lemma PlacedUnchained(steps: seq<Step>, byId: map<string, nat>, ids: seq<string>, i: nat)
    requires Identified(steps, byId, ids) && UniqueIds(steps) && i < |steps| && Unchained(steps, byId, i)
    ensures CardOrders(steps, byId, ids, |ids|)[i] == FinalOrder(steps, byId, i)
  {
    CardsTakeTheirPlaces(steps, byId, ids, i);
    UnchainedPlace(steps, byId, i);
  }

  /** `c` is the only card of the list that stands before the call `t`, at the call's own record. */
  ghost predicate LoneCard(steps: seq<Step>, byId: map<string, nat>, list: seq<nat>, c: nat, t: nat)
    requires (forall id :: id in byId ==> byId[id] < |steps|) && Within(list, |steps|)
  {
    && c in list && t in list && c != t
    && CardTarget(steps, byId, c) == Some(t)
    && steps[c].ref == steps[t].ref
    && (forall k :: 0 <= k < |list| && list[k] != c ==> CardTarget(steps, byId, list[k]) != Some(t))
  }

  /** No other step of the list is ordered from the lone card to its call. */
  lemma NothingBetween(steps: seq<Step>, byId: map<string, nat>, list: seq<nat>, c: nat, t: nat, x: nat)
    requires (forall id :: id in byId ==> byId[id] < |steps|) && Within(list, |steps|)
    requires LoneCard(steps, byId, list, c, t) && x in list && x != c && x != t
    ensures x < |steps| && !((t as real) - 0.5 <= FinalOrder(steps, byId, x) <= t as real)
  {
    var k :| 0 <= k < |list| && list[k] == x;
    assert CardTarget(steps, byId, x) != Some(t);
  }

  /** All steps of the list have a landed position, `c` is a lone card on the record of its call
      `t`, and no card of that record names a card. */
  ghost predicate CardAlone(steps: seq<Step>, byId: map<string, nat>, list: seq<nat>, c: nat, t: nat) {
    && (forall id :: id in byId ==> byId[id] < |steps|)
    && Within(list, |steps|)
    && (forall k :: 0 <= k < |list| ==> steps[list[k]].ref.Some?)
    && LoneCard(steps, byId, list, c, t)
    && (forall k :: 0 <= k < |list| && steps[list[k]].ref == steps[c].ref ==> Unchained(steps, byId, list[k]))
  }

  /** In a sorted list such a card is immediately followed by its call. */
  lemma LoneCardBeforeItsCall(
      steps: seq<Step>, byId: map<string, nat>, ids: seq<string>, order: seq<real>, list: seq<nat>, c: nat, t: nat)
    returns (p: nat)
    requires Identified(steps, byId, ids) && UniqueIds(steps)
    requires order == CardOrders(steps, byId, ids, |ids|)
    requires Within(list, |steps|) && NoRepeats(list) && Sorted(false, steps, order, list)
    requires CardAlone(steps, byId, list, c, t)
    ensures p + 1 < |list| && list[p] == c && list[p + 1] == t
  {
    hide Identified, UniqueIds, CardOrders, Compare, CardTarget, Unchained;
    p :| 0 <= p < |list| && list[p] == c;
    var q :| 0 <= q < |list| && list[q] == t;
    CardAndCall(steps, byId, ids, list, c, t);
    hide CardAlone, LoneCard;
    assert p < q;
    if p + 1 < q {
      var x := list[p + 1];
      assert x in list && x != c && x != t;
      OnlyCardAndCall(steps, byId, ids, list, c, t, x);
    }
  }

  lemma CardAndCall(steps: seq<Step>, byId: map<string, nat>, ids: seq<string>, list: seq<nat>, c: nat, t: nat)
    requires Identified(steps, byId, ids) && UniqueIds(steps)
    requires CardAlone(steps, byId, list, c, t)
    ensures c < |steps| && t < |steps|
    ensures var order := CardOrders(steps, byId, ids, |ids|);
      && order[c] == (t as real) - 0.5 && order[t] == t as real && Compare(false, steps, order, t, c) > 0.0
  {
    var order := CardOrders(steps, byId, ids, |ids|);
    PlacedUnchained(steps, byId, ids, c);
    PlacedUnchained(steps, byId, ids, t);
    hide Identified, UniqueIds, CardOrders, Compare;
    CardBeforeCall(steps, byId, order, c, t);
  }

  lemma OnlyCardAndCall(
      steps: seq<Step>, byId: map<string, nat>, ids: seq<string>, list: seq<nat>, c: nat, t: nat, x: nat)
    requires Identified(steps, byId, ids) && UniqueIds(steps)
    requires CardAlone(steps, byId, list, c, t) && x in list && x < |steps| && c < |steps| && t < |steps|
    requires var order := CardOrders(steps, byId, ids, |ids|);
      Compare(false, steps, order, c, x) <= 0.0 && Compare(false, steps, order, x, t) <= 0.0
    ensures x == c || x == t
  {
    var order := CardOrders(steps, byId, ids, |ids|);
    CardAndCall(steps, byId, ids, list, c, t);
    assert steps[x].ref.Some?;
    hide Identified, UniqueIds, CardOrders, Compare, CardTarget;
    BetweenCardAndCall(steps, order, c, x, t);
    PlacedUnchained(steps, byId, ids, x);
    if x != c && x != t { NothingBetween(steps, byId, list, c, t, x); }
  }

  lemma CardBeforeCall(steps: seq<Step>, byId: map<string, nat>, order: seq<real>, c: nat, t: nat)
    requires c < |steps| && t < |steps| && |order| == |steps| && (forall id :: id in byId ==> byId[id] < |steps|)
    requires CardTarget(steps, byId, c) == Some(t) && c != t && Unchained(steps, byId, c)
    requires steps[c].ref.Some? && steps[c].ref == steps[t].ref
    requires order[c] == FinalOrder(steps, byId, c) && order[t] == FinalOrder(steps, byId, t)
    ensures order[c] == (t as real) - 0.5 && order[t] == t as real
    ensures Compare(false, steps, order, t, c) > 0.0
  {
  }

  /** So it is in the model of a document, in the list of every stream. */
  lemma ModelCardBeforeItsCall(m: ConversationModel, doc: Document, stream: string, c: nat, t: nat) returns (p: nat)
    requires m.Indexed(doc) && UniqueIds(m.steps) && stream in m.stepsByStream
    requires CardAlone(m.steps, m.stepById, m.stepsByStream[stream], c, t)
    ensures var list := m.stepsByStream[stream]; p + 1 < |list| && list[p] == c && list[p + 1] == t
  {
    hide *;
    StreamIsSorted(m, doc, stream, c, t);
    p := LoneCardBeforeItsCall(m.steps, m.stepById, m.ids, m.order, m.stepsByStream[stream], c, t);
  }

  lemma StreamIsSorted(m: ConversationModel, doc: Document, stream: string, c: nat, t: nat)
    requires m.Indexed(doc) && stream in m.stepsByStream
    requires CardAlone(m.steps, m.stepById, m.stepsByStream[stream], c, t)
    ensures Identified(m.steps, m.stepById, m.ids) && m.order == CardOrders(m.steps, m.stepById, m.ids, |m.ids|)
    ensures Within(m.stepsByStream[stream], |m.steps|) && NoRepeats(m.stepsByStream[stream])
    ensures Sorted(false, m.steps, m.order, m.stepsByStream[stream])
  {
    hide CardOrders, Sorted, Identified, Belongs, LoneCard, Unchained;
    assert Uniform(false, m.steps, m.stepsByStream[stream]);
  }

  lemma BetweenCardAndCall(steps: seq<Step>, order: seq<real>, c: nat, x: nat, t: nat)
    requires c < |steps| && x < |steps| && t < |steps| && |order| == |steps|
    requires steps[c].ref.Some? && steps[x].ref.Some? && steps[c].ref == steps[t].ref
    requires Compare(false, steps, order, c, x) <= 0.0 && Compare(false, steps, order, x, t) <= 0.0
    ensures steps[x].ref == steps[c].ref && order[c] <= order[x] <= order[t]
  {
  }

  // ---- Cards that name cards -----------------------------------------------------------------

  /** Five steps of one record: a card before the last of them, a card that names that card, a card
      before the call that comes next, and the two calls. */
  ghost predicate Chained(steps: seq<Step>, byId: map<string, nat>) {
    && |steps| == 5 && (forall id :: id in byId ==> byId[id] < 5)
    && CardTarget(steps, byId, 0) == Some(4) && CardTarget(steps, byId, 1) == Some(0)
    && CardTarget(steps, byId, 2) == Some(3)
    && CardTarget(steps, byId, 3) == CardTarget(steps, byId, 4) == None
    && forall i :: 0 <= i < 5 ==> steps[i].ref.Some? && steps[i].ref == steps[0].ref
  }

  lemma ChainPlaces(steps: seq<Step>, byId: map<string, nat>, ids: seq<string>)
    requires Identified(steps, byId, ids) && UniqueIds(steps) && Chained(steps, byId)
    ensures CardOrders(steps, byId, ids, |ids|) == [3.5, 3.0, 2.5, 3.0, 4.0]
  {
    var order := CardOrders(steps, byId, ids, |ids|);
    hide Identified, UniqueIds, CardOrders, CardTarget;
    forall i | 0 <= i < 5 ensures order[i] == PlaceOf(steps, byId, i) {
      CardsTakeTheirPlaces(steps, byId, ids, i);
    }
    assert order == [order[0], order[1], order[2], order[3], order[4]];
  }

  lemma ChainCompares(steps: seq<Step>, byId: map<string, nat>, order: seq<real>, a: nat, b: nat)
    requires Chained(steps, byId) && |order| == 5 && a < 5 && b < 5
    ensures Compare(false, steps, order, a, b) == order[a] - order[b]
  {
    hide CardTarget;
  }

  /** Only the third names the fourth, yet sorting puts the card that names a card between them. */
  lemma ChainedCardStandsBetween(steps: seq<Step>, byId: map<string, nat>, ids: seq<string>)
    requires Identified(steps, byId, ids) && UniqueIds(steps) && Chained(steps, byId)
    ensures LoneCard(steps, byId, [0, 1, 2, 3, 4], 2, 3)
    ensures var list, sorted, order := [0, 1, 2, 3, 4], [2, 1, 3, 0, 4], CardOrders(steps, byId, ids, |ids|);
      && multiset(sorted) == multiset(list)
      && Sorted(false, steps, order, sorted) && Stable(false, steps, order, list, sorted)
  {
    ChainPlaces(steps, byId, ids);
    ChainIsLone(steps, byId);
    hide *;
    ChainIsSorted(steps, byId, [3.5, 3.0, 2.5, 3.0, 4.0]);
  }

  lemma ChainIsSorted(steps: seq<Step>, byId: map<string, nat>, order: seq<real>)
    requires Chained(steps, byId) && order == [3.5, 3.0, 2.5, 3.0, 4.0]
    ensures var list, sorted := [0, 1, 2, 3, 4], [2, 1, 3, 0, 4];
      && |steps| == 5 && Within(list, 5) && Within(sorted, 5) && multiset(sorted) == multiset(list)
      && Sorted(false, steps, order, sorted) && Stable(false, steps, order, list, sorted)
  {
    hide *;
    ChainLists();
    ChainComparesAll(steps, byId, order);
    ChainTies(steps, order);
    ChainSorted(steps, order);
  }

  lemma ChainLists()
    ensures Within([0, 1, 2, 3, 4], 5) && Within([2, 1, 3, 0, 4], 5)
    ensures multiset([2, 1, 3, 0, 4]) == multiset([0, 1, 2, 3, 4])
  {
    ChainEntries();
  }

  lemma ChainEntries()
    ensures multiset([2, 1, 3, 0, 4]) == multiset([0, 1, 2, 3, 4])
  {
  }

  lemma ChainComparesAll(steps: seq<Step>, byId: map<string, nat>, order: seq<real>)
    requires Chained(steps, byId) && |order| == 5
    ensures |steps| == 5
    ensures forall a, b :: 0 <= a < 5 && 0 <= b < 5 ==> Compare(false, steps, order, a, b) == order[a] - order[b]
  {
    hide Compare, CardTarget;
    forall a, b | 0 <= a < 5 && 0 <= b < 5 ensures Compare(false, steps, order, a, b) == order[a] - order[b] {
      ChainCompares(steps, byId, order, a, b);
    }
  }

  lemma ChainIsLone(steps: seq<Step>, byId: map<string, nat>)
    requires Chained(steps, byId)
    ensures LoneCard(steps, byId, [0, 1, 2, 3, 4], 2, 3)
  {
    assert steps[2].ref == steps[3].ref;
    hide CardTarget;
  }

  lemma ChainSorted(steps: seq<Step>, order: seq<real>)
    requires |steps| == 5 && order == [3.5, 3.0, 2.5, 3.0, 4.0]
    requires forall a, b :: 0 <= a < 5 && 0 <= b < 5 ==> Compare(false, steps, order, a, b) == order[a] - order[b]
    ensures Sorted(false, steps, order, [2, 1, 3, 0, 4])
  {
    hide Compare;
  }

  lemma ChainTies(steps: seq<Step>, order: seq<real>)
    requires |steps| == 5 && order == [3.5, 3.0, 2.5, 3.0, 4.0]
    requires forall a, b :: 0 <= a < 5 && 0 <= b < 5 ==> Compare(false, steps, order, a, b) == order[a] - order[b]
    ensures Stable(false, steps, order, [0, 1, 2, 3, 4], [2, 1, 3, 0, 4])
  {
    hide Compare;
    forall x | 0 <= x < 5
      ensures Ties(false, steps, order, [2, 1, 3, 0, 4], x) == Ties(false, steps, order, [0, 1, 2, 3, 4], x)
    {
      TiesOfFive(steps, order, 2, 1, 3, 0, 4, x);
      TiesOfFive(steps, order, 0, 1, 2, 3, 4, x);
      hide Ties;
    }
  }

  lemma TwoMoreTies(steps: seq<Step>, order: seq<real>, list: seq<nat>, a: nat, b: nat, x: nat)
    requires |steps| == |order| == 5 && Within(list, 5) && a < 5 && b < 5 && x < 5
    ensures Within(list + [a, b], 5)
    ensures Ties(false, steps, order, list + [a, b], x) ==
      Ties(false, steps, order, list, x) + IfTied(false, steps, order, a, x) + IfTied(false, steps, order, b, x)
  {
    hide Ties, IfTied;
    TiesAppended(false, steps, order, list, a, x);
    TiesAppended(false, steps, order, list + [a], b, x);
    assert list + [a] + [b] == list + [a, b];
  }

  lemma TiesOfFive(steps: seq<Step>, order: seq<real>, a: nat, b: nat, c: nat, d: nat, e: nat, x: nat)
    requires |steps| == |order| == 5 && a < 5 && b < 5 && c < 5 && d < 5 && e < 5 && x < 5
    ensures Ties(false, steps, order, [a, b, c, d, e], x) ==
      IfTied(false, steps, order, a, x) + IfTied(false, steps, order, b, x) + IfTied(false, steps, order, c, x)
        + IfTied(false, steps, order, d, x) + IfTied(false, steps, order, e, x)
  {
    TiesAppended(false, steps, order, [], a, x);
    assert [] + [a] == [a] && [a] + [b, c] == [a, b, c] && [a, b, c] + [d, e] == [a, b, c, d, e];
    hide IfTied;
    assert Ties(false, steps, order, [], x) == [];
    hide Ties;
    TwoMoreTies(steps, order, [a], b, c, x);
    TwoMoreTies(steps, order, [a, b, c], d, e, x);
  }
}
