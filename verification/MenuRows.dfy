/** The rows of a layer's menu and the faults of a stored order, each told by its place. */
module MenuRows {
  import opened Options
  import opened MenuOrder

  // ---- The rows of a layer ---------------------------------------------------------------------

  /** A built-in row by its position in the default order, and after it its pages from one. */
  type Place = (nat, nat)

  predicate Before(a: Place, b: Place) {
    a.0 < b.0 || (a.0 == b.0 && a.1 < b.1)
  }

  /** The layer shows the built-in row and, for a page, it is the row of a component that has one. */
  predicate IsRow(layer: Layer, p: Place) {
    && p.0 < |DEFAULT_ORDER| && DEFAULT_ORDER[p.0] in layer.shown
    && (p.1 == 0
        || (DEFAULT_ORDER[p.0] in {"service", "instance", "endpoint"} && DEFAULT_ORDER[p.0] in layer.pages
            && p.1 <= |layer.pages[DEFAULT_ORDER[p.0]]|))
  }

  function RowOf(layer: Layer, p: Place): Row
    requires IsRow(layer, p)
  {
    var path := DEFAULT_ORDER[p.0];
    if p.1 == 0 then Row(path, if path in layer.names then Some(layer.names[path]) else None)
    else
      var page := layer.pages[path][p.1 - 1];
      Row(path + "/" + page.id, Some(page.name))
  }

  function GroupPlaces(layer: Layer, c: nat): (r: seq<Place>)
    requires c < |DEFAULT_ORDER|
    ensures forall i :: 0 <= i < |r| ==> r[i] == (c, i)
  {
    seq(|Group(layer, DEFAULT_ORDER[c])|, i => (c, i))
  }

  function RowPlaces(layer: Layer, n: nat): seq<Place>
    requires n <= |DEFAULT_ORDER|
  {
    if n == 0 then [] else RowPlaces(layer, n - 1) + GroupPlaces(layer, n - 1)
  }

  ghost predicate RowsAt(layer: Layer, rows: seq<Row>, places: seq<Place>) {
    && |rows| == |places|
    && forall i :: 0 <= i < |rows| ==> IsRow(layer, places[i]) && rows[i] == RowOf(layer, places[i])
  }

  lemma GroupRowsAt(layer: Layer, c: nat)
    requires c < |DEFAULT_ORDER|
    ensures RowsAt(layer, Group(layer, DEFAULT_ORDER[c]), GroupPlaces(layer, c))
    ensures forall k: nat :: k < |Group(layer, DEFAULT_ORDER[c])| <==> IsRow(layer, (c, k))
  {
    var path := DEFAULT_ORDER[c];
    hide DEFAULT_ORDER;
  }

  lemma {:induction false} RowsOfPlaces(layer: Layer, n: nat)
    requires n <= |DEFAULT_ORDER|
    ensures RowsAt(layer, Groups(layer, DEFAULT_ORDER[..n]), RowPlaces(layer, n))
  {
    hide DEFAULT_ORDER;
    if n > 0 {
      RowsOfPlaces(layer, n - 1);
      GroupRowsAt(layer, n - 1);
      GroupsNext(layer, n);
      RowPlacesNext(layer, n);
      hide *;
      RowsTogether(layer, Groups(layer, DEFAULT_ORDER[..n - 1]), RowPlaces(layer, n - 1),
        Group(layer, DEFAULT_ORDER[n - 1]), GroupPlaces(layer, n - 1));
    }
  }

  lemma GroupsNext(layer: Layer, n: nat)
    requires 0 < n <= |DEFAULT_ORDER|
    ensures Groups(layer, DEFAULT_ORDER[..n]) ==
      Groups(layer, DEFAULT_ORDER[..n - 1]) + Group(layer, DEFAULT_ORDER[n - 1])
  {
    hide Group, DEFAULT_ORDER;
    assert DEFAULT_ORDER[..n][..n - 1] == DEFAULT_ORDER[..n - 1];
  }

  lemma RowsTogether(layer: Layer, a: seq<Row>, p: seq<Place>, b: seq<Row>, q: seq<Place>)
    requires RowsAt(layer, a, p) && RowsAt(layer, b, q)
    ensures RowsAt(layer, a + b, p + q)
  {
    hide IsRow, RowOf;
  }

  lemma {:induction false} PlacesAre(layer: Layer, n: nat, p: Place)
    requires n <= |DEFAULT_ORDER|
    ensures p in RowPlaces(layer, n) <==> p.0 < n && IsRow(layer, p)
  {
    hide *;
    if n == 0 {
      NoPlaces(layer, p);
    } else {
      PlacesAre(layer, n - 1, p);
      RowPlacesNext(layer, n);
      InGroup(layer, n - 1, p);
      InEither(RowPlaces(layer, n - 1), GroupPlaces(layer, n - 1), p);
    }
  }

  lemma NoPlaces(layer: Layer, p: Place)
    ensures p !in RowPlaces(layer, 0)
  {
  }

  lemma InEither(a: seq<Place>, b: seq<Place>, p: Place)
    ensures p in a + b <==> p in a || p in b
  {
  }

  lemma InGroup(layer: Layer, c: nat, p: Place)
    requires c < |DEFAULT_ORDER|
    ensures p in GroupPlaces(layer, c) <==> p.0 == c && IsRow(layer, p)
  {
    GroupRowsAt(layer, c);
    var b := GroupPlaces(layer, c);
    hide DEFAULT_ORDER, IsRow, RowOf;
    if p.0 == c && IsRow(layer, p) { assert p == (c, p.1) == b[p.1]; }
    if p in b { assert p == (c, p.1); }
  }

  lemma {:induction false} PlacesRise(layer: Layer, n: nat)
    requires n <= |DEFAULT_ORDER|
    ensures forall i, j :: 0 <= i < j < |RowPlaces(layer, n)| ==> Before(RowPlaces(layer, n)[i], RowPlaces(layer, n)[j])
  {
    hide DEFAULT_ORDER, Group, IsRow;
    if n > 0 {
      PlacesRise(layer, n - 1);
      var a := RowPlaces(layer, n - 1);
      forall i | 0 <= i < |a| ensures a[i].0 < n - 1 {
        PlacesAre(layer, n - 1, a[i]);
        assert a[i] in a;
      }
      hide RowPlaces;
      RowPlacesNext(layer, n);
    }
  }

  lemma RowPlacesNext(layer: Layer, n: nat)
    requires 0 < n <= |DEFAULT_ORDER|
    ensures RowPlaces(layer, n) == RowPlaces(layer, n - 1) + GroupPlaces(layer, n - 1)
  {
    hide GroupPlaces, DEFAULT_ORDER;
  }

  /** The menu of a layer without a stored order: one row for each place that is one, in order. */
  lemma MenuRowsExactly(layer: Layer) returns (places: seq<Place>)
    ensures RowsAt(layer, Groups(layer, DEFAULT_ORDER), places)
    ensures forall p :: p in places <==> IsRow(layer, p)
    ensures forall i, j :: 0 <= i < j < |places| ==> Before(places[i], places[j])
  {
    hide *;
    places := RowPlaces(layer, |DEFAULT_ORDER|);
    RowsOfPlaces(layer, |DEFAULT_ORDER|);
    assert DEFAULT_ORDER[..|DEFAULT_ORDER|] == DEFAULT_ORDER;
    PlacesRise(layer, |DEFAULT_ORDER|);
    forall p ensures p in places <==> IsRow(layer, p) {
      PlacesAre(layer, |DEFAULT_ORDER|, p);
      RowIsListed(layer, p);
    }
  }

  lemma RowIsListed(layer: Layer, p: Place)
    ensures IsRow(layer, p) ==> p.0 < |DEFAULT_ORDER|
  {
  }

  /** Of several rows with one path the order places the last. */
  lemma {:induction false} LastRowIsNamed(rows: seq<Row>, path: string) returns (i: nat)
    requires HasPath(rows, path)
    ensures i < |rows| && RowAt(rows, path) == rows[i] && rows[i].path == path
    ensures forall j :: i < j < |rows| ==> rows[j].path != path
  {
    var last := |rows| - 1;
    if rows[last].path == path { i := last; } else { i := LastRowIsNamed(rows[..last], path); }
  }

  // ---- The faults of an order ------------------------------------------------------------------

  /** The path is named before, or no row has it. */
  function FaultAt(order: seq<string>, rows: seq<Row>, i: nat): Option<Issue>
    requires i < |order|
  {
    if exists j :: 0 <= j < i && order[j] == order[i] then Some(Duplicate(order[i]))
    else if forall r :: r in rows ==> r.path != order[i] then Some(Unknown(order[i]))
    else None
  }

  function Faults(order: seq<string>, rows: seq<Row>): seq<nat> {
    if order == [] then []
    else
      var n := |order| - 1;
      Faults(order[..n], rows) + if FaultAt(order, rows, n).Some? then [n] else []
  }

  lemma FaultInPrefix(order: seq<string>, rows: seq<Row>, n: nat, i: nat)
    requires i < n <= |order|
    ensures FaultAt(order[..n], rows, i) == FaultAt(order, rows, i)
  {
    assert forall j :: 0 <= j < n ==> order[..n][j] == order[j];
  }

  lemma NoRowHas(rows: seq<Row>, path: string)
    ensures HasPath(rows, path) <==> !(forall r :: r in rows ==> r.path != path)
  {
  }

  ghost predicate IssuesAt(order: seq<string>, rows: seq<Row>, issues: seq<Issue>, at: seq<nat>) {
    && |issues| == |at|
    && (forall k :: 0 <= k < |at| ==> at[k] < |order| && FaultAt(order, rows, at[k]) == Some(issues[k]))
    && (forall i :: 0 <= i < |order| ==> (i in at <==> FaultAt(order, rows, i).Some?))
    && (forall k, l :: 0 <= k < l < |at| ==> at[k] < at[l])
  }

  /** The issues of an order are its faults, in order. */
  lemma {:induction false} IssuesAreFaults(order: seq<string>, rows: seq<Row>)
    ensures IssuesAt(order, rows, Issues(order, rows), Faults(order, rows))
  {
    if order != [] {
      var n := |order| - 1;
      IssuesAreFaults(order[..n], rows);
      IssuesNext(order, rows);
      hide *;
      FaultsTogether(order, rows, Issues(order[..n], rows), Faults(order[..n], rows));
    }
  }

  lemma IssuesNext(order: seq<string>, rows: seq<Row>)
    requires order != []
    ensures var n, fault := |order| - 1, FaultAt(order, rows, |order| - 1);
      && Issues(order, rows) == Issues(order[..n], rows) + (if fault.Some? then [fault.value] else [])
      && Faults(order, rows) == Faults(order[..n], rows) + (if fault.Some? then [n] else [])
  {
    var n := |order| - 1;
    NoRowHas(rows, order[n]);
    assert order[n] in order[..n] <==> exists j :: 0 <= j < n && order[j] == order[n];
    hide HasPath;
  }

  lemma FaultsTogether(order: seq<string>, rows: seq<Row>, issues: seq<Issue>, at: seq<nat>)
    requires order != [] && IssuesAt(order[..|order| - 1], rows, issues, at)
    ensures var n, fault := |order| - 1, FaultAt(order, rows, |order| - 1);
      IssuesAt(order, rows,
        issues + (if fault.Some? then [fault.value] else []), at + (if fault.Some? then [n] else []))
  {
    var n := |order| - 1;
    forall i | 0 <= i < n ensures FaultAt(order[..n], rows, i) == FaultAt(order, rows, i) {
      FaultInPrefix(order, rows, n, i);
    }
    hide FaultAt;
    assert forall k :: 0 <= k < |at| ==> at[k] < n;
  }
}
