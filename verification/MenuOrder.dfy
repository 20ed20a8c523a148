/** The rows of a layer's menu and the operator's stored order over them. */
module MenuOrder {
  import opened Options

  /** `name` is the operator's name of a row; a built-in row without one is labelled elsewhere. */
  datatype Row = Row(path: string, name: Option<string>)

  datatype Page = Page(id: string, name: string)

  /** `shown` are the built-in rows whose conditions the layer meets, `names` the trimmed names
      its template gives trace rows, `pages` the extension pages per component. */
  datatype Layer = Layer(
    shown: set<string>,
    names: map<string, string>,
    pages: map<string, seq<Page>>,
    menuOrder: Option<seq<string>>)

  const DEFAULT_ORDER: seq<string> := [
    "service", "instance", "endpoint", "topology", "deployment", "dependency",
    "trace", "zipkin-trace", "traceql-native-trace", "traceql-zipkin-trace", "traceql-otlp-trace",
    "logs", "evaluation-record", "browser-errors", "pod-logs", "conversations",
    "trace-profiling", "ebpf-profiling", "network-profiling", "continuous-profiling",
    "pprof", "async-profiling"]

  const PAGE_HOSTS: set<string> := {"service", "instance", "endpoint"}

  // ---- The operator's order --------------------------------------------------------------

  predicate HasPath(rows: seq<Row>, path: string) {
    exists i :: 0 <= i < |rows| && rows[i].path == path
  }

  /** The row a path names: of several rows with one path, the last. */
  function RowAt(rows: seq<Row>, path: string): (r: Row)
    requires HasPath(rows, path)
    ensures r in rows && r.path == path
  {
    var last := |rows| - 1;
    if rows[last].path == path then rows[last] else RowAt(rows[..last], path)
  }

  /** The rows an order names, in its order, each once. */
  function Named(rows: seq<Row>, order: seq<string>): seq<Row> {
    if order == [] then []
    else
      var before, path := order[..|order| - 1], order[|order| - 1];
      if HasPath(rows, path) && path !in before then Named(rows, before) + [RowAt(rows, path)] else Named(rows, before)
  }

  /** The rows the order names (`keep`), or those it does not name, as they stood. */
  function Chosen(rows: seq<Row>, order: seq<string>, keep: bool): seq<Row> {
    if rows == [] then []
    else
      var before, row := rows[..|rows| - 1], rows[|rows| - 1];
      if (row.path in order) == keep then Chosen(before, order, keep) + [row] else Chosen(before, order, keep)
  }

  function Arranged(rows: seq<Row>, order: seq<string>): seq<Row> {
    if order == [] then rows else Named(rows, order) + Chosen(rows, order, false)
  }

  lemma HasPathStep(rows: seq<Row>, i: nat, p: string)
    requires i < |rows|
    ensures HasPath(rows[..i + 1], p) <==> HasPath(rows[..i], p) || p == rows[i].path
    ensures HasPath(rows[..i + 1], p) ==>
      RowAt(rows[..i + 1], p) == if rows[i].path == p then rows[i] else RowAt(rows[..i], p)
  {
    assert rows[..i + 1][..i] == rows[..i] && rows[..i + 1][i] == rows[i];
    if HasPath(rows[..i], p) {
      var k :| 0 <= k < i && rows[..i][k].path == p;
      assert rows[..i + 1][k].path == p;
    }
  }

  method IndexByPath(rows: seq<Row>) returns (byPath: map<string, Row>)
    ensures forall p :: p in byPath <==> HasPath(rows, p)
    ensures forall p :: p in byPath ==> byPath[p] == RowAt(rows, p)
  {
    byPath := map[];
    for i := 0 to |rows|
      invariant forall p :: p in byPath <==> HasPath(rows[..i], p)
      invariant forall p :: p in byPath ==> byPath[p] == RowAt(rows[..i], p)
    {
      forall p {
        HasPathStep(rows, i, p);
      }
      hide HasPath, RowAt;
      byPath := byPath[rows[i].path := rows[i]];
    }
    assert rows[..|rows|] == rows;
  }

  method ApplyMenuOrder(rows: seq<Row>, order: Option<seq<string>>) returns (out: seq<Row>)
    ensures out == if order.Some? then Arranged(rows, order.value) else rows
  {
    if order.None? || order.value == [] { return rows; }
    hide HasPath, RowAt;
    var stored := order.value;
    var byPath := IndexByPath(rows);
    out := [];
    var placed: set<string> := {};
    for i := 0 to |stored|
      invariant out == Named(rows, stored[..i])
      invariant forall p :: p in placed <==> p in stored[..i] && HasPath(rows, p)
    {
      var path := stored[i];
      assert stored[..i + 1][..i] == stored[..i];
      assert stored[..i + 1] == stored[..i] + [path];
      if path in byPath && path !in placed {
        placed := placed + {path};
        out := out + [byPath[path]];
      }
    }
    assert stored[..|stored|] == stored;
    for i := 0 to |rows|
      invariant out == Named(rows, stored) + Chosen(rows[..i], stored, false)
    {
      assert rows[..i + 1][..i] == rows[..i];
      assert HasPath(rows, rows[i].path) by { OwnPath(rows, i); }
      if rows[i].path !in placed { out := out + [rows[i]]; }
    }
    assert rows[..|rows|] == rows;
  }

  lemma OwnPath(rows: seq<Row>, i: nat)
    requires i < |rows|
    ensures HasPath(rows, rows[i].path)
  {
  }

  predicate DistinctPaths(rows: seq<Row>) {
    forall i, j :: 0 <= i < j < |rows| ==> rows[i].path != rows[j].path
  }

  lemma {:induction false} NamedOnce(rows: seq<Row>, order: seq<string>)
    ensures DistinctPaths(Named(rows, order))
    ensures forall r :: r in Named(rows, order) <==>
      HasPath(rows, r.path) && r.path in order && r == RowAt(rows, r.path)
  {
    if order != [] {
      var before, path := order[..|order| - 1], order[|order| - 1];
      NamedOnce(rows, before);
      assert order == before + [path];
      assert forall p :: p in order <==> p in before || p == path;
      if HasPath(rows, path) && path !in before {
        var named, row := Named(rows, before), RowAt(rows, path);
        assert Named(rows, order) == named + [row];
        hide Named, RowAt, HasPath;
        assert forall i :: 0 <= i < |named| ==> named[i] in named && named[i].path != path;
      }
    }
  }

  lemma {:induction false} ChosenAre(rows: seq<Row>, order: seq<string>, keep: bool)
    ensures forall r :: r in Chosen(rows, order, keep) <==> r in rows && (r.path in order) == keep
  {
    if rows != [] {
      ChosenAre(rows[..|rows| - 1], order, keep);
      assert rows == rows[..|rows| - 1] + [rows[|rows| - 1]];
    }
  }

  lemma {:induction false} ChosenCount(rows: seq<Row>, order: seq<string>)
    ensures multiset(rows) == multiset(Chosen(rows, order, true)) + multiset(Chosen(rows, order, false))
  {
    if rows != [] {
      ChosenCount(rows[..|rows| - 1], order);
      assert rows == rows[..|rows| - 1] + [rows[|rows| - 1]];
    }
  }

  lemma ChosenSplits(rows: seq<Row>, order: seq<string>)
    ensures multiset(rows) == multiset(Chosen(rows, order, true)) + multiset(Chosen(rows, order, false))
    ensures forall r :: r in Chosen(rows, order, true) <==> r in rows && r.path in order
    ensures forall r :: r in Chosen(rows, order, false) <==> r in rows && r.path !in order
  {
    ChosenCount(rows, order);
    ChosenAre(rows, order, true);
    ChosenAre(rows, order, false);
  }

  /** No path the order names belongs to two rows. */
  predicate NamesAreUnambiguous(rows: seq<Row>, order: seq<string>) {
    forall i, j :: 0 <= i < j < |rows| && rows[i].path == rows[j].path ==> rows[i].path !in order
  }

  lemma {:induction false} ChosenDistinct(rows: seq<Row>, order: seq<string>)
    ensures DistinctPaths(Chosen(rows, order, true)) <==> NamesAreUnambiguous(rows, order)
  {
    hide *;
    if |rows| == 0 {
      NothingChosen(rows, order);
    } else {
      var before, row := rows[..|rows| - 1], rows[|rows| - 1];
      var chosen := Chosen(before, order, true);
      ChosenDistinct(before, order);
      ChosenSplits(before, order);
      ChosenPaths(before, chosen, order, row.path);
      DistinctAppend(chosen, row);
      UnambiguousAppend(before, row, order);
      ChosenStep(rows, order);
      assert rows == before + [row];
    }
  }

  lemma NothingChosen(rows: seq<Row>, order: seq<string>)
    requires |rows| == 0
    ensures DistinctPaths(Chosen(rows, order, true)) && NamesAreUnambiguous(rows, order)
  {
  }

  lemma ChosenStep(rows: seq<Row>, order: seq<string>)
    requires rows != []
    ensures var before, row := Chosen(rows[..|rows| - 1], order, true), rows[|rows| - 1];
      Chosen(rows, order, true) == if row.path in order then before + [row] else before
  {
  }

  lemma ChosenPaths(rows: seq<Row>, chosen: seq<Row>, order: seq<string>, p: string)
    requires forall r :: r in chosen <==> r in rows && r.path in order
    ensures HasPath(chosen, p) <==> HasPath(rows, p) && p in order
  {
    if HasPath(rows, p) && p in order {
      var i :| 0 <= i < |rows| && rows[i].path == p;
      assert rows[i] in chosen;
    }
    if HasPath(chosen, p) {
      var i :| 0 <= i < |chosen| && chosen[i].path == p;
      assert chosen[i] in rows;
    }
  }

  lemma DistinctAppend(rows: seq<Row>, row: Row)
    ensures DistinctPaths(rows + [row]) <==> DistinctPaths(rows) && !HasPath(rows, row.path)
  {
    var all := rows + [row];
    assert all[|rows|] == row && forall i :: 0 <= i < |rows| ==> all[i] == rows[i];
  }

  lemma UnambiguousAppend(rows: seq<Row>, row: Row, order: seq<string>)
    ensures NamesAreUnambiguous(rows + [row], order) <==>
      NamesAreUnambiguous(rows, order) && !(HasPath(rows, row.path) && row.path in order)
  {
    var all := rows + [row];
    assert all[|rows|] == row && forall i :: 0 <= i < |rows| ==> all[i] == rows[i];
  }

  lemma SameRowsSameDistinctness(a: seq<Row>, b: seq<Row>)
    requires multiset(a) == multiset(b) && DistinctPaths(a)
    ensures DistinctPaths(b)
  {
    forall i, j | 0 <= i < j < |b| ensures b[i].path != b[j].path {
      assert b[i] in multiset(b) && b[j] in multiset(b);
      assert b[i] in a && b[j] in a;
      Twice(b, i, j);
      OnceIn(a, b[i]);
    }
  }

  lemma Twice(rows: seq<Row>, i: nat, j: nat)
    requires i < j < |rows|
    ensures rows[i] == rows[j] ==> multiset(rows)[rows[i]] >= 2
  {
    assert rows == rows[..i] + [rows[i]] + rows[i + 1..j] + [rows[j]] + rows[j + 1..];
  }

  lemma SameRows(a: seq<Row>, b: seq<Row>)
    requires DistinctPaths(a) && DistinctPaths(b) && forall r :: r in a <==> r in b
    ensures multiset(a) == multiset(b)
  {
    forall r ensures multiset(a)[r] == multiset(b)[r] {
      OnceIn(a, r);
      OnceIn(b, r);
    }
  }

  lemma {:induction false} OnceIn(rows: seq<Row>, r: Row)
    requires DistinctPaths(rows)
    ensures multiset(rows)[r] == if r in rows then 1 else 0
  {
    if r in rows {
      var x :| 0 <= x < |rows| && rows[x] == r;
      assert rows == rows[..x] + [r] + rows[x + 1..];
      assert r !in rows[..x] && r !in rows[x + 1..];
    }
  }

  /** Reordering loses no row, and repeats none, exactly when no path the order names belongs to
      two rows. */
  lemma ReorderingLosesNothing(rows: seq<Row>, order: seq<string>)
    ensures multiset(Arranged(rows, order)) == multiset(rows) <==> NamesAreUnambiguous(rows, order)
  {
    if order != [] {
      NamedAgainstChosen(rows, order);
      ChosenSplits(rows, order);
      hide NamesAreUnambiguous, Named, Chosen;
      assert multiset(Arranged(rows, order)) == multiset(Named(rows, order)) + multiset(Chosen(rows, order, false));
      Cancel(multiset(Named(rows, order)), multiset(Chosen(rows, order, true)), multiset(Chosen(rows, order, false)));
    }
  }

  lemma Cancel<T>(a: multiset<T>, b: multiset<T>, c: multiset<T>)
    ensures a + c == b + c <==> a == b
  {
    assert a + c - c == a && b + c - c == b;
  }

  lemma NamedAgainstChosen(rows: seq<Row>, order: seq<string>)
    ensures multiset(Named(rows, order)) == multiset(Chosen(rows, order, true)) <==> NamesAreUnambiguous(rows, order)
  {
    var named, chosen := Named(rows, order), Chosen(rows, order, true);
    NamedOnce(rows, order);
    ChosenDistinct(rows, order);
    hide RowAt, HasPath;
    if NamesAreUnambiguous(rows, order) {
      forall r ensures r in named <==> r in chosen {
        NamedIsChosen(rows, order, r);
      }
      SameRows(named, chosen);
    } else if multiset(named) == multiset(chosen) {
      SameRowsSameDistinctness(named, chosen);
      assert false;
    }
  }

  lemma NamedIsChosen(rows: seq<Row>, order: seq<string>, r: Row)
    requires NamesAreUnambiguous(rows, order)
    ensures r in Named(rows, order) <==> r in Chosen(rows, order, true)
  {
    NamedOnce(rows, order);
    ChosenSplits(rows, order);
    if r in rows && r.path in order {
      var i :| 0 <= i < |rows| && rows[i] == r;
      OwnPath(rows, i);
      var j :| 0 <= j < |rows| && rows[j] == RowAt(rows, r.path);
      assert i == j;
    }
  }

  function FirstAt(order: seq<string>, path: string): (i: nat)
    requires path in order
    ensures i < |order| && order[i] == path && path !in order[..i]
  {
    if order[0] == path then 0 else 1 + FirstAt(order[1..], path)
  }

  /** The named rows come first, in the order their paths first appear in the stored order;
      the others follow, in the order they had. */
  lemma NamedRowsLead(rows: seq<Row>, order: seq<string>, i: nat, j: nat)
    requires order != [] && i < j < |Arranged(rows, order)|
    ensures var out := Arranged(rows, order);
      && Chosen(out, order, false) == Chosen(rows, order, false)
      && (out[j].path in order ==> out[i].path in order && FirstAt(order, out[i].path) < FirstAt(order, out[j].path))
  {
    var named, rest := Named(rows, order), Chosen(rows, order, false);
    NamedOnce(rows, order);
    ChosenSplits(rows, order);
    hide *;
    assert Arranged(rows, order) == named + rest by { ArrangedIs(rows, order); }
    ChosenOfAll(named, rest, order);
    if j < |named| {
      NamedInOrder(rows, order, i, j);
    } else {
      assert (named + rest)[j] == rest[j - |named|] && rest[j - |named|] in rest;
    }
  }

  lemma ArrangedIs(rows: seq<Row>, order: seq<string>)
    requires order != []
    ensures Arranged(rows, order) == Named(rows, order) + Chosen(rows, order, false)
  {
    hide Named, Chosen;
  }

  lemma {:induction false} ChosenOfAll(named: seq<Row>, rest: seq<Row>, order: seq<string>)
    requires forall r :: r in named ==> r.path in order
    requires forall r :: r in rest ==> r.path !in order
    ensures Chosen(named + rest, order, false) == rest
    decreases |named| + |rest|
  {
    if rest != [] {
      var before := rest[..|rest| - 1];
      assert (named + rest)[..|named + rest| - 1] == named + before;
      ChosenOfAll(named, before, order);
    } else if named != [] {
      assert named + rest == named;
      var before := named[..|named| - 1];
      ChosenOfAll(before, [], order);
      assert before + [] == before;
    }
  }

  lemma {:induction false} NamedInOrder(rows: seq<Row>, order: seq<string>, i: nat, j: nat)
    requires i < j < |Named(rows, order)|
    ensures var out := Named(rows, order);
      out[i].path in order && out[j].path in order && FirstAt(order, out[i].path) < FirstAt(order, out[j].path)
    decreases |order|
  {
    var before, path := order[..|order| - 1], order[|order| - 1];
    NamedOnce(rows, order);
    NamedOnce(rows, before);
    var out := Named(rows, order);
    assert out[i] in out && out[j] in out;
    if j < |Named(rows, before)| {
      NamedInOrder(rows, before, i, j);
      assert Named(rows, before)[j] in Named(rows, before);
      FirstInPrefix(order, out[j].path);
    }
    assert Named(rows, before)[i] in Named(rows, before);
    FirstInPrefix(order, out[i].path);
  }

  lemma {:induction false} FirstInPrefix(order: seq<string>, path: string)
    requires order != [] && path in order[..|order| - 1]
    ensures path in order && FirstAt(order, path) == FirstAt(order[..|order| - 1], path)
  {
    var i, before := FirstAt(order[..|order| - 1], path), order[..|order| - 1];
    assert order[i] == before[i] == path;
    assert order[..i] == before[..i];
    assert FirstAt(order, path) == i by { FirstIsFirst(order, path, i); }
  }

  lemma FirstIsFirst(order: seq<string>, path: string, i: nat)
    requires i < |order| && order[i] == path && path !in order[..i]
    ensures FirstAt(order, path) == i
  {
  }

  // ---- What publishing refuses -----------------------------------------------------------

  datatype Issue = Unknown(path: string) | Duplicate(path: string)

  function Issues(order: seq<string>, rows: seq<Row>): seq<Issue> {
    if order == [] then []
    else
      var before, path := order[..|order| - 1], order[|order| - 1];
      Issues(before, rows) +
        if path in before then [Duplicate(path)] else if !HasPath(rows, path) then [Unknown(path)] else []
  }

  method MenuOrderIssues(order: Option<seq<string>>, rows: seq<Row>) returns (out: seq<Issue>)
    ensures out == if order.Some? then Issues(order.value, rows) else []
  {
    out := [];
    if order.None? { return; }
    var known: set<string> := {};
    for i := 0 to |rows|
      invariant forall p :: p in known <==> HasPath(rows[..i], p)
    {
      forall p {
        HasPathStep(rows, i, p);
      }
      known := known + {rows[i].path};
    }
    assert rows[..|rows|] == rows;
    hide HasPath;
    var stored := order.value;
    var seen: set<string> := {};
    for i := 0 to |stored|
      invariant out == Issues(stored[..i], rows)
      invariant forall p :: p in seen <==> p in stored[..i]
    {
      var path := stored[i];
      assert stored[..i + 1][..i] == stored[..i] && stored[..i + 1] == stored[..i] + [path];
      if path in seen {
        out := out + [Duplicate(path)];
      } else if path !in known {
        out := out + [Unknown(path)];
      }
      seen := seen + {path};
    }
    assert stored[..|stored|] == stored;
  }

  predicate NoRepeats(order: seq<string>) {
    forall i, j :: 0 <= i < j < |order| ==> order[i] != order[j]
  }

  predicate AllKnown(order: seq<string>, rows: seq<Row>) {
    forall p :: p in order ==> HasPath(rows, p)
  }

  lemma NoRepeatsAppend(order: seq<string>, path: string)
    ensures NoRepeats(order + [path]) <==> NoRepeats(order) && path !in order
  {
    var all := order + [path];
    assert all[|order|] == path && forall i :: 0 <= i < |order| ==> all[i] == order[i];
  }

  lemma {:induction false} NoIssues(order: seq<string>, rows: seq<Row>)
    ensures Issues(order, rows) == [] <==> NoRepeats(order) && AllKnown(order, rows)
  {
    if order != [] {
      var before, path := order[..|order| - 1], order[|order| - 1];
      NoIssues(before, rows);
      NoRepeatsAppend(before, path);
      assert order == before + [path];
      assert forall p :: p in order <==> p in before || p == path;
      hide NoRepeats, HasPath;
    }
  }

  lemma {:induction false} NamedMatches(rows: seq<Row>, order: seq<string>)
    requires Issues(order, rows) == []
    ensures |Named(rows, order)| == |order|
    ensures forall i :: 0 <= i < |order| ==> Named(rows, order)[i].path == order[i]
  {
    if order != [] {
      var before, path := order[..|order| - 1], order[|order| - 1];
      assert Issues(before, rows) == [] && HasPath(rows, path) && path !in before;
      NamedMatches(rows, before);
      assert Named(rows, order) == Named(rows, before) + [RowAt(rows, path)];
      hide Named, Issues, RowAt, HasPath;
      assert forall i :: 0 <= i < |before| ==> order[i] == before[i];
    }
  }

  /** Publishing finds no fault with an order exactly when the menu begins with it as stored. */
  lemma NoIssuesExactlyWhenFollowed(rows: seq<Row>, order: seq<string>)
    ensures Issues(order, rows) == [] <==> BeginsWith(Arranged(rows, order), order)
  {
    if Issues(order, rows) == [] {
      NamedMatches(rows, order);
    } else if order != [] && BeginsWith(Arranged(rows, order), order) {
      FollowedHasNoIssues(rows, order);
    }
  }

  ghost predicate BeginsWith(rows: seq<Row>, order: seq<string>) {
    |order| <= |rows| && forall i :: 0 <= i < |order| ==> rows[i].path == order[i]
  }

  lemma FollowedHasNoIssues(rows: seq<Row>, order: seq<string>)
    requires order != [] && BeginsWith(Arranged(rows, order), order)
    ensures Issues(order, rows) == []
  {
    var named, rest := Named(rows, order), Chosen(rows, order, false);
    NamedOnce(rows, order);
    ChosenSplits(rows, order);
    NoIssues(order, rows);
    hide Named, Chosen, Issues, RowAt, HasPath;
    assert forall r :: r in rest ==> r.path !in order;
    assert |named| < |named + rest| ==> (named + rest)[|named|] in rest;
    assert |order| <= |named|;
    forall p | p in order ensures HasPath(rows, p) {
      var i :| 0 <= i < |order| && order[i] == p;
      assert named[i] in named && named[i].path == p;
    }
    assert forall i, j :: 0 <= i < j < |order| ==> named[i].path != named[j].path;
  }

  // ---- The rows of a layer ---------------------------------------------------------------

  function NameOf(layer: Layer, path: string): Option<string> {
    if path in layer.names then Some(layer.names[path]) else None
  }

  function PagesOf(layer: Layer, path: string): seq<Page> {
    if path in PAGE_HOSTS && path in layer.pages then layer.pages[path] else []
  }

  function PageRow(path: string, page: Page): Row {
    Row(path + "/" + page.id, Some(page.name))
  }

  /** A built-in row followed by its extension pages. */
  function Group(layer: Layer, path: string): seq<Row> {
    if path !in layer.shown then []
    else
      var pages := PagesOf(layer, path);
      [Row(path, NameOf(layer, path))] + seq(|pages|, i requires 0 <= i < |pages| => PageRow(path, pages[i]))
  }

  function Groups(layer: Layer, paths: seq<string>): seq<Row> {
    if paths == [] then [] else Groups(layer, paths[..|paths| - 1]) + Group(layer, paths[|paths| - 1])
  }

  method GroupRows(layer: Layer, path: string) returns (rows: seq<Row>)
    ensures rows == Group(layer, path)
  {
    if path !in layer.shown { return []; }
    rows := [Row(path, NameOf(layer, path))];
    var pages := PagesOf(layer, path);
    for j := 0 to |pages|
      invariant rows == Group(layer, path)[..j + 1]
    {
      rows := rows + [PageRow(path, pages[j])];
    }
  }

  method RowsInOrder(layer: Layer, paths: seq<string>) returns (rows: seq<Row>)
    ensures rows == Groups(layer, paths)
  {
    hide Group;
    rows := [];
    for i := 0 to |paths|
      invariant rows == Groups(layer, paths[..i])
    {
      assert paths[..i + 1][..i] == paths[..i];
      var group := GroupRows(layer, paths[i]);
      rows := rows + group;
    }
    assert paths[..|paths|] == paths;
  }

  method ResolveLayerMenuRows(layer: Option<Layer>) returns (out: seq<Row>)
    ensures layer.None? ==> out == []
    ensures layer.Some? ==>
      var rows := Groups(layer.value, DEFAULT_ORDER);
      out == if layer.value.menuOrder.Some? then Arranged(rows, layer.value.menuOrder.value) else rows
  {
    if layer.None? { return []; }
    hide Groups, Arranged;
    var rows := RowsInOrder(layer.value, DEFAULT_ORDER);
    out := ApplyMenuOrder(rows, layer.value.menuOrder);
  }

  /** The component a row belongs to: its path up to the first slash. */
  function Component(path: string): string {
    if path == "" || path[0] == '/' then "" else [path[0]] + Component(path[1..])
  }

  lemma {:induction false} ComponentOf(path: string, rest: string)
    requires '/' !in path && (rest == "" || rest[0] == '/')
    ensures Component(path + rest) == path
  {
    if path != "" {
      assert (path + rest)[1..] == path[1..] + rest;
      ComponentOf(path[1..], rest);
    }
  }

  predicate DistinctPages(layer: Layer, path: string) {
    var pages := PagesOf(layer, path);
    path in layer.shown ==> forall i, j :: 0 <= i < j < |pages| ==> pages[i].id != pages[j].id
  }

  lemma GroupIsOfComponent(layer: Layer, path: string, i: nat)
    requires '/' !in path && i < |Group(layer, path)|
    ensures Component(Group(layer, path)[i].path) == path
  {
    var rows, pages := Group(layer, path), PagesOf(layer, path);
    if i == 0 {
      assert path + "" == path;
      ComponentOf(path, "");
    } else {
      ComponentOf(path, "/" + pages[i - 1].id);
      assert path + ("/" + pages[i - 1].id) == rows[i].path;
    }
  }

  /** The page id in a page's path. */
  lemma PageIdOf(layer: Layer, path: string, i: nat)
    requires path in layer.shown && i < |PagesOf(layer, path)|
    ensures i + 1 < |Group(layer, path)|
    ensures var p := Group(layer, path)[i + 1].path; |p| > |path| && p[|path| + 1..] == PagesOf(layer, path)[i].id
  {
  }

  lemma GroupIsDistinct(layer: Layer, path: string)
    requires '/' !in path
    ensures DistinctPaths(Group(layer, path)) <==> DistinctPages(layer, path)
  {
    var rows, pages := Group(layer, path), PagesOf(layer, path);
    if path in layer.shown {
      assert |rows| == |pages| + 1 && rows[0].path == path;
      forall i | 0 <= i < |pages|
        ensures |rows[i + 1].path| > |path| && rows[i + 1].path[|path| + 1..] == pages[i].id
        ensures rows[i + 1].path == path + "/" + pages[i].id
      {
        PageIdOf(layer, path, i);
      }
      hide Group, PagesOf;
      forall i, j | 0 <= i < j < |rows|
        ensures rows[i].path == rows[j].path <==> i > 0 && pages[i - 1].id == pages[j - 1].id
      {
        assert rows[j] == rows[(j - 1) + 1] && (i > 0 ==> rows[i] == rows[(i - 1) + 1]);
      }
      SameDistinctness(rows, pages);
    }
  }

  lemma SameDistinctness(rows: seq<Row>, pages: seq<Page>)
    requires |rows| == |pages| + 1
    requires forall i, j :: 0 <= i < j < |rows| ==>
      (rows[i].path == rows[j].path <==> i > 0 && pages[i - 1].id == pages[j - 1].id)
    ensures DistinctPaths(rows) <==> forall i, j :: 0 <= i < j < |pages| ==> pages[i].id != pages[j].id
  {
    if DistinctPaths(rows) {
      forall i, j | 0 <= i < j < |pages| ensures pages[i].id != pages[j].id {
        assert rows[i + 1].path != rows[j + 1].path;
      }
    }
  }

  lemma {:induction false} GroupComponents(layer: Layer, paths: seq<string>, r: Row)
    requires forall i :: 0 <= i < |paths| ==> '/' !in paths[i]
    requires r in Groups(layer, paths)
    ensures Component(r.path) in paths
  {
    var before, path := paths[..|paths| - 1], paths[|paths| - 1];
    assert Groups(layer, paths) == Groups(layer, before) + Group(layer, path);
    hide Group, Component;
    if r in Groups(layer, before) {
      GroupComponents(layer, before, r);
    } else {
      var i :| 0 <= i < |Group(layer, path)| && Group(layer, path)[i] == r;
      GroupIsOfComponent(layer, path, i);
    }
    hide Groups;
    assert paths == before + [path];
  }

  lemma {:induction false} GroupsAreDistinct(layer: Layer, paths: seq<string>)
    requires forall i :: 0 <= i < |paths| ==> '/' !in paths[i]
    requires forall i, j :: 0 <= i < j < |paths| ==> paths[i] != paths[j]
    ensures DistinctPaths(Groups(layer, paths)) <==> forall i :: 0 <= i < |paths| ==> DistinctPages(layer, paths[i])
  {
    if paths != [] {
      var before, path := paths[..|paths| - 1], paths[|paths| - 1];
      GroupsAreDistinct(layer, before);
      GroupIsDistinct(layer, path);
      hide DistinctPages, Group, DistinctPaths, Component;
      var a, b := Groups(layer, before), Group(layer, path);
      assert Groups(layer, paths) == a + b;
      forall i, j | 0 <= i < |a| && 0 <= j < |b| ensures a[i].path != b[j].path {
        GroupComponents(layer, before, a[i]);
        GroupIsOfComponent(layer, path, j);
      }
      DistinctTogether(a, b);
      assert forall i :: 0 <= i < |paths| ==> paths[i] == if i < |before| then before[i] else path;
    }
  }

  lemma DistinctTogether(a: seq<Row>, b: seq<Row>)
    requires forall i, j :: 0 <= i < |a| && 0 <= j < |b| ==> a[i].path != b[j].path
    ensures DistinctPaths(a + b) <==> DistinctPaths(a) && DistinctPaths(b)
  {
    if DistinctPaths(a + b) {
      assert forall i :: 0 <= i < |a| ==> (a + b)[i] == a[i];
      assert forall j :: 0 <= j < |b| ==> (a + b)[|a| + j] == b[j];
    }
  }

  ghost predicate KeepsRows(layer: Layer, order: seq<string>) {
    var rows := Groups(layer, DEFAULT_ORDER);
    multiset(Arranged(rows, order)) == multiset(rows)
  }

  /** No stored order whatsoever loses a row if and only if the pages of every shown component
      have distinct ids. */
  lemma MenuLosesNothing(layer: Layer)
    ensures (forall order :: KeepsRows(layer, order)) <==>
      forall path :: path in PAGE_HOSTS ==> DistinctPages(layer, path)
  {
    PathsAreDistinct(layer);
    if DistinctPaths(Groups(layer, DEFAULT_ORDER)) {
      forall order ensures KeepsRows(layer, order) {
        ReorderingLosesNothing(Groups(layer, DEFAULT_ORDER), order);
      }
    } else {
      var order := LosingOrder(layer);
    }
  }

  lemma PathsAreDistinct(layer: Layer)
    ensures DistinctPaths(Groups(layer, DEFAULT_ORDER)) <==>
      forall path :: path in PAGE_HOSTS ==> DistinctPages(layer, path)
  {
    DefaultOrderIsDistinct();
    GroupsAreDistinct(layer, DEFAULT_ORDER);
    assert forall path :: path !in PAGE_HOSTS ==> DistinctPages(layer, path);
    assert forall path :: path in PAGE_HOSTS ==> path in DEFAULT_ORDER by {
      assert DEFAULT_ORDER[0] == "service" && DEFAULT_ORDER[1] == "instance" && DEFAULT_ORDER[2] == "endpoint";
    }
    hide DistinctPages, DistinctPaths, Groups;
  }

  /** The path that two rows share is an order that loses one of them. */
  lemma LosingOrder(layer: Layer) returns (order: seq<string>)
    requires !DistinctPaths(Groups(layer, DEFAULT_ORDER))
    ensures !KeepsRows(layer, order)
  {
    var rows := Groups(layer, DEFAULT_ORDER);
    hide Groups;
    var i, j :| 0 <= i < j < |rows| && rows[i].path == rows[j].path;
    order := [rows[i].path];
    ReorderingLosesNothing(rows, order);
    assert rows[i].path in order;
  }

  /** Two pages of one id under the service component: some order loses a row. */
  lemma RepeatedPageIsLost(id: string, one: string, two: string)
    ensures var layer := Layer({"service"}, map[], map["service" := [Page(id, one), Page(id, two)]], None);
      exists order :: !KeepsRows(layer, order)
  {
    var layer := Layer({"service"}, map[], map["service" := [Page(id, one), Page(id, two)]], None);
    assert "service" in PAGE_HOSTS && PagesOf(layer, "service") == [Page(id, one), Page(id, two)];
    assert PagesOf(layer, "service")[0].id == PagesOf(layer, "service")[1].id;
    assert !DistinctPages(layer, "service");
    PathsAreDistinct(layer);
    hide Groups, DistinctPages, DistinctPaths;
    var order := LosingOrder(layer);
  }

  lemma DefaultOrderIsDistinct()
    ensures forall i :: 0 <= i < |DEFAULT_ORDER| ==> '/' !in DEFAULT_ORDER[i]
    ensures forall i, j :: 0 <= i < j < |DEFAULT_ORDER| ==> DEFAULT_ORDER[i] != DEFAULT_ORDER[j]
  {
    NoneHasASlash();
    NoneRepeats();
    hide *;
  }

  lemma NoneHasASlash()
    ensures forall i :: 0 <= i < |DEFAULT_ORDER| ==> '/' !in DEFAULT_ORDER[i]
  {
  }

  lemma NoneRepeats()
    ensures forall i, j :: 0 <= i < j < |DEFAULT_ORDER| ==> DEFAULT_ORDER[i] != DEFAULT_ORDER[j]
  {
  }
}
