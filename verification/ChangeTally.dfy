/** How many files the change records of one step changed: a count over sets of files
    that the records know only in part. */
module ChangeTally {
  import opened Options

  datatype FileChange = FileChange(path: string, additions: Option<int>, deletions: Option<int>)

  /** A change record; `None` for a count is unknown, which is not zero. */
  datatype Record = Record(
    basis: string,
    capturedBy: string,
    coverage: Option<string>,
    root: Option<string>,
    changedFiles: Option<nat>,
    changes: seq<FileChange>)

  datatype Observation = Skipped | Nothing | Unknown | Files

  const SKIPPED_READ_ONLY := "skipped_read_only"
  const CAPTURED_BY_RUNTIME := "claude-code"
  const PARTIAL := "partial"

  function Counted(r: Record): nat {
    if r.changedFiles.Some? then r.changedFiles.value else 0
  }

  function ObservationOf(r: Record): Observation {
    if r.basis == SKIPPED_READ_ONLY then Skipped
    else if r.changes != [] then Files
    else if Counted(r) > 0 then Files
    else if r.changedFiles.None? || r.coverage == Some(PARTIAL) then Unknown
    else Nothing
  }

  predicate Incomplete(r: Record) {
    && r.basis != SKIPPED_READ_ONLY
    && (r.coverage == Some(PARTIAL)
        || (r.changedFiles.None? && !(r.changes != [] && r.capturedBy == CAPTURED_BY_RUNTIME)))
  }

  function RootPath(r: Record): string {
    match r.root case Some(p) => p case None => ""
  }

  // ---- The count ------------------------------------------------------------------------

  function FileKey(r: Record, path: string): string {
    RootPath(r) + "|" + path
  }

  function Keys(r: Record): set<string> {
    set i | 0 <= i < |r.changes| :: FileKey(r, r.changes[i].path)
  }

  function AllKeys(records: seq<Record>): set<string> {
    if records == [] then {} else AllKeys(records[..|records| - 1]) + Keys(records[|records| - 1])
  }

  /** Names a count but no files. */
  predicate Listless(r: Record) {
    r.changes == [] && Counted(r) > 0
  }

  function ListlessCount(records: seq<Record>): nat {
    if records == [] then 0
    else ListlessCount(records[..|records| - 1]) + if Listless(records[|records| - 1]) then 1 else 0
  }

  function ListedCount(records: seq<Record>): nat {
    if records == [] then 0
    else ListedCount(records[..|records| - 1]) + if records[|records| - 1].changes != [] then 1 else 0
  }

  function Most(records: seq<Record>): nat {
    if records == [] then 0
    else
      var most, last := Most(records[..|records| - 1]), records[|records| - 1];
      if Listless(last) && Counted(last) > most then Counted(last) else most
  }

  predicate IsFloor(records: seq<Record>) {
    ListlessCount(records) > 1 || (ListlessCount(records) == 1 && ListedCount(records) > 0)
  }

  function FileCount(records: seq<Record>): nat {
    if |AllKeys(records)| >= Most(records) then |AllKeys(records)| else Most(records)
  }

  method CountFiles(records: seq<Record>) returns (files: nat, floor: bool)
    ensures files == FileCount(records) && (floor <==> IsFloor(records))
  {
    var seen: set<string> := {};
    var listed, listless, most := 0, 0, 0;
    assert records[..|records|] == records;
    CountNone();
    hide AllKeys, ListedCount, ListlessCount, Most, Keys;
    for n := 0 to |records|
      invariant seen == AllKeys(records[..n])
      invariant listed == ListedCount(records[..n])
      invariant listless == ListlessCount(records[..n])
      invariant most == Most(records[..n])
      invariant listless == 0 <==> most == 0
      invariant listed == 0 ==> seen == {}
    {
      CountStep(records, n);
      var r := records[n];
      if r.changes != [] {
        listed := listed + 1;
        seen := AddKeys(r, seen);
      } else if Counted(r) > 0 {
        listless := listless + 1;
        most := if Counted(r) > most then Counted(r) else most;
      }
    }
    if listless == 0 {
      return |seen|, false;
    }
    if listless == 1 && listed == 0 {
      return most, false;
    }
    return if |seen| >= most then |seen| else most, true;
  }

  lemma CountNone()
    ensures AllKeys([]) == {} && ListedCount([]) == 0 && ListlessCount([]) == 0 && Most([]) == 0
  {
  }

  lemma CountStep(records: seq<Record>, n: nat)
    requires n < |records|
    ensures var now, before, r := records[..n + 1], records[..n], records[n];
      && AllKeys(now) == AllKeys(before) + Keys(r)
      && (r.changes == [] ==> Keys(r) == {})
      && ListedCount(now) == ListedCount(before) + (if r.changes != [] then 1 else 0)
      && ListlessCount(now) == ListlessCount(before) + (if Listless(r) then 1 else 0)
      && Most(now) == if Listless(r) && Counted(r) > Most(before) then Counted(r) else Most(before)
  {
    assert records[..n + 1][..n] == records[..n] && records[..n + 1][n] == records[n];
  }

  method AddKeys(r: Record, before: set<string>) returns (seen: set<string>)
    ensures seen == before + Keys(r)
  {
    seen := before;
    for n := 0 to |r.changes|
      invariant seen == before + set i | 0 <= i < n :: FileKey(r, r.changes[i].path)
    {
      seen := seen + {FileKey(r, r.changes[n].path)};
    }
  }

  // ---- The tally ------------------------------------------------------------------------

  function Rank(o: Observation): nat {
    match o
    case Skipped => 0
    case Nothing => 1
    case Unknown => 2
    case Files => 3
  }

  function SumAdditions(changes: seq<FileChange>): int
    requires forall i :: 0 <= i < |changes| ==> changes[i].additions.Some?
  {
    if changes == [] then 0 else SumAdditions(changes[..|changes| - 1]) + changes[|changes| - 1].additions.value
  }

  function SumDeletions(changes: seq<FileChange>): int
    requires forall i :: 0 <= i < |changes| ==> changes[i].deletions.Some?
  {
    if changes == [] then 0 else SumDeletions(changes[..|changes| - 1]) + changes[|changes| - 1].deletions.value
  }

  predicate AllCounted(changes: seq<FileChange>) {
    forall i :: 0 <= i < |changes| ==> changes[i].additions.Some? && changes[i].deletions.Some?
  }

  method SumLines(changes: seq<FileChange>) returns (lines: Option<(int, int)>)
    requires changes != []
    ensures lines == if AllCounted(changes) then Some((SumAdditions(changes), SumDeletions(changes))) else None
  {
    var additions, deletions := 0, 0;
    assert changes[..|changes|] == changes;
    for n := 0 to |changes|
      invariant AllCounted(changes[..n])
      invariant additions == SumAdditions(changes[..n]) && deletions == SumDeletions(changes[..n])
    {
      assert changes[..n + 1][..n] == changes[..n];
      var c := changes[n];
      if c.additions.None? || c.deletions.None? {
        return None;
      }
      additions := additions + c.additions.value;
      deletions := deletions + c.deletions.value;
    }
    return Some((additions, deletions));
  }

  datatype Tally = Tally(files: nat, incomplete: bool, lines: Option<(int, int)>, observation: Observation)

  /** The records that list files. */
  function WithFiles(records: seq<Record>): seq<Record> {
    if records == [] then []
    else
      var last := records[|records| - 1];
      WithFiles(records[..|records| - 1]) + if last.changes != [] then [last] else []
  }

  /** Line counts are per record: they are carried only when one record covers the step. */
  function Lines(withFiles: seq<Record>): Option<(int, int)> {
    if |withFiles| == 1 && AllCounted(withFiles[0].changes) then
      Some((SumAdditions(withFiles[0].changes), SumDeletions(withFiles[0].changes)))
    else None
  }

  ghost predicate AnyIncomplete(records: seq<Record>) {
    exists i :: 0 <= i < |records| && Incomplete(records[i])
  }

  /** The observation that ranks highest, `Skipped` when there is no other. */
  ghost predicate Highest(records: seq<Record>, o: Observation) {
    && (o == Skipped || exists i :: 0 <= i < |records| && ObservationOf(records[i]) == o)
    && (forall i :: 0 <= i < |records| ==> Rank(ObservationOf(records[i])) <= Rank(o))
  }

  method TallyChanges(records: seq<Record>) returns (t: Tally)
    ensures t.files == FileCount(records)
    ensures t.incomplete <==> AnyIncomplete(records) || IsFloor(records)
    ensures Highest(records, t.observation)
    ensures t.lines == Lines(WithFiles(records))
  {
    var observation, incomplete := Observe(records);
    var files, floor := CountFiles(records);
    var withFiles: seq<Record> := [];
    assert records[..|records|] == records;
    for n := 0 to |records|
      invariant withFiles == WithFiles(records[..n])
      invariant forall r :: r in withFiles ==> r.changes != []
    {
      assert records[..n + 1][..n] == records[..n];
      if records[n].changes != [] {
        withFiles := withFiles + [records[n]];
      }
    }
    var lines: Option<(int, int)> := None;
    if |withFiles| == 1 {
      lines := SumLines(withFiles[0].changes);
    }
    t := Tally(files, incomplete || floor, lines, observation);
  }

  method Observe(records: seq<Record>) returns (observation: Observation, incomplete: bool)
    ensures Highest(records, observation) && (incomplete <==> AnyIncomplete(records))
  {
    observation, incomplete := Skipped, false;
    for n := 0 to |records|
      invariant Highest(records[..n], observation) && (incomplete <==> AnyIncomplete(records[..n]))
    {
      var r := records[n];
      assert forall i :: 0 <= i < n ==> records[..n + 1][i] == records[..n][i];
      assert records[..n + 1][n] == r;
      if Rank(ObservationOf(r)) > Rank(observation) {
        observation := ObservationOf(r);
      }
      if Incomplete(r) {
        incomplete := true;
      }
    }
    assert records[..|records|] == records;
  }

  /** Lines are summed over all changes, those added apart from those deleted. */
  lemma {:induction false} SumsAdd(a: seq<FileChange>, b: seq<FileChange>)
    requires AllCounted(a) && AllCounted(b)
    ensures AllCounted(a + b) && SumAdditions(a + b) == SumAdditions(a) + SumAdditions(b)
    ensures SumDeletions(a + b) == SumDeletions(a) + SumDeletions(b)
    decreases |b|
  {
    if b == [] {
      assert a + b == a;
    } else {
      var init := b[..|b| - 1];
      assert (a + b)[..|a + b| - 1] == a + init;
      SumsAdd(a, init);
    }
  }

  lemma SumsOfOne(c: FileChange)
    requires c.additions.Some? && c.deletions.Some?
    ensures AllCounted([c]) && SumAdditions([c]) == c.additions.value && SumDeletions([c]) == c.deletions.value
  {
    assert [c][0] == c && [c][..0] == [];
  }

  /** There are line counts exactly when one record alone lists files and all of its have them; they
      are that record's sums. */
  lemma LinesExactly(records: seq<Record>)
    ensures Lines(WithFiles(records)).Some? <==> exists i :: SoleLister(records, i) && AllCounted(records[i].changes)
    ensures forall i :: SoleLister(records, i) && AllCounted(records[i].changes) ==>
      Lines(WithFiles(records)) == Some((SumAdditions(records[i].changes), SumDeletions(records[i].changes)))
  {
    hide Lines;
    forall i | SoleLister(records, i) ensures WithFiles(records) == [records[i]] {
      SoleIsListed(records, i);
    }
    if |WithFiles(records)| == 1 {
      var i := ListedIsSole(records);
      LinesOf(records[i]);
    }
    forall i | SoleLister(records, i) { LinesOf(records[i]); }
    if |WithFiles(records)| != 1 { NoLines(WithFiles(records)); }
  }

  predicate SoleLister(records: seq<Record>, i: int) {
    && 0 <= i < |records| && records[i].changes != []
    && forall j :: 0 <= j < |records| && j != i ==> records[j].changes == []
  }

  lemma LinesOf(r: Record)
    ensures Lines([r]) ==
      if AllCounted(r.changes) then Some((SumAdditions(r.changes), SumDeletions(r.changes))) else None
  {
  }

  lemma NoLines(withFiles: seq<Record>)
    requires |withFiles| != 1
    ensures Lines(withFiles) == None
  {
  }

  lemma {:induction false} NoneListed(records: seq<Record>)
    ensures WithFiles(records) == [] <==> forall i :: 0 <= i < |records| ==> records[i].changes == []
    decreases |records|
  {
    if records != [] { NoneListed(records[..|records| - 1]); }
  }

  lemma {:induction false} SoleIsListed(records: seq<Record>, i: nat)
    requires SoleLister(records, i)
    ensures WithFiles(records) == [records[i]]
    decreases |records|
  {
    var init := records[..|records| - 1];
    NoneListed(init);
    if i < |init| { SoleIsListed(init, i); }
  }

  lemma {:induction false} ListedIsSole(records: seq<Record>) returns (i: nat)
    requires |WithFiles(records)| == 1
    ensures SoleLister(records, i)
    decreases |records|
  {
    var init := records[..|records| - 1];
    if records[|records| - 1].changes != [] {
      NoneListed(init);
      i := |records| - 1;
    } else {
      i := ListedIsSole(init);
    }
  }

  // ---- What the count says of the files --------------------------------------------------

  datatype File = File(root: string, path: string)

  function ListedFiles(r: Record): set<File> {
    set i | 0 <= i < |r.changes| :: File(RootPath(r), r.changes[i].path)
  }

  /** A scan that went to its end, with a count or by the runtime that made the changes. */
  predicate SawAll(r: Record) {
    && r.basis != SKIPPED_READ_ONLY && r.coverage != Some(PARTIAL)
    && (r.changedFiles.Some? || (r.changes != [] && r.capturedBy == CAPTURED_BY_RUNTIME))
  }

  /** `truth` may be the files that changed under `r`'s root while it was observing: all it lists
      and as many as it counts, and no more when it saw all. */
  ghost predicate Consistent(r: Record, truth: set<File>) {
    && ListedFiles(r) <= truth
    && (forall f :: f in truth ==> f.root == RootPath(r))
    && (Listless(r) ==> Counted(r) <= |truth|)
    && (SawAll(r) ==>
          if r.changes != [] then truth == ListedFiles(r) else |truth| == Counted(r))
  }

  ghost predicate AllConsistent(records: seq<Record>, truths: seq<set<File>>) {
    |truths| == |records| && forall i :: 0 <= i < |records| ==> Consistent(records[i], truths[i])
  }

  ghost function Union(truths: seq<set<File>>): set<File> {
    set i, f | 0 <= i < |truths| && f in truths[i] :: f
  }

  function KeyOf(f: File): string {
    f.root + "|" + f.path
  }

  function KeysOf(files: set<File>): set<string> {
    set f | f in files :: KeyOf(f)
  }

  lemma {:induction false} KeysNoMore(files: set<File>)
    ensures |KeysOf(files)| <= |files|
    decreases files
  {
    if files != {} {
      var f :| f in files;
      var rest := files - {f};
      KeysNoMore(rest);
      assert KeysOf(files) == KeysOf(rest) + {KeyOf(f)};
    }
  }

  lemma KeyIsInjective(f: File, g: File)
    requires '|' !in f.root && '|' !in g.root && KeyOf(f) == KeyOf(g)
    ensures f == g
  {
    var k := KeyOf(f);
    assert k[|f.root|] == '|' && k[|g.root|] == '|';
    assert forall i :: 0 <= i < |f.root| ==> k[i] == f.root[i];
    assert forall i :: 0 <= i < |g.root| ==> k[i] == g.root[i];
    assert |f.root| == |g.root|;
    assert f.root == k[..|f.root|] == g.root;
    assert f.path == k[|f.root| + 1..] == g.path;
  }

  /** No two listed files are counted as one. */
  ghost predicate KeysTellApart(files: set<File>) {
    forall f, g :: f in files && g in files && KeyOf(f) == KeyOf(g) ==> f == g
  }

  lemma {:induction false} DistinctKeys(files: set<File>)
    requires KeysTellApart(files)
    ensures |KeysOf(files)| == |files|
    decreases files
  {
    if files != {} {
      var f :| f in files;
      var rest := files - {f};
      DistinctKeys(rest);
      assert KeysOf(files) == KeysOf(rest) + {KeyOf(f)};
      assert KeyOf(f) !in KeysOf(rest);
    }
  }

  lemma PlainRootsTellApart(files: set<File>)
    requires forall f :: f in files ==> '|' !in f.root
    ensures KeysTellApart(files)
  {
    forall f, g | f in files && g in files && KeyOf(f) == KeyOf(g) { KeyIsInjective(f, g); }
  }

  lemma SharedKeyIsLost(files: set<File>)
    requires !KeysTellApart(files)
    ensures |KeysOf(files)| < |files|
  {
    var f, g :| f in files && g in files && KeyOf(f) == KeyOf(g) && f != g;
    var rest := files - {f};
    KeysNoMore(rest);
    assert KeyOf(g) in KeysOf(rest);
    assert KeysOf(files) == KeysOf(rest);
  }

  ghost function AllListed(records: seq<Record>): set<File> {
    set i, f | 0 <= i < |records| && f in ListedFiles(records[i]) :: f
  }

  lemma {:induction false} AllKeysAreKeys(records: seq<Record>)
    ensures AllKeys(records) == KeysOf(AllListed(records))
    decreases |records|
  {
    if records != [] {
      var init, last := records[..|records| - 1], records[|records| - 1];
      AllKeysAreKeys(init);
      forall f ensures f in AllListed(records) <==> f in AllListed(init) || f in ListedFiles(last) {
        if f in AllListed(init) {
          var i :| 0 <= i < |init| && f in ListedFiles(init[i]);
          assert records[i] == init[i];
        }
        if f in AllListed(records) {
          var i :| 0 <= i < |records| && f in ListedFiles(records[i]);
          assert i < |init| ==> init[i] == records[i];
        }
      }
      assert AllListed(records) == AllListed(init) + ListedFiles(last);
      assert Keys(last) == KeysOf(ListedFiles(last)) by {
        forall k | k in Keys(last) ensures k in KeysOf(ListedFiles(last)) {
          var i :| 0 <= i < |last.changes| && k == FileKey(last, last.changes[i].path);
          assert KeyOf(File(RootPath(last), last.changes[i].path)) == k;
        }
      }
    }
  }

  lemma {:induction false} MostIsCounted(records: seq<Record>)
    ensures Most(records) == 0 ||
      exists i :: 0 <= i < |records| && Listless(records[i]) && Counted(records[i]) == Most(records)
    ensures ListlessCount(records) == 0 ==>
      Most(records) == 0 && forall i :: 0 <= i < |records| ==> !Listless(records[i])
    ensures ListlessCount(records) == 1 ==>
      exists i :: 0 <= i < |records| && Listless(records[i]) && Counted(records[i]) == Most(records)
        && forall j :: 0 <= j < |records| && j != i ==> !Listless(records[j])
    ensures ListedCount(records) == 0 ==> forall i :: 0 <= i < |records| ==> records[i].changes == []
    decreases |records|
  {
    if records != [] {
      var init, last := records[..|records| - 1], records[|records| - 1];
      MostIsCounted(init);
      assert forall i :: 0 <= i < |init| ==> records[i] == init[i];
    }
  }

  lemma SubsetSize<T>(a: set<T>, b: set<T>)
    requires a <= b
    ensures |a| <= |b|
  {
    assert b == a + (b - a);
  }

  /** The count is never more than the files that changed. */
  lemma CountIsFloor(records: seq<Record>, truths: seq<set<File>>)
    requires AllConsistent(records, truths)
    ensures FileCount(records) <= |Union(truths)|
  {
    AllKeysAreKeys(records);
    KeysNoMore(AllListed(records));
    SubsetSize(AllListed(records), Union(truths));
    MostIsCounted(records);
    if Most(records) > 0 {
      var i :| 0 <= i < |records| && Listless(records[i]) && Counted(records[i]) == Most(records);
      SubsetSize(truths[i], Union(truths));
    }
  }

  predicate Looked(r: Record) {
    r.basis != SKIPPED_READ_ONLY
  }

  /** The files of the records that looked. */
  ghost function Observed(records: seq<Record>, truths: seq<set<File>>): set<File>
    requires |truths| == |records|
  {
    set i, f | 0 <= i < |records| && Looked(records[i]) && f in truths[i] :: f
  }

  /** The files that the records that looked list. */
  ghost function ListedByLooking(records: seq<Record>): set<File> {
    set i, f | 0 <= i < |records| && Looked(records[i]) && f in ListedFiles(records[i]) :: f
  }

  /** No record that did not look has a bare count, or lists what no record that looked lists. */
  ghost predicate SkippedAddNothing(records: seq<Record>) {
    forall i :: 0 <= i < |records| && !Looked(records[i]) ==>
      !Listless(records[i]) && ListedFiles(records[i]) <= ListedByLooking(records)
  }

  /** A count not called incomplete is exactly that of the files that changed under the records
      that looked if the other records add nothing to it and no two listed files share a key, and
      not if just one of the two is so. */
  lemma CompleteCountIsExact(records: seq<Record>, truths: seq<set<File>>)
    requires AllConsistent(records, truths)
    requires !AnyIncomplete(records) && !IsFloor(records)
    ensures KeysTellApart(AllListed(records)) ==>
      (FileCount(records) == |Observed(records, truths)| <==> SkippedAddNothing(records))
    ensures SkippedAddNothing(records) ==>
      (FileCount(records) == |Observed(records, truths)| <==> KeysTellApart(AllListed(records)))
  {
    MostIsCounted(records);
    if ListlessCount(records) == 0 {
      ListedCountIsExact(records, truths);
    } else {
      BareCountIsExact(records, truths);
      NothingListed(records);
    }
  }

  lemma NothingListed(records: seq<Record>)
    requires forall i :: 0 <= i < |records| ==> records[i].changes == []
    ensures KeysTellApart(AllListed(records))
  {
    assert AllListed(records) == {};
  }

  lemma ListedCountIsExact(records: seq<Record>, truths: seq<set<File>>)
    requires AllConsistent(records, truths) && !AnyIncomplete(records)
    requires Most(records) == 0 && forall i :: 0 <= i < |records| ==> !Listless(records[i])
    ensures KeysTellApart(AllListed(records)) ==>
      (FileCount(records) == |Observed(records, truths)| <==> SkippedAddNothing(records))
    ensures SkippedAddNothing(records) ==>
      (FileCount(records) == |Observed(records, truths)| <==> KeysTellApart(AllListed(records)))
  {
    var listed := AllListed(records);
    AllKeysAreKeys(records);
    if KeysTellApart(listed) { DistinctKeys(listed); } else { SharedKeyIsLost(listed); }
    ObservedIsListed(records, truths);
    ListedByLookingExactly(records);
    hide ListedByLooking, AllListed, SkippedAddNothing, Observed, Incomplete, Consistent, ListedFiles, KeysTellApart;
    SameSize(ListedByLooking(records), listed);
  }

  lemma ObservedIsListed(records: seq<Record>, truths: seq<set<File>>)
    requires AllConsistent(records, truths) && !AnyIncomplete(records)
    requires forall i :: 0 <= i < |records| ==> !Listless(records[i])
    ensures Observed(records, truths) == ListedByLooking(records)
  {
    forall i | 0 <= i < |records| && Looked(records[i]) ensures truths[i] == ListedFiles(records[i]) {
      assert !Incomplete(records[i]) && !Listless(records[i]);
    }
  }

  lemma ListedByLookingExactly(records: seq<Record>)
    requires forall i :: 0 <= i < |records| ==> !Listless(records[i])
    ensures ListedByLooking(records) <= AllListed(records)
    ensures ListedByLooking(records) == AllListed(records) <==> SkippedAddNothing(records)
  {
    hide ListedFiles, Listless;
    var all, looked := AllListed(records), ListedByLooking(records);
    if SkippedAddNothing(records) {
      forall f | f in all ensures f in looked {
        var i :| 0 <= i < |records| && f in ListedFiles(records[i]);
      }
    }
    if all == looked {
      forall i | 0 <= i < |records| ensures ListedFiles(records[i]) <= looked {
        assert forall f :: f in ListedFiles(records[i]) ==> f in all;
      }
    }
  }

  lemma SameSize<T>(a: set<T>, b: set<T>)
    requires a <= b
    ensures |a| == |b| <==> a == b
  {
    assert b == a + (b - a);
  }

  lemma BareCountIsExact(records: seq<Record>, truths: seq<set<File>>)
    requires AllConsistent(records, truths) && !AnyIncomplete(records)
    requires ListlessCount(records) == 1 && ListedCount(records) == 0
    ensures FileCount(records) == |Observed(records, truths)| <==> SkippedAddNothing(records)
  {
    MostIsCounted(records);
    var i :| 0 <= i < |records| && Listless(records[i]) && Counted(records[i]) == Most(records)
      && forall j :: 0 <= j < |records| && j != i ==> !Listless(records[j]);
    forall j | 0 <= j < |records| && j != i && Looked(records[j]) ensures truths[j] == {} {
      assert !Incomplete(records[j]) && !Listless(records[j]) && records[j].changes == [];
    }
    NoKeys(records);
    if Looked(records[i]) {
      assert !Incomplete(records[i]);
      assert Observed(records, truths) == truths[i];
      assert forall j :: 0 <= j < |records| ==> ListedFiles(records[j]) == {};
    } else {
      assert Observed(records, truths) == {};
    }
  }

  /** A sole record that did not look but lists a file: the count is one, not called incomplete,
      though no record observed anything. */
  lemma SkippedFileIsCounted(r: Record)
    requires !Looked(r) && |r.changes| == 1
    ensures AllConsistent([r], [ListedFiles(r)]) && !AnyIncomplete([r]) && !IsFloor([r])
    ensures FileCount([r]) == 1 && Observed([r], [ListedFiles(r)]) == {}
  {
    var records := [r];
    assert records[..|records| - 1] == [];
    assert ListlessCount([]) == 0 && ListedCount([]) == 0 && Most([]) == 0 && AllKeys([]) == {};
    assert ListlessCount(records) == 0 && Most(records) == 0;
    assert AllKeys(records) == Keys(r) == {FileKey(r, r.changes[0].path)};
    assert forall f :: f in ListedFiles(r) ==> f.root == RootPath(r);
  }

  lemma {:induction false} NoKeys(records: seq<Record>)
    requires forall i :: 0 <= i < |records| ==> records[i].changes == []
    ensures AllKeys(records) == {}
    decreases |records|
  {
    if records != [] { NoKeys(records[..|records| - 1]); }
  }

  // ---- What an observation says -----------------------------------------------------------

  /** The fewest files a record allows. */
  lemma Fewest(r: Record) returns (t: set<File>)
    ensures Consistent(r, t) && (t == {} <==> r.changes == [] && Counted(r) == 0)
  {
    if r.changes == [] {
      t := PadTo({}, RootPath(r), Counted(r));
    } else {
      t := ListedFiles(r);
      assert File(RootPath(r), r.changes[0].path) in t;
    }
  }

  /** One file more, where the record did not see all. */
  lemma OneMore(r: Record, t: set<File>) returns (u: set<File>)
    requires Consistent(r, t) && !SawAll(r)
    ensures Consistent(r, u) && |u| == |t| + 1
  {
    u := PadTo(t, RootPath(r), |t| + 1);
  }

  /** A record that looked is incomplete exactly when it leaves open how many files changed. */
  lemma IncompleteExactly(r: Record)
    requires Looked(r)
    ensures Incomplete(r) <==> exists t, u :: Consistent(r, t) && Consistent(r, u) && |t| != |u|
  {
    if Incomplete(r) {
      var t := Fewest(r);
      var u := OneMore(r, t);
    }
  }

  /** Of a record that looked: `Files` says that some file changed, `Nothing` that none did, and
      `Unknown` leaves it open. */
  lemma ObservationExactly(r: Record)
    ensures ObservationOf(r) == Skipped <==> !Looked(r)
    ensures Looked(r) ==> (ObservationOf(r) == Files <==> forall t :: Consistent(r, t) ==> t != {})
    ensures Looked(r) ==> (ObservationOf(r) == Nothing <==> forall t :: Consistent(r, t) ==> t == {})
  {
    if Looked(r) {
      var t := Fewest(r);
      if ObservationOf(r) == Unknown { var u := OneMore(r, t); }
      forall t | Consistent(r, t) && ObservationOf(r) == Files ensures t != {} {
        if r.changes != [] { assert File(RootPath(r), r.changes[0].path) in ListedFiles(r); }
      }
    }
  }

  lemma {:induction false} FewestOfAll(records: seq<Record>) returns (truths: seq<set<File>>)
    ensures AllConsistent(records, truths)
    ensures forall i :: 0 <= i < |records| ==>
      (truths[i] == {} <==> records[i].changes == [] && Counted(records[i]) == 0)
    decreases |records|
  {
    truths := [];
    if records != [] {
      truths := FewestOfAll(records[..|records| - 1]);
      var t := Fewest(records[|records| - 1]);
      truths := truths + [t];
    }
  }

  ghost predicate NoneLooked(records: seq<Record>) {
    forall i :: 0 <= i < |records| ==> !Looked(records[i])
  }

  /** In all that the records allow, the records that looked saw some file. */
  ghost predicate SomethingSeen(records: seq<Record>) {
    forall truths :: AllConsistent(records, truths) ==> Observed(records, truths) != {}
  }

  ghost predicate NothingSeen(records: seq<Record>) {
    forall truths :: AllConsistent(records, truths) ==> Observed(records, truths) == {}
  }

  /** The observation of a step: `Skipped` says that no record looked; else `Files` that some file
      changed, `Nothing` that none did, and `Unknown` leaves it open. */
  lemma TallyObservation(records: seq<Record>, o: Observation)
    requires Highest(records, o)
    ensures o == Skipped <==> NoneLooked(records)
    ensures o == Files <==> !NoneLooked(records) && SomethingSeen(records)
    ensures o == Nothing <==> !NoneLooked(records) && NothingSeen(records)
  {
    var fewest := FewestOfAll(records);
    hide ObservationOf, Consistent;
    forall i | 0 <= i < |records| ensures ObservationOf(records[i]) == Skipped <==> !Looked(records[i]) {
      ObservationExactly(records[i]);
    }
    match o
    case Skipped =>
    case Nothing =>
      NothingIsSeen(records);
      assert AllConsistent(records, fewest) && Observed(records, fewest) == {};
    case Unknown => UnknownIsOpen(records, fewest);
    case Files => FilesAreSeen(records);
      assert AllConsistent(records, fewest) && Observed(records, fewest) != {};
  }

  lemma NothingIsSeen(records: seq<Record>)
    requires forall i :: 0 <= i < |records| ==> Rank(ObservationOf(records[i])) <= Rank(Nothing)
    ensures NothingSeen(records)
  {
    forall truths | AllConsistent(records, truths) ensures Observed(records, truths) == {} {
      forall i | 0 <= i < |records| && Looked(records[i]) ensures truths[i] == {} {
        ObservationExactly(records[i]);
        assert Consistent(records[i], truths[i]);
      }
    }
  }

  lemma FilesAreSeen(records: seq<Record>)
    requires exists i :: 0 <= i < |records| && ObservationOf(records[i]) == Files
    ensures SomethingSeen(records)
  {
    var i :| 0 <= i < |records| && ObservationOf(records[i]) == Files;
    ObservationExactly(records[i]);
    forall truths | AllConsistent(records, truths) ensures Observed(records, truths) != {} {
      assert Consistent(records[i], truths[i]);
      var f :| f in truths[i];
      assert f in Observed(records, truths);
    }
  }

  lemma UnknownIsOpen(records: seq<Record>, fewest: seq<set<File>>)
    requires Highest(records, Unknown) && AllConsistent(records, fewest)
    requires forall i :: 0 <= i < |records| ==>
      (fewest[i] == {} <==> records[i].changes == [] && Counted(records[i]) == 0)
    ensures !SomethingSeen(records) && !NothingSeen(records)
  {
    forall i | 0 <= i < |records| && Looked(records[i]) ensures fewest[i] == {} {
      assert Rank(ObservationOf(records[i])) <= Rank(Unknown);
    }
    assert Observed(records, fewest) == {};
    var i :| 0 <= i < |records| && ObservationOf(records[i]) == Unknown;
    var u := OneMore(records[i], fewest[i]);
    var more := fewest[i := u];
    assert AllConsistent(records, more);
    var f :| f in u;
    assert more[i] == u && f in Observed(records, more);
  }

  // ---- The count is the most that can be claimed -----------------------------------------

  lemma {:induction false} SubsetOfSize(b: set<File>, n: nat) returns (t: set<File>)
    requires n <= |b|
    ensures t <= b && |t| == n
    decreases b
  {
    if n == |b| {
      t := b;
    } else {
      var f :| f in b;
      t := SubsetOfSize(b - {f}, n);
    }
  }

  lemma {:induction false} LongestPath(a: set<File>) returns (n: nat)
    ensures forall f :: f in a ==> |f.path| <= n
    decreases a
  {
    if a == {} {
      n := 0;
    } else {
      var f :| f in a;
      n := LongestPath(a - {f});
      n := if |f.path| > n then |f.path| else n;
    }
  }

  lemma {:induction false} PadTo(a: set<File>, root: string, n: nat) returns (b: set<File>)
    requires |a| <= n
    ensures a <= b && |b| == n && forall f :: f in b ==> f in a || f.root == root
    decreases n - |a|
  {
    if |a| == n {
      b := a;
    } else {
      var longest := LongestPath(a);
      var f := File(root, seq(longest + 1, _ => 'a'));
      assert f !in a;
      b := PadTo(a + {f}, root, n);
    }
  }

  /** Records that list files or name a bare count. */
  predicate Speaks(r: Record) {
    r.changes != [] || Counted(r) > 0
  }

  ghost predicate OneRoot(records: seq<Record>) {
    forall i, j :: 0 <= i < |records| && 0 <= j < |records| && Speaks(records[i]) && Speaks(records[j]) ==>
      RootPath(records[i]) == RootPath(records[j])
  }

  function Under(files: set<File>, root: string): set<File> {
    set f | f in files && f.root == root
  }

  /** Every bare count is at most the number of files listed under its own root. */
  ghost predicate Covered(records: seq<Record>) {
    forall i :: 0 <= i < |records| && Listless(records[i]) ==>
      Counted(records[i]) <= |Under(AllListed(records), RootPath(records[i]))|
  }

  lemma OneRootKeys(files: set<File>, root: string)
    requires forall f :: f in files ==> f.root == root
    ensures KeysTellApart(files)
  {
    forall f, g | f in files && g in files && KeyOf(f) == KeyOf(g) ensures f == g {
      var k := KeyOf(f);
      assert f.path == k[|root| + 1..] == g.path;
    }
  }

  /** Files that the records may have changed: those listed, and for a bare count as many of the
      files that `pool` holds for its root. */
  lemma {:induction false} TruthsWithin(records: seq<Record>, pool: set<File>) returns (truths: seq<set<File>>)
    requires AllListed(records) <= pool
    requires forall i :: 0 <= i < |records| && Listless(records[i]) ==>
      Counted(records[i]) <= |Under(pool, RootPath(records[i]))|
    ensures AllConsistent(records, truths)
    ensures forall i :: 0 <= i < |records| ==> truths[i] <= pool && ListedFiles(records[i]) <= truths[i]
    decreases |records|
  {
    truths := [];
    if records != [] {
      var init, last := records[..|records| - 1], records[|records| - 1];
      assert forall i :: 0 <= i < |init| ==> init[i] == records[i];
      forall f | f in AllListed(init) ensures f in AllListed(records) {
        var i :| 0 <= i < |init| && f in ListedFiles(init[i]);
        assert f in ListedFiles(records[i]);
      }
      truths := TruthsWithin(init, pool);
      var t := TruthWithin(records, pool);
      truths := truths + [t];
    }
  }

  lemma TruthWithin(records: seq<Record>, pool: set<File>) returns (truth: set<File>)
    requires records != [] && AllListed(records) <= pool
    requires var last := records[|records| - 1];
      Listless(last) ==> Counted(last) <= |Under(pool, RootPath(last))|
    ensures var last := records[|records| - 1];
      Consistent(last, truth) && truth <= pool && ListedFiles(last) <= truth
  {
    var last := records[|records| - 1];
    assert ListedFiles(last) <= AllListed(records);
    if Listless(last) {
      truth := SubsetOfSize(Under(pool, RootPath(last)), Counted(last));
    } else {
      truth := ListedFiles(last);
    }
  }

  /** Where each bare count is covered, the listed files may be all that changed. */
  lemma CoveredIsReached(records: seq<Record>) returns (truths: seq<set<File>>)
    requires Covered(records) && KeysTellApart(AllListed(records))
    ensures AllConsistent(records, truths) && |Union(truths)| == FileCount(records)
  {
    var listed := AllListed(records);
    AllKeysAreKeys(records);
    DistinctKeys(listed);
    truths := TruthsWithin(records, listed);
    WithinPool(records, truths, listed);
    MostIsCounted(records);
    if i :| 0 <= i < |records| && Listless(records[i]) && Counted(records[i]) == Most(records) {
      SubsetSize(Under(listed, RootPath(records[i])), listed);
    }
  }

  lemma WithinPool(records: seq<Record>, truths: seq<set<File>>, pool: set<File>)
    requires AllConsistent(records, truths) && forall i :: 0 <= i < |truths| ==> truths[i] <= pool
    ensures FileCount(records) <= |Union(truths)| <= |pool|
  {
    CountIsFloor(records, truths);
    SubsetSize(Union(truths), pool);
  }

  /** On one root the count is reached too. */
  lemma OneRootIsReached(records: seq<Record>) returns (truths: seq<set<File>>)
    requires OneRoot(records)
    ensures AllConsistent(records, truths) && |Union(truths)| == FileCount(records)
  {
    var root := "";
    if i :| 0 <= i < |records| && Speaks(records[i]) { root := RootPath(records[i]); }
    var listed := AllListed(records);
    assert forall f :: f in listed ==> f.root == root;
    AllKeysAreKeys(records);
    OneRootKeys(listed, root);
    DistinctKeys(listed);
    var pool := PadTo(listed, root, FileCount(records));
    assert Under(pool, root) == pool;
    forall i | 0 <= i < |records| && Listless(records[i])
      ensures Counted(records[i]) <= |Under(pool, RootPath(records[i]))|
    {
      assert Speaks(records[i]);
      CountedIsAtMost(records, i);
    }
    truths := TruthsWithin(records, pool);
    WithinPool(records, truths, pool);
  }

  lemma {:induction false} CountedIsAtMost(records: seq<Record>, i: nat)
    requires i < |records| && Listless(records[i])
    ensures Counted(records[i]) <= Most(records)
    decreases |records|
  {
    var init := records[..|records| - 1];
    if i < |init| { CountedIsAtMost(init, i); }
  }

  /** A bare count that is not covered needs a file that no record lists. */
  lemma MoreThanListed(records: seq<Record>, truths: seq<set<File>>)
    requires AllConsistent(records, truths) && !Covered(records)
    ensures |Union(truths)| > |AllListed(records)|
  {
    var i :| 0 <= i < |records| && Listless(records[i])
      && Counted(records[i]) > |Under(AllListed(records), RootPath(records[i]))|;
    var under := Under(AllListed(records), RootPath(records[i]));
    if truths[i] <= under {
      SubsetSize(truths[i], under);
      assert false;
    }
    var f :| f in truths[i] && f !in under;
    assert f !in AllListed(records);
    SubsetSize(AllListed(records) + {f}, Union(truths));
  }

  /** Beside a bare count under one root, a record under another has a file of its own. */
  lemma MoreThanMost(records: seq<Record>, truths: seq<set<File>>)
    requires AllConsistent(records, truths) && !OneRoot(records)
    ensures |Union(truths)| > Most(records)
  {
    MostIsCounted(records);
    var a, b :| 0 <= a < |records| && 0 <= b < |records| && Speaks(records[a]) && Speaks(records[b])
      && RootPath(records[a]) != RootPath(records[b]);
    if Most(records) == 0 {
      var f := HasFile(records[a], truths[a]);
      assert f in Union(truths);
    } else {
      var m :| 0 <= m < |records| && Listless(records[m]) && Counted(records[m]) == Most(records);
      var j := if RootPath(records[a]) != RootPath(records[m]) then a else b;
      var f := HasFile(records[j], truths[j]);
      assert f !in truths[m];
      SubsetSize(truths[m] + {f}, Union(truths));
    }
  }

  lemma HasFile(r: Record, truth: set<File>) returns (f: File)
    requires Consistent(r, truth) && Speaks(r)
    ensures f in truth
  {
    if r.changes != [] {
      f := File(RootPath(r), r.changes[0].path);
      assert f in ListedFiles(r);
    } else {
      assert Listless(r) && truth != {};
      f :| f in truth;
    }
  }

  lemma MoreThanKeys(records: seq<Record>, truths: seq<set<File>>)
    requires AllConsistent(records, truths) && (Covered(records) ==> !KeysTellApart(AllListed(records)))
    ensures |Union(truths)| > |AllKeys(records)|
  {
    AllKeysAreKeys(records);
    KeysNoMore(AllListed(records));
    if Covered(records) {
      SharedKeyIsLost(AllListed(records));
      SubsetSize(AllListed(records), Union(truths));
    } else {
      MoreThanListed(records, truths);
    }
  }

  /** The records allow exactly as many files as are counted if and only if all that say anything
      share one root, or every bare count is covered by the files listed under its own root and no
      two listed files share a key. */
  lemma CountIsTight(records: seq<Record>)
    ensures (exists truths :: AllConsistent(records, truths) && |Union(truths)| == FileCount(records)) <==>
      OneRoot(records) || (Covered(records) && KeysTellApart(AllListed(records)))
  {
    if OneRoot(records) {
      var truths := OneRootIsReached(records);
    } else if Covered(records) && KeysTellApart(AllListed(records)) {
      var truths := CoveredIsReached(records);
    } else {
      forall truths | AllConsistent(records, truths) ensures |Union(truths)| != FileCount(records) {
        MoreThanKeys(records, truths);
        MoreThanMost(records, truths);
      }
    }
  }

  lemma CountOfTwo(r: Record, q: Record)
    requires Listless(r) && Listless(q)
    ensures FileCount([r, q]) == if Counted(q) > Counted(r) then Counted(q) else Counted(r)
  {
    var records := [r, q];
    assert records[..1] == [r] && [r][..0] == [];
    assert Most([]) == 0 && Most([r]) == Counted(r);
    NoKeys(records);
  }

  /** Two bare counts under two roots: the larger is counted, though the least is their sum. */
  lemma TwoRootsAddUp(r: Record, q: Record, truths: seq<set<File>>)
    requires Listless(r) && Listless(q) && RootPath(r) != RootPath(q) && AllConsistent([r, q], truths)
    ensures |Union(truths)| >= Counted(r) + Counted(q) > FileCount([r, q])
  {
    CountOfTwo(r, q);
    hide FileCount;
    var records := [r, q];
    assert Consistent(records[0], truths[0]) && Consistent(records[1], truths[1]);
    assert truths[0] !! truths[1];
    assert |truths[0] + truths[1]| == |truths[0]| + |truths[1]|;
    SubsetSize(truths[0] + truths[1], Union(truths));
  }
}
