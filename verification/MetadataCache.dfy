/** The bounded cache of client metadata documents, shared by requests that interleave. */
module MetadataCache {
  import opened Options
  import opened Text

  const CACHE_MS: int := 600000
  const CACHE_MAX: nat := 512

  /** What a metadata document registers; its fields do not matter to the cache. */
  type Client = string

  datatype Entry = Entry(at: int, client: Client)

  // ---- Values of the cache ------------------------------------------------------------------

  /** The keys in insertion order, and what each holds. */
  datatype Contents = Contents(keys: seq<string>, entries: map<string, Entry>)

  predicate Distinct(keys: seq<string>) {
    forall i, j :: 0 <= i < j < |keys| ==> keys[i] != keys[j]
  }

  ghost predicate WellFormed(c: Contents) {
    && Distinct(c.keys)
    && (forall k :: k in c.keys <==> k in c.entries)
    && |c.keys| <= CACHE_MAX
  }

  predicate Expired(e: Entry, now: int) {
    e.at < now - CACHE_MS
  }

  predicate Fresh(e: Entry, now: int) {
    now - e.at < CACHE_MS
  }

  /** The keys whose entries have not expired, in their order. */
  function Unexpired(keys: seq<string>, entries: map<string, Entry>, now: int): seq<string> {
    if keys == [] then []
    else
      var rest := Unexpired(keys[1..], entries, now);
      if keys[0] in entries && Expired(entries[keys[0]], now) then rest else [keys[0]] + rest
  }

  /** Room for one more entry: only a full cache loses any, first what has expired, then the
      oldest insertions until one place is free. */
  function WithRoom(c: Contents, now: int): Contents {
    if |c.keys| < CACHE_MAX then c
    else
      var kept := Unexpired(c.keys, c.entries, now);
      var last := if |kept| < CACHE_MAX then kept else kept[|kept| - (CACHE_MAX - 1)..];
      Contents(last, Only(c.entries, last))
  }

  function Only(entries: map<string, Entry>, keys: seq<string>): map<string, Entry> {
    map k | k in entries && k in keys :: entries[k]
  }

  /** The keys without the one at position `i`. */
  function Dropped(keys: seq<string>, i: nat): seq<string>
    requires i < |keys|
  {
    keys[..i] + keys[i + 1..]
  }

  /** A key already held keeps its place in the insertion order. */
  function Put(c: Contents, key: string, e: Entry): Contents {
    Contents(if key in c.entries then c.keys else c.keys + [key], c.entries[key := e])
  }

  // ---- The shared object --------------------------------------------------------------------

  predicate EndsWith(s: string, suffix: string) {
    |s| >= |suffix| && s[|s| - |suffix|..] == suffix
  }

  /** A listed host matches itself and its subdomains. */
  predicate HostAllowed(host: string, allowHosts: seq<string>) {
    exists i :: 0 <= i < |allowHosts| && (host == allowHosts[i] || EndsWith(host, "." + allowHosts[i]))
  }

  datatype Answer = Refused | Hit(client: Client) | Miss

  function AnswerTo(c: Contents, clientId: string, host: string, allowHosts: seq<string>, now: int): Answer {
    if allowHosts != [] && !HostAllowed(host, allowHosts) then Refused
    else if clientId in c.entries && Fresh(c.entries[clientId], now) then Hit(c.entries[clientId].client)
    else Miss
  }

  class Cache {
    var keys: seq<string>
    var entries: map<string, Entry>

    ghost function Value(): Contents
      reads this
    {
      Contents(keys, entries)
    }

    ghost predicate Valid()
      reads this
    {
      WellFormed(Value())
    }

    constructor ()
      ensures Valid() && Value() == Contents([], map[])
    {
      keys, entries := [], map[];
    }

    /** The part of a request before its fetch. */
    method Ask(clientId: string, host: string, allowHosts: seq<string>, now: int) returns (a: Answer)
      requires Valid()
      ensures a == AnswerTo(Value(), clientId, host, allowHosts, now)
    {
      if |allowHosts| > 0 {
        var allowed := false;
        for i := 0 to |allowHosts|
          invariant allowed <==> HostAllowed(host, allowHosts[..i])
        {
          AllowedStep(host, allowHosts, i);
          if host == allowHosts[i] || EndsWith(host, "." + allowHosts[i]) { allowed := true; }
        }
        assert allowHosts[..|allowHosts|] == allowHosts;
        if !allowed { return Refused; }
      }
      if clientId in entries && now - entries[clientId].at < CACHE_MS {
        return Hit(entries[clientId].client);
      }
      return Miss;
    }

    method Delete(i: nat)
      requires Valid() && i < |keys|
      modifies this
      ensures Valid() && keys == Dropped(old(keys), i) && entries == old(entries) - {old(keys)[i]}
    {
      DroppedIs(keys, i);
      keys, entries := Dropped(keys, i), entries - {keys[i]};
    }

    /** Walks the live map, taking out each expired entry as it comes to it. */
    method Sweep(now: int)
      requires Valid()
      modifies this
      ensures Valid() && keys == Unexpired(old(keys), old(entries), now) && entries == Only(old(entries), keys)
    {
      ghost var all, held := keys, entries;
      OnlyAll(keys, entries);
      var i := 0;
      while i < |keys|
        invariant i <= |keys| && Valid() && entries == Only(held, keys)
        invariant keys[..i] + Unexpired(keys[i..], held, now) == Unexpired(all, held, now)
        decreases |keys| - i
      {
        UnexpiredStep(keys, held, now, i);
        hide Unexpired;
        assert keys[i] in keys && keys[i] in entries;
        assert keys[i] in held && entries[keys[i]] == held[keys[i]];
        if entries[keys[i]].at < now - CACHE_MS {
          OnlyDropped(held, keys, i);
          hide Only, Dropped;
          Delete(i);
        } else {
          i := i + 1;
        }
      }
    }

    method Evict()
      requires Valid()
      modifies this
      ensures Valid() && |keys| < CACHE_MAX && entries == Only(old(entries), keys)
      ensures keys == if |old(keys)| < CACHE_MAX then old(keys) else old(keys)[|old(keys)| - (CACHE_MAX - 1)..]
    {
      OnlyAll(keys, entries);
      ghost var all, held, n := keys, entries, 0;
      assert |keys| <= CACHE_MAX;
      hide WellFormed, Only;
      while |keys| >= CACHE_MAX
        invariant Valid() && n <= |all| && keys == all[n..] && (n > 0 ==> |keys| >= CACHE_MAX - 1)
        invariant entries == Only(held, keys)
        decreases |keys|
      {
        OnlyDropped(held, keys, 0);
        assert Dropped(keys, 0) == keys[1..];
        Delete(0);
        n := n + 1;
      }
    }

    /** The part of a request after a document came back and was accepted. */
    method Store(clientId: string, client: Client, sweptAt: int, storedAt: int)
      requires Valid()
      modifies this
      ensures Valid() && Value() == Put(WithRoom(old(Value()), sweptAt), clientId, Entry(storedAt, client))
    {
      StoringKeepsBound(Value(), clientId, Entry(storedAt, client), sweptAt);
      hide WellFormed, Unexpired, Only;
      if |keys| >= CACHE_MAX {
        Sweep(sweptAt);
        Evict();
        OnlyOnly(old(entries), Unexpired(old(keys), old(entries), sweptAt), keys);
      }
      assert Value() == WithRoom(old(Value()), sweptAt);
      keys := if clientId in entries then keys else keys + [clientId];
      entries := entries[clientId := Entry(storedAt, client)];
    }

    method Clear()
      modifies this
      ensures Valid() && Value() == Contents([], map[])
    {
      keys, entries := [], map[];
    }
  }

  // ---- What the host list allows --------------------------------------------------------------

  /** The labels of a host name. */
  function Labels(host: string): seq<string> {
    Split(host, '.')
  }

  /** `host` is `listed` or lies under it. */
  predicate Under(host: string, listed: string) {
    var a, b := Labels(host), Labels(listed);
    |b| <= |a| && a[|a| - |b|..] == b
  }

  ghost predicate Passes(host: string, allowHosts: seq<string>) {
    allowHosts == [] || exists h :: h in allowHosts && Under(host, h)
  }

  lemma UnderExactly(host: string, listed: string)
    ensures Under(host, listed) <==> host == listed || EndsWith(host, "." + listed)
  {
    var a, b := Labels(host), Labels(listed);
    if EndsWith(host, "." + listed) {
      var front := host[..|host| - |listed| - 1];
      assert host == front + ['.'] + listed;
      SplitAround(front, listed, '.');
      var before := Split(front, '.');
      assert a == before + b && a[|a| - |b|..] == b;
    }
    if Under(host, listed) {
      JoinSplit(host, '.');
      JoinSplit(listed, '.');
      if |a| == |b| {
        assert a == b;
      } else {
        var before := a[..|a| - |b|];
        assert a == before + b;
        JoinTwoLists(before, b, ['.']);
        EndsInListed(Join(before, ['.']), listed);
      }
    }
  }

  lemma EndsInListed(front: string, listed: string)
    ensures EndsWith(front + ['.'] + listed, "." + listed)
  {
    var host := front + ['.'] + listed;
    assert host == front + ("." + listed);
    assert host[|front|..] == "." + listed;
  }

  lemma {:induction false} JoinTwoLists(a: seq<string>, b: seq<string>, sep: string)
    requires a != [] && b != []
    ensures Join(a + b, sep) == Join(a, sep) + sep + Join(b, sep)
  {
    assert (a + b)[1..] == a[1..] + b && (a + b)[0] == a[0];
    if |a| == 1 {
      assert a[1..] + b == b;
    } else {
      JoinTwoLists(a[1..], b, sep);
      var rest, last := Join(a[1..], sep), Join(b, sep);
      assert a[0] + sep + (rest + sep + last) == (a[0] + sep + rest) + sep + last;
    }
  }

  /** A host passes a list exactly when the labels of a listed host are its last labels. */
  lemma AllowedExactly(host: string, allowHosts: seq<string>)
    ensures HostAllowed(host, allowHosts) <==> exists h :: h in allowHosts && Under(host, h)
  {
    forall i | 0 <= i < |allowHosts|
      ensures Under(host, allowHosts[i]) <==> host == allowHosts[i] || EndsWith(host, "." + allowHosts[i])
    {
      UnderExactly(host, allowHosts[i]);
    }
    hide Under, EndsWith;
  }

  /** A request is refused exactly when its host does not pass its own list, and answered from the
      cache exactly when it does and an entry younger than ten minutes is held. */
  lemma AnsweredExactly(c: Contents, clientId: string, host: string, allowHosts: seq<string>, now: int)
    ensures var a := AnswerTo(c, clientId, host, allowHosts, now);
      && (a.Refused? <==> !Passes(host, allowHosts))
      && (a.Hit? <==> Passes(host, allowHosts) && clientId in c.entries && now - c.entries[clientId].at < 600000)
      && (a.Hit? ==> a.client == c.entries[clientId].client)
  {
    AllowedExactly(host, allowHosts);
    hide Under, HostAllowed;
  }

  lemma AllowedStep(host: string, allowHosts: seq<string>, i: nat)
    requires i < |allowHosts|
    ensures HostAllowed(host, allowHosts[..i + 1]) <==>
      HostAllowed(host, allowHosts[..i]) || host == allowHosts[i] || EndsWith(host, "." + allowHosts[i])
  {
    var less, more := allowHosts[..i], allowHosts[..i + 1];
    assert more[i] == allowHosts[i] && forall k :: 0 <= k < i ==> more[k] == less[k];
  }

  lemma DroppedIs(keys: seq<string>, i: nat)
    requires Distinct(keys) && i < |keys|
    ensures Distinct(Dropped(keys, i))
    ensures forall k :: k in Dropped(keys, i) <==> k in keys && k != keys[i]
  {
    var rest := Dropped(keys, i);
    assert forall j :: 0 <= j < |rest| ==> rest[j] == keys[if j < i then j else j + 1];
    forall k | k in keys && k != keys[i] ensures k in rest {
      var j :| 0 <= j < |keys| && keys[j] == k;
      assert rest[if j < i then j else j - 1] == k;
    }
  }

  lemma OnlyAll(keys: seq<string>, entries: map<string, Entry>)
    requires forall k :: k in entries ==> k in keys
    ensures Only(entries, keys) == entries
  {
  }

  lemma OnlyDropped(entries: map<string, Entry>, keys: seq<string>, i: nat)
    requires Distinct(keys) && i < |keys|
    ensures Only(entries, Dropped(keys, i)) == Only(entries, keys) - {keys[i]}
  {
    DroppedIs(keys, i);
    hide Dropped, Distinct;
  }

  lemma OnlyOnly(entries: map<string, Entry>, more: seq<string>, fewer: seq<string>)
    requires forall k :: k in fewer ==> k in more
    ensures Only(Only(entries, more), fewer) == Only(entries, fewer)
  {
  }

  lemma UnexpiredStep(keys: seq<string>, entries: map<string, Entry>, now: int, i: nat)
    requires i < |keys|
    ensures keys[i] in entries && Expired(entries[keys[i]], now) ==>
      Dropped(keys, i)[..i] + Unexpired(Dropped(keys, i)[i..], entries, now)
        == keys[..i] + Unexpired(keys[i..], entries, now)
    ensures !(keys[i] in entries && Expired(entries[keys[i]], now)) ==>
      keys[..i + 1] + Unexpired(keys[i + 1..], entries, now) == keys[..i] + Unexpired(keys[i..], entries, now)
  {
    assert keys[i..][1..] == keys[i + 1..];
    assert Dropped(keys, i)[..i] == keys[..i] && Dropped(keys, i)[i..] == keys[i + 1..];
  }

  // ---- What a store loses -------------------------------------------------------------------

  lemma {:induction false} UnexpiredAre(keys: seq<string>, entries: map<string, Entry>, now: int)
    requires Distinct(keys) && forall k :: k in keys ==> k in entries
    ensures forall k :: k in Unexpired(keys, entries, now) <==> k in keys && !Expired(entries[k], now)
    ensures Distinct(Unexpired(keys, entries, now)) && |Unexpired(keys, entries, now)| <= |keys|
    ensures Unexpired(keys, entries, now) == keys || exists k :: k in keys && Expired(entries[k], now)
    ensures (exists k :: k in keys && Expired(entries[k], now)) ==> |Unexpired(keys, entries, now)| < |keys|
  {
    if keys != [] {
      UnexpiredAre(keys[1..], entries, now);
      assert forall k :: k in keys <==> k == keys[0] || k in keys[1..];
    }
  }

  /** A cache below its bound loses nothing. A full one loses exactly its expired entries or,
      where none has expired, exactly the oldest insertion; nothing it keeps is altered. */
  lemma MakingRoom(c: Contents, now: int)
    requires WellFormed(c)
    ensures var r := WithRoom(c, now);
      && WellFormed(r) && |r.keys| < CACHE_MAX
      && (forall k :: k in r.entries ==> k in c.entries && r.entries[k] == c.entries[k])
      && (|c.keys| < CACHE_MAX ==> r == c)
      && (|c.keys| == CACHE_MAX ==> forall k :: k in c.entries ==> (k !in r.entries <==>
            || Expired(c.entries[k], now)
            || (k == c.keys[0] && forall j :: j in c.entries ==> !Expired(c.entries[j], now))))
  {
    if |c.keys| == CACHE_MAX {
      UnexpiredAre(c.keys, c.entries, now);
      var kept := Unexpired(c.keys, c.entries, now);
      if |kept| == CACHE_MAX {
        assert kept == c.keys;
        DroppedIs(c.keys, 0);
        assert Dropped(c.keys, 0) == c.keys[1..];
      }
    }
  }

  lemma StoringKeepsBound(c: Contents, key: string, e: Entry, now: int)
    requires WellFormed(c)
    ensures WellFormed(Put(WithRoom(c, now), key, e))
  {
    MakingRoom(c, now);
  }

  // ---- Every interleaving -------------------------------------------------------------------

  /** What can happen next: a request arrives, a fetch under way comes back with a document or
      fails, or the cache is emptied. The clock may read differently at every step. */
  datatype Event =
    | Arrive(clientId: string, host: string, allowHosts: seq<string>, now: int)
    | Loaded(clientId: string, client: Client, sweptAt: int, storedAt: int)
    | Failed(clientId: string)
    | Cleared

  /** The cache and the requests that are between their look-up and their store. */
  datatype State = State(cache: Contents, inFlight: multiset<string>)

  const START := State(Contents([], map[]), multiset{})

  predicate Enabled(s: State, e: Event) {
    (e.Loaded? || e.Failed?) ==> e.clientId in s.inFlight
  }

  function Step(s: State, e: Event): State
    requires Enabled(s, e)
  {
    match e
    case Arrive(id, host, allow, now) =>
      if AnswerTo(s.cache, id, host, allow, now).Miss? then s.(inFlight := s.inFlight + multiset{id}) else s
    case Loaded(id, client, sweptAt, storedAt) =>
      State(Put(WithRoom(s.cache, sweptAt), id, Entry(storedAt, client)), s.inFlight - multiset{id})
    case Failed(id) => s.(inFlight := s.inFlight - multiset{id})
    case Cleared => s.(cache := Contents([], map[]))
  }

  /** The state a run reaches, if each of its events can happen when its turn comes. */
  function Run(events: seq<Event>): Option<State> {
    if events == [] then Some(START)
    else
      match Run(events[..|events| - 1])
      case None => None
      case Some(s) => if Enabled(s, events[|events| - 1]) then Some(Step(s, events[|events| - 1])) else None
  }

  /** The document loaded last for a client id since the cache was last emptied. */
  function LastLoaded(events: seq<Event>, clientId: string): Option<Entry> {
    if events == [] then None
    else
      var e := events[|events| - 1];
      if e.Cleared? then None
      else if e.Loaded? && e.clientId == clientId then Some(Entry(e.storedAt, e.client))
      else LastLoaded(events[..|events| - 1], clientId)
  }

  /** Over every interleaving: the cache stays within its bound, and whatever it holds for a
      client id is the document loaded last for it. */
  lemma {:induction false} EveryRun(events: seq<Event>)
    requires Run(events).Some?
    ensures var c := Run(events).value.cache;
      WellFormed(c) && forall k :: k in c.entries ==> LastLoaded(events, k) == Some(c.entries[k])
  {
    if events != [] {
      var before, e := events[..|events| - 1], events[|events| - 1];
      EveryRun(before);
      var s := Run(before).value;
      if e.Loaded? {
        MakingRoom(s.cache, e.sweptAt);
      }
    }
  }

  /** Whatever requests were interleaved before it, a request is answered from the cache only
      with the document loaded last for its client id, loaded less than ten minutes before and
      with no emptying since, and only if its host passes the list this very request brings. */
  lemma {:induction false} HitsAreFreshAndAllowed(
      events: seq<Event>, clientId: string, host: string, allowHosts: seq<string>, now: int)
    requires Run(events).Some?
    requires AnswerTo(Run(events).value.cache, clientId, host, allowHosts, now).Hit?
    ensures LastLoaded(events, clientId).Some?
    ensures AnswerTo(Run(events).value.cache, clientId, host, allowHosts, now) ==
      Hit(LastLoaded(events, clientId).value.client)
    ensures now - LastLoaded(events, clientId).value.at < CACHE_MS
    ensures Passes(host, allowHosts)
  {
    EveryRun(events);
    AllowedExactly(host, allowHosts);
  }

  /** How many requests for a client id passed their own host list and missed. */
  function Misses(events: seq<Event>, clientId: string): nat {
    if events == [] then 0
    else
      var before, e := events[..|events| - 1], events[|events| - 1];
      Misses(before, clientId) +
        if e.Arrive? && e.clientId == clientId && Run(before).Some?
           && AnswerTo(Run(before).value.cache, clientId, e.host, e.allowHosts, e.now).Miss? then 1 else 0
  }

  function Ended(events: seq<Event>, clientId: string): nat {
    if events == [] then 0
    else
      var e := events[|events| - 1];
      Ended(events[..|events| - 1], clientId) +
        if (e.Loaded? || e.Failed?) && e.clientId == clientId then 1 else 0
  }

  /** Every fetch that ends was begun by a request that passed its own host list and missed;
      the difference is under way. */
  lemma {:induction false} EveryFetchWasAsked(events: seq<Event>, clientId: string)
    requires Run(events).Some?
    ensures Misses(events, clientId) == Ended(events, clientId) + Run(events).value.inFlight[clientId]
  {
    if events != [] {
      EveryFetchWasAsked(events[..|events| - 1], clientId);
    }
  }

  // ---- The order of insertions ----------------------------------------------------------------

  /** The event put in the client id: it loaded its document while, room having been made, the
      cache did not hold it. */
  ghost predicate PutsIn(before: Contents, e: Event, clientId: string) {
    e.Loaded? && e.clientId == clientId && clientId !in WithRoom(before, e.sweptAt).entries
  }

  /** The event of a run that last put in a client id which is held after it. */
  ghost function InsertedAt(events: seq<Event>, clientId: string): (n: nat)
    requires Run(events).Some? && clientId in Run(events).value.cache.entries
    ensures n < |events| && Run(events[..n]).Some? && PutsIn(Run(events[..n]).value.cache, events[n], clientId)
  {
    var n := |events| - 1;
    HeldBefore(events, clientId);
    if PutsIn(Run(events[..n]).value.cache, events[n], clientId) then n
    else
      var m := InsertedAt(events[..n], clientId);
      assert events[..n][..m] == events[..m];
      m
  }

  lemma HeldBefore(events: seq<Event>, clientId: string)
    requires Run(events).Some? && clientId in Run(events).value.cache.entries
    ensures events != [] && Run(events[..|events| - 1]).Some?
    ensures var c, e := Run(events[..|events| - 1]).value.cache, events[|events| - 1];
      PutsIn(c, e, clientId) || clientId in c.entries
  {
    var n := |events| - 1;
    EveryRun(events[..n]);
    if events[n].Loaded? { MakingRoom(Run(events[..n]).value.cache, events[n].sweptAt); }
  }

  ghost predicate Rising(keys: seq<string>, at: map<string, nat>) {
    && (forall k :: k in keys ==> k in at)
    && forall i, j :: 0 <= i < j < |keys| ==> at[keys[i]] < at[keys[j]]
  }

  lemma {:induction false} UnexpiredRises(keys: seq<string>, entries: map<string, Entry>, now: int,
      at: map<string, nat>)
    requires Rising(keys, at)
    ensures Rising(Unexpired(keys, entries, now), at)
    ensures forall k :: k in Unexpired(keys, entries, now) ==> k in keys
  {
    if keys != [] {
      UnexpiredRises(keys[1..], entries, now, at);
      assert forall k :: k in keys[1..] ==> at[keys[0]] < at[k];
    }
  }

  lemma RoomRises(c: Contents, now: int, at: map<string, nat>)
    requires Rising(c.keys, at)
    ensures Rising(WithRoom(c, now).keys, at)
    ensures forall k :: k in WithRoom(c, now).keys ==> k in c.keys
  {
    UnexpiredRises(c.keys, c.entries, now, at);
    hide Unexpired;
  }

  /** Over every interleaving the keys stand in the order of their insertions, however often they
      were loaded again; so what a full cache loses first is the oldest insertion. */
  lemma {:induction false} OldestFirst(events: seq<Event>, i: nat, j: nat)
    requires Run(events).Some? && i < j < |Run(events).value.cache.keys|
    ensures var c := Run(events).value.cache;
      && c.keys[i] in c.entries && c.keys[j] in c.entries
      && InsertedAt(events, c.keys[i]) < InsertedAt(events, c.keys[j])
  {
    InsertionsRise(events);
    EveryRun(events);
    var c := Run(events).value.cache;
    hide Run;
    assert c.keys[i] in c.keys && c.keys[j] in c.keys;
    assert Insertions(events)[c.keys[i]] < Insertions(events)[c.keys[j]];
  }

  ghost function Insertions(events: seq<Event>): (r: map<string, nat>)
    requires Run(events).Some?
    ensures forall k :: k in r ==> r[k] < |events|
  {
    map k | k in Run(events).value.cache.entries :: InsertedAt(events, k)
  }

  lemma {:induction false} InsertionsRise(events: seq<Event>)
    requires Run(events).Some?
    ensures Rising(Run(events).value.cache.keys, Insertions(events))
  {
    if events != [] {
      var n := |events| - 1;
      assert Run(events[..n]).Some?;
      InsertionsRise(events[..n]);
      EveryRun(events[..n]);
      EveryRun(events);
      CacheNext(events);
      forall k | k in Run(events).value.cache.entries { InsertedNext(events, k); }
      hide *;
      RisesNext(Run(events[..n]).value.cache, events[n], Run(events).value.cache, n,
        Insertions(events[..n]), Insertions(events));
    }
  }

  /** What an event makes of the cache. */
  function CacheAfter(c: Contents, e: Event): Contents {
    match e
    case Loaded(id, client, sweptAt, storedAt) => Put(WithRoom(c, sweptAt), id, Entry(storedAt, client))
    case Cleared => Contents([], map[])
    case _ => c
  }

  lemma CacheNext(events: seq<Event>)
    requires Run(events).Some? && events != []
    ensures var n := |events| - 1;
      Run(events[..n]).Some? && Run(events).value.cache == CacheAfter(Run(events[..n]).value.cache, events[n])
  {
    hide WithRoom, AnswerTo;
  }

  lemma InsertedNext(events: seq<Event>, k: string)
    requires Run(events).Some? && k in Run(events).value.cache.entries
    ensures events != [] && Run(events[..|events| - 1]).Some?
    ensures var n := |events| - 1;
      var c := Run(events[..n]).value.cache;
      if PutsIn(c, events[n], k) then Insertions(events)[k] == n
      else k in Insertions(events[..n]) && Insertions(events)[k] == Insertions(events[..n])[k]
  {
    HeldBefore(events, k);
    hide Run, PutsIn;
  }

  lemma RisesNext(c: Contents, e: Event, after: Contents, n: nat, at: map<string, nat>, now: map<string, nat>)
    requires WellFormed(c) && WellFormed(after) && after == CacheAfter(c, e) && Rising(c.keys, at)
    requires forall k :: k in at ==> at[k] < n
    requires forall k :: k in after.entries ==>
      k in now && if PutsIn(c, e, k) then now[k] == n else k in at && now[k] == at[k]
    ensures Rising(after.keys, now)
  {
    if e.Loaded? {
      RoomRises(c, e.sweptAt, at);
      MakingRoom(c, e.sweptAt);
    }
    hide WithRoom;
  }
}
