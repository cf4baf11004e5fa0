/**
 * The history budget over whole series of recoveries: between two cache clears a player is
 * paid for at most once, and the durable cache never makes a false promise.
 */
module HistoryBudget {
  import opened Seqs
  import opened RelayPlayers
  import opened HistoryCaches
  import opened Recovery
  import opened AnchorRows

  /**
   * What can happen to the caches while the process map is not cleared. A recovery that rejects
   * on a local statement leaves the lookups it has made so far, and has asked for no history.
   */
  datatype Event =
    | Recovering(matchId: nat, direct: Option<DirectMatch>, evidence: Evidence)
    | Rejecting(matchId: nat, direct: Option<DirectMatch>, evidence: Evidence, lookups: nat)
    | Expiring(players: set<nat>)
    | PublicRefresh(player: nat, matches: History)

  /** Paid calls the vendor answered. */
  function Answered(fetched: seq<nat>, vendor: nat -> VendorHistory): seq<nat> {
    Filter(fetched, Returning(vendor))
  }

  function Returning(vendor: nat -> VendorHistory): nat -> bool {
    (id: nat) => vendor(id).Returned?
  }

  function CallsOf(event: Event, c: Caches): seq<nat> {
    match event
    case Recovering(matchId, direct, e) => Answered(Recover(matchId, direct, e, c).fetched, e.vendor)
    case Rejecting(_, _, _, _) => []
    case Expiring(_) => []
    case PublicRefresh(_, _) => []
  }

  function Apply(event: Event, c: Caches): Caches {
    match event
    case Recovering(matchId, direct, e) => Recover(matchId, direct, e, c).caches
    case Rejecting(matchId, direct, e, lookups) => CachesAt(matchId, direct, e, c, lookups)
    case Expiring(players) => c.(durable := c.durable - players)
    case PublicRefresh(player, matches) => c.(durable := c.durable[player := Written(matches)])
  }

  function After(events: seq<Event>, c: Caches): Caches {
    if events == [] then c else Apply(events[|events| - 1], After(events[..|events| - 1], c))
  }

  /** All answered history calls of a series, in order. */
  function Calls(events: seq<Event>, c: Caches): seq<nat> {
    if events == [] then []
    else
      Calls(events[..|events| - 1], c) + CallsOf(events[|events| - 1], After(events[..|events| - 1], c))
  }

  ghost predicate DistinctRosters(events: seq<Event>) {
    forall i :: 0 <= i < |events| && events[i].Recovering? && events[i].evidence.roster.RosterIds? ==>
      Distinct(Positive(events[i].evidence.roster.entries))
  }

  // --------------------------------------------------------------- one recovery, exactly

  function Count(ids: seq<nat>, id: nat): nat {
    multiset(ids)[id]
  }

  predicate Uncached(c: Caches, id: nat, matchId: nat) {
    id !in c.memory && ReadCached(c, id, matchId).None?
  }

  /** A player nobody cached is queued once per occurrence, a cached one never. */
  lemma {:induction false} QueuedExactly(ids: seq<nat>, matchId: nat, c: Caches, id: nat)
    ensures var k := Classify(ids, matchId, c);
            && Count(k.toFetch, id) == (if Uncached(c, id, matchId) then Count(ids, id) else 0)
            && (id in k.caches.memory <==> id in c.memory || (id in ids && ReadCached(c, id, matchId).Some?))
            && k.caches.durable == c.durable
  {
    if ids == [] {
    } else {
      hide Classify;
      var init, last := ids[..|ids| - 1], ids[|ids| - 1];
      QueuedExactly(init, matchId, c, id);
      Snoc(ids);
      ClassifySnoc(init, last, matchId, c);
      if last != id {
        QueuedExactly(init, matchId, c, last);
      }
    }
  }

  lemma CountInFilter(ids: seq<nat>, keep: nat -> bool, id: nat)
    ensures Count(Filter(ids, keep), id) == if keep(id) then Count(ids, id) else 0
  {
    FilterCount(ids, keep);
  }

  /**
   * Past the roster step a player is paid for exactly as often as the roster repeats them,
   * unless the direct rows, a local store or a cache already answers.
   */
  lemma CallsPerPlayer(matchId: nat, direct: Option<DirectMatch>, e: Evidence, c: Caches, id: nat)
    requires !PreflightHolds(direct, e) && e.roster.RosterIds? && !NoAnchors(direct, e.roster.entries)
    requires id > 0
    ensures var entries := e.roster.entries;
            Count(Recover(matchId, direct, e, c).fetched, id)
            == if || id in RealIds(KnownPlayers(direct))
                  || id in Locals(SetOf(MissingIds(direct, entries)), e).Keys()
                  || !Uncached(c, id, matchId)
               then 0 else Count(entries, id)
  {
    hide Classify, Fetch, Harvest, Pick, Locals, Filter, PreflightHolds, Unresolved, NoAnchors, KnownPlayers;
    var entries := e.roster.entries;
    var pass := RunFullPass(matchId, direct, entries, e, c);
    QueuedExactly(pass.unknown, matchId, c, id);
    CountInFilter(pass.missing, NotIn(pass.locals.Keys()), id);
    CountInFilter(Positive(entries), NotIn(RealIds(KnownPlayers(direct))), id);
    CountInFilter(entries, (x: nat) => x > 0, id);
  }

  /** A roster that repeats an id makes the relay pay for that player twice. */
  lemma RepeatedRosterIdPaysTwice(e: Evidence)
    requires e.roster == RosterIds([5, 5], {})
    requires e.recoveredRows == [] && e.historyRows == [] && e.bufferedRows == []
    ensures Count(Recover(1, None, e, Caches(map[], map[])).fetched, 5) == 2
  {
    hide Classify, Fetch, Harvest, Pick, Filter, Unresolved, RunFullPass;
    assert !PreflightHolds(None, e);
    var missing := MissingIds(None, [5, 5]);
    assert !NoAnchors(None, [5, 5]) by {
      CountInFilter([5, 5], (x: nat) => x > 0, 5);
      CountInFilter(Positive([5, 5]), NotIn(RealIds(KnownPlayers(None))), 5);
      assert Count(missing, 5) == 2;
    }
    assert Locals(SetOf(missing), e).Keys() == {} by { assert Stored([]) == []; }
    CallsPerPlayer(1, None, e, Caches(map[], map[]), 5);
  }

  // ------------------------------------------------------------------------ whole series

  /** One event only pays for players memory does not know, and memory remembers every answer. */
  lemma EventContract(event: Event, c: Caches)
    requires event.Recovering? && event.evidence.roster.RosterIds? ==>
               Distinct(Positive(event.evidence.roster.entries))
    ensures Distinct(CallsOf(event, c))
    ensures forall id :: id in CallsOf(event, c) ==> id !in c.memory && id in Apply(event, c).memory
    ensures c.memory.Keys <= Apply(event, c).memory.Keys
  {
    hide PreflightHolds, NoAnchors, Classify, Fetch, Filter, Unresolved, Harvest, Pick, Locals, KnownPlayers;
    if event.Recovering? {
      var e := event.evidence;
      var run := Recover(event.matchId, event.direct, e, c);
      if run.fetched == [] {
        NothingFiltered(Returning(e.vendor));
      }
      if !PreflightHolds(event.direct, e) && e.roster.RosterIds? && !NoAnchors(event.direct, e.roster.entries) {
        PassContract(event.matchId, event.direct, e.roster.entries, e, c);
      }
    } else if event.Rejecting? {
      RejectionContract(event.matchId, event.direct, event.evidence, c, event.lookups);
    }
  }

  /** A rejected recovery only adds durable answers to memory. */
  lemma RejectionContract(matchId: nat, direct: Option<DirectMatch>, e: Evidence, c: Caches, i: nat)
    ensures var after := CachesAt(matchId, direct, e, c, i);
            after.durable == c.durable && c.memory.Keys <= after.memory.Keys
  {
    hide RunFullPass, PreflightHolds, NoAnchors, Classify;
    if ReachesAnchors(direct, e) {
      var unknown := RunFullPass(matchId, direct, e.roster.entries, e, c).unknown;
      if i <= |unknown| {
        ClassifyContract(unknown[..i], matchId, c);
      }
    }
  }

  lemma NothingFiltered(keep: nat -> bool)
    ensures Filter<nat>([], keep) == []
  {
  }

  lemma PassContract(matchId: nat, direct: Option<DirectMatch>, entries: seq<nat>, e: Evidence, c: Caches)
    requires Distinct(Positive(entries))
    ensures var pass := RunFullPass(matchId, direct, entries, e, c);
            var calls := Answered(pass.classified.toFetch, e.vendor);
            && Distinct(calls)
            && (forall id :: id in calls ==> id !in c.memory && id in pass.fetched.caches.memory)
            && c.memory.Keys <= pass.fetched.caches.memory.Keys
  {
    hide Classify, Fetch, Harvest, Pick, Locals, Filter, KnownPlayers, Faithful;
    var pass := RunFullPass(matchId, direct, entries, e, c);
    var k := pass.classified;
    FilterDistinct(Positive(entries), NotIn(RealIds(KnownPlayers(direct))));
    FilterDistinct(pass.missing, NotIn(pass.locals.Keys()));
    ClassifyContract(pass.unknown, matchId, c);
    ClassifyDistinct(pass.unknown, matchId, c);
    FilterDistinct(k.toFetch, Returning(e.vendor));
    FilterMembers(k.toFetch, Returning(e.vendor));
    FetchContract(k.toFetch, e.vendor, k.caches);
  }

  lemma EventKeepsFaith(event: Event, c: Caches)
    requires Faithful(c)
    ensures Faithful(Apply(event, c))
  {
    hide PreflightHolds, NoAnchors, Classify, Fetch, Filter, Unresolved, Harvest, Pick, Locals, KnownPlayers;
    match event
    case Recovering(matchId, direct, e) =>
      if e.roster.RosterIds? {
        var pass := RunFullPass(matchId, direct, e.roster.entries, e, c);
        ClassifyContract(pass.unknown, matchId, c);
        FetchContract(pass.classified.toFetch, e.vendor, pass.classified.caches);
      }
    case Rejecting(matchId, direct, e, lookups) => RejectionContract(matchId, direct, e, c, lookups);
    case Expiring(players) =>
    case PublicRefresh(player, matches) =>
  }

  lemma DistinctAppend(a: seq<nat>, b: seq<nat>)
    requires Distinct(a) && Distinct(b) && forall id :: id in a ==> id !in b
    ensures Distinct(a + b)
  {
    forall i, j | 0 <= i < j < |a + b| ensures (a + b)[i] != (a + b)[j] {
      if i < |a| && j >= |a| {
        assert a[i] in a && b[j - |a|] in b;
      }
    }
  }

  lemma EventsSnoc(events: seq<Event>, event: Event, c: Caches)
    ensures After(events + [event], c) == Apply(event, After(events, c))
    ensures Calls(events + [event], c) == Calls(events, c) + CallsOf(event, After(events, c))
  {
    assert (events + [event])[..|events|] == events;
  }

  /**
   * Over any series of recoveries, completed or rejected, expiries and public refreshes between
   * two clears, each player has at most one answered `getmatchhistory` call.
   */
  lemma {:induction false} AtMostOneCallPerPlayer(events: seq<Event>, c: Caches)
    requires DistinctRosters(events)
    ensures Distinct(Calls(events, c))
    ensures forall id :: id in Calls(events, c) ==> id !in c.memory && id in After(events, c).memory
    ensures c.memory.Keys <= After(events, c).memory.Keys
  {
    hide Apply, CallsOf, After, Calls, Distinct;
    if events != [] {
      var init, last := events[..|events| - 1], events[|events| - 1];
      AtMostOneCallPerPlayer(init, c);
      Snoc(events);
      EventContract(last, After(init, c));
      EventsSnoc(init, last, c);
      DistinctAppend(Calls(init, c), CallsOf(last, After(init, c)));
    } else {
      NoEvents(c);
    }
  }

  lemma NoEvents(c: Caches)
    ensures Calls([], c) == [] && After([], c) == c
    ensures Distinct(Calls([], c))
  {
  }

  /** Every cache state reached through the writer keeps its promise to find the target match. */
  lemma {:induction false} DurableHitsStayHonest(events: seq<Event>, c: Caches, playerId: nat, matchId: nat)
    requires Faithful(c)
    ensures Faithful(After(events, c))
    ensures ReadCached(After(events, c), playerId, matchId).Some? ==>
              FindMatch(ReadCached(After(events, c), playerId, matchId).value, matchId).Some?
  {
    if events != [] {
      hide Apply, After, Faithful;
      var init, last := events[..|events| - 1], events[|events| - 1];
      DurableHitsStayHonest(init, c, playerId, matchId);
      Snoc(events);
      EventKeepsFaith(last, After(init, c));
      EventsSnoc(init, last, c);
    } else {
      NoEvents(c);
    }
    DurableHitFindsTarget(After(events, c), playerId, matchId);
  }

  // ------------------------------------------------------ what a paid history leaves behind

  ghost predicate Extends(after: map<nat, History>, before: map<nat, History>) {
    forall q :: q in before ==> q in after && after[q] == before[q]
  }

  /** The table row of a history: the history, and the ids of the matches in it. */
  ghost predicate RowOf(row: CacheRow, h: History) {
    && row.matches == h
    && forall m :: m in row.matchIds <==> m > 0 && exists i :: 0 <= i < |h| && h[i].matchId == m
  }

  lemma WrittenIsRow(h: History)
    ensures RowOf(Written(h), h)
  {
    forall m | m in MatchIdsOf(h)
      ensures exists i :: 0 <= i < |h| && h[i].matchId == m
    {
      var row :| row in h && row.matchId == m;
      var i :| 0 <= i < |h| && h[i] == row;
    }
  }

  /** Storing the answers: memory holds every returned history, the table those whose write succeeded. */
  lemma {:induction false} FetchStores(ids: seq<nat>, vendor: nat -> VendorHistory, c: Caches, q: nat)
    ensures var after := Fetch(ids, vendor, c).caches;
            && (q in ids && vendor(q).Returned? ==> q in after.memory && after.memory[q] == vendor(q).matches)
            && (q in ids && vendor(q).Returned? && vendor(q).cached ==>
                  q in after.durable && RowOf(after.durable[q], vendor(q).matches))
            && (q !in ids && q in c.memory ==> q in after.memory && after.memory[q] == c.memory[q])
  {
    if ids == [] {
    } else {
      hide RowOf, Written;
      var init, last := ids[..|ids| - 1], ids[|ids| - 1];
      FetchStores(init, vendor, c, q);
      Snoc(ids);
      if vendor(last).Returned? {
        WrittenIsRow(vendor(last).matches);
      }
    }
  }

  lemma QueuedAreUncached(ids: seq<nat>, matchId: nat, c: Caches, q: nat)
    ensures q in Classify(ids, matchId, c).toFetch <==> q in ids && Uncached(c, q, matchId)
  {
    QueuedExactly(ids, matchId, c, q);
    var toFetch := Classify(ids, matchId, c).toFetch;
    assert q in toFetch <==> Count(toFetch, q) > 0;
    assert q in ids <==> Count(ids, q) > 0;
  }

  /** A recovery forgets nothing it knew and keeps every history it paid for. */
  lemma RecoveryRemembers(matchId: nat, direct: Option<DirectMatch>, e: Evidence, c: Caches, q: nat)
    ensures var run := Recover(matchId, direct, e, c);
            && Extends(run.caches.memory, c.memory)
            && (q in run.fetched && e.vendor(q).Returned? ==>
                  q in run.caches.memory && run.caches.memory[q] == e.vendor(q).matches)
            && (q in run.fetched && e.vendor(q).Returned? && e.vendor(q).cached ==>
                  q in run.caches.durable && RowOf(run.caches.durable[q], e.vendor(q).matches))
  {
    hide PreflightHolds, NoAnchors, Classify, Fetch, Filter, Unresolved, Harvest, Pick, Locals, KnownPlayers, RowOf,
         ReadCached;
    if ReachesAnchors(direct, e) {
      var pass := RunFullPass(matchId, direct, e.roster.entries, e, c);
      FetchStores(pass.classified.toFetch, e.vendor, pass.classified.caches, q);
      ClassifiedIsBackfilled(pass.unknown, matchId, c);
      forall o | o in c.memory
        ensures o in pass.fetched.caches.memory && pass.fetched.caches.memory[o] == c.memory[o]
      {
        FetchStores(pass.classified.toFetch, e.vendor, pass.classified.caches, o);
        QueuedAreUncached(pass.unknown, matchId, c, o);
      }
    }
  }

  /** Between two clears memory only grows. */
  lemma EventExtends(event: Event, c: Caches)
    ensures Extends(Apply(event, c).memory, c.memory)
  {
    hide Recover, RunFullPass, PreflightHolds, NoAnchors, Classify, ReadCached;
    match event
    case Recovering(matchId, direct, e) => RecoveryRemembers(matchId, direct, e, c, 0);
    case Rejecting(matchId, direct, e, i) =>
      if ReachesAnchors(direct, e) {
        var unknown := RunFullPass(matchId, direct, e.roster.entries, e, c).unknown;
        if i <= |unknown| {
          ClassifiedIsBackfilled(unknown[..i], matchId, c);
        }
      }
    case Expiring(_) =>
    case PublicRefresh(_, _) =>
  }

  /** Event `i` asked for the history of `q` and got it. */
  ghost predicate PaidAt(events: seq<Event>, c: Caches, i: nat, q: nat) {
    && i < |events| && events[i].Recovering?
    && q in Recover(events[i].matchId, events[i].direct, events[i].evidence, After(events[..i], c)).fetched
    && events[i].evidence.vendor(q).Returned?
  }

  /** A history paid for anywhere in a series is in memory for the rest of it. */
  lemma {:induction false} PaidIsRemembered(events: seq<Event>, c: Caches, i: nat, q: nat)
    requires PaidAt(events, c, i, q)
    ensures q in After(events, c).memory
    ensures After(events, c).memory[q] == events[i].evidence.vendor(q).matches
  {
    hide Apply, After, Recover;
    var init, last := events[..|events| - 1], events[|events| - 1];
    Snoc(events);
    EventsSnoc(init, last, c);
    if i == |events| - 1 {
      RecoveryRemembers(last.matchId, last.direct, last.evidence, After(init, c), q);
      AppliedRecovery(last, After(init, c));
    } else {
      assert init[..i] == events[..i];
      PaidIsRemembered(init, c, i, q);
      EventExtends(last, After(init, c));
    }
  }

  lemma AppliedRecovery(event: Event, c: Caches)
    requires event.Recovering?
    ensures Apply(event, c).memory == Recover(event.matchId, event.direct, event.evidence, c).caches.memory
  {
  }

  /**
   * One paid call recovers later matches too: as long as the process map is not cleared, a player whose
   * history was paid for and holds the later match gets that row, and is not paid for again.
   */
  lemma PaidHistoryServesLaterMatches(events: seq<Event>, c: Caches, i: nat, q: nat, matchId: nat,
        direct: Option<DirectMatch>, entries: seq<nat>, e: Evidence, row: HistoryRow, p: Player)
    requires PaidAt(events, c, i, q)
    requires q in entries && Wanted(direct, q) && NoLocalRow(e, q)
    requires FirstRow(events[i].evidence.vendor(q).matches, matchId, row) && Names(p, row, q)
    ensures p in RunFullPass(matchId, direct, entries, e, After(events, c)).recovered
    ensures q !in RunFullPass(matchId, direct, entries, e, After(events, c)).classified.toFetch
  {
    hide Recover, RunFullPass, Wanted, After, PaidAt, FirstRow, NoLocalRow, Names;
    PaidIsRemembered(events, c, i, q);
    RememberedRowIsRecovered(matchId, direct, entries, e, After(events, c), q, row, p);
    NobodyCachedIsQueued(matchId, direct, entries, e, After(events, c), q);
  }

  lemma NobodyCachedIsQueued(matchId: nat, direct: Option<DirectMatch>, entries: seq<nat>, e: Evidence, c: Caches,
        q: nat)
    requires !Uncached(c, q, matchId)
    ensures q !in RunFullPass(matchId, direct, entries, e, c).classified.toFetch
  {
    hide Classify, Fetch, Harvest, Pick, Locals, Filter, Uncached;
    QueuedAreUncached(RunFullPass(matchId, direct, entries, e, c).unknown, matchId, c, q);
  }

  /** After a clear the table serves it, when the history was stored and its row has not expired. */
  lemma StoredHistoryServesLaterMatches(first: Event, c: Caches, q: nat, matchId: nat, direct: Option<DirectMatch>,
        entries: seq<nat>, e: Evidence, row: HistoryRow, p: Player)
    requires PaidAt([first], c, 0, q) && first.evidence.vendor(q).cached
    requires q in entries && Wanted(direct, q) && NoLocalRow(e, q) && matchId > 0
    requires FirstRow(first.evidence.vendor(q).matches, matchId, row) && Names(p, row, q)
    ensures var cleared := Caches(map[], Apply(first, c).durable);
            && p in RunFullPass(matchId, direct, entries, e, cleared).recovered
            && q !in RunFullPass(matchId, direct, entries, e, cleared).classified.toFetch
  {
    hide Recover, RunFullPass, Wanted, After, NoLocalRow, Names;
    assert After([first][..0], c) == c by { NoEvents(c); }
    RecoveryRemembers(first.matchId, first.direct, first.evidence, c, q);
    var cleared := Caches(map[], Apply(first, c).durable);
    assert Tabled(matchId, cleared, q, row);
    TabledRowIsRecovered(matchId, direct, entries, e, cleared, q, row, p);
    NobodyCachedIsQueued(matchId, direct, entries, e, cleared, q);
  }
}
