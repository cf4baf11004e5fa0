/**
 * The exact vendor cost of one recovery, and where every missing participant comes from.
 */
module RecoveryCost {
  import opened Seqs
  import opened RelayPlayers
  import opened HistoryCaches
  import opened Recovery

  lemma FirstAmongSnoc(rows: seq<Player>, p: Player, wanted: set<nat>)
    ensures var kept := FirstAmong(rows, wanted);
            FirstAmong(rows + [p], wanted) == if p.id in wanted && p.id !in kept then kept[p.id := p] else kept
  {
    assert (rows + [p])[..|rows|] == rows;
  }

  lemma LastAmongSnoc(rows: seq<Player>, p: Player, wanted: set<nat>)
    ensures var kept := LastAmong(rows, wanted);
            LastAmong(rows + [p], wanted) == if p.id in wanted then kept[p.id := p] else kept
  {
    assert (rows + [p])[..|rows|] == rows;
  }

  /** A keyed reader files each row under its own id. */
  ghost predicate Keyed(m: map<nat, Player>, rows: seq<Player>, wanted: set<nat>) {
    && m.Keys <= wanted
    && forall id :: id in m ==> m[id].id == id && m[id] in rows
  }

  lemma {:induction false} ReadersAreKeyed(rows: seq<Player>, wanted: set<nat>)
    ensures Keyed(FirstAmong(rows, wanted), rows, wanted)
    ensures Keyed(LastAmong(rows, wanted), rows, wanted)
  {
    if rows == [] {
    } else {
      hide FirstAmong, LastAmong;
      var init, last := rows[..|rows| - 1], rows[|rows| - 1];
      ReadersAreKeyed(init, wanted);
      Snoc(rows);
      FirstAmongSnoc(init, last, wanted);
      LastAmongSnoc(init, last, wanted);
    }
  }

  /** Each local store is only asked about ids the earlier ones did not answer. */
  lemma LocalsAreDisjoint(missing: set<nat>, e: Evidence)
    ensures var l := Locals(missing, e);
            && l.recovered.Keys !! l.history.Keys !! l.buffered.Keys
            && l.Keys() <= missing
            && Keyed(l.recovered, Stored(e.recoveredRows), missing)
            && Keyed(l.history, e.historyRows, missing)
            && Keyed(l.buffered, e.bufferedRows, missing)
  {
    hide FirstAmong, LastAmong;
    var l := Locals(missing, e);
    ReadersAreKeyed(Stored(e.recoveredRows), missing);
    ReadersAreKeyed(e.historyRows, missing - l.recovered.Keys);
    ReadersAreKeyed(e.bufferedRows, missing - l.recovered.Keys - l.history.Keys);
  }

  lemma PickSnoc(ids: seq<nat>, id: nat, m: map<nat, Player>)
    ensures Pick(ids + [id], m) == Pick(ids, m) + if id in m then [m[id]] else []
  {
    assert (ids + [id])[..|ids|] == ids;
  }

  /** Every listed id is answered by exactly one store or by none. */
  lemma {:induction false} PicksSplit(ids: seq<nat>, l: LocalRows)
    requires l.recovered.Keys !! l.history.Keys !! l.buffered.Keys
    ensures |Pick(ids, l.recovered)| + |Pick(ids, l.history)| + |Pick(ids, l.buffered)|
            + |Filter(ids, NotIn(l.Keys()))| == |ids|
  {
    if ids == [] {
    } else {
      hide Pick, Filter;
      var init, last := ids[..|ids| - 1], ids[|ids| - 1];
      PicksSplit(init, l);
      Snoc(ids);
      PickSnoc(init, last, l.recovered);
      PickSnoc(init, last, l.history);
      PickSnoc(init, last, l.buffered);
      FilterSnoc(init, last, NotIn(l.Keys()));
    }
  }

  lemma {:induction false} HistoryCallsCount(ids: seq<nat>)
    ensures |HistoryCalls(ids)| == |ids|
    ensures forall id :: multiset(HistoryCalls(ids))[HistoryCall(id)] == multiset(ids)[id]
    ensures multiset(HistoryCalls(ids))[RosterCall] == 0 && multiset(HistoryCalls(ids))[DemoCall] == 0
  {
    if ids == [] {
      assert HistoryCalls(ids) == [];
    } else {
      hide HistoryCalls;
      var init, last := ids[..|ids| - 1], ids[|ids| - 1];
      HistoryCallsCount(init);
      Snoc(ids);
      HistoryCallsSnoc(init, last);
      assert multiset(ids) == multiset(init) + multiset{last};
    }
  }

  /**
   * On every exit the number a recovery reports is the number of requests it sent: the roster once
   * unless the preflight answered, the demo once exactly when anchors are pursued without a direct
   * response, and a player's history once per queued occurrence.
   */
  lemma RequestsExactly(matchId: nat, direct: Option<DirectMatch>, e: Evidence, c: Caches)
    ensures var requests := Requests(matchId, direct, e, c);
            var run := Recover(matchId, direct, e, c);
            && run.result.calls == |requests|
            && multiset(requests)[RosterCall] == (if PreflightHolds(direct, e) then 0 else 1)
            && multiset(requests)[DemoCall] == (if ReachesAnchors(direct, e) && direct.None? then 1 else 0)
            && (forall id :: multiset(requests)[HistoryCall(id)] == multiset(run.fetched)[id])
  {
    hide PreflightHolds, RunFullPass, NoAnchors, HistoryCalls, Unresolved;
    if ReachesAnchors(direct, e) {
      var toFetch := RunFullPass(matchId, direct, e.roster.entries, e, c).classified.toFetch;
      HistoryCallsCount(toFetch);
      var requests := Requests(matchId, direct, e, c);
      assert multiset(requests)
             == multiset([RosterCall]) + multiset(DemoRequests(direct)) + multiset(HistoryCalls(toFetch));
    } else if PreflightHolds(direct, e) {
      PreflightIsFree(direct, e);
    } else {
      NothingAdded([RosterCall]);
    }
  }

  /** Past the roster step every missing anchor is answered from exactly one place or queued. */
  lemma AnchorsAreSplit(matchId: nat, direct: Option<DirectMatch>, entries: seq<nat>, e: Evidence, c: Caches)
    ensures var pass := RunFullPass(matchId, direct, entries, e, c);
            && pass.locals.recovered.Keys !! pass.locals.history.Keys !! pass.locals.buffered.Keys
            && |pass.missing| == |Pick(pass.missing, pass.locals.recovered)|
                               + |Pick(pass.missing, pass.locals.history)|
                               + |Pick(pass.missing, pass.locals.buffered)|
                               + pass.classified.memoryHits
                               + pass.classified.durableHits
                               + |pass.classified.toFetch|
            && (forall id :: id in pass.classified.toFetch ==>
                  id in entries && id > 0 && id !in RealIds(KnownPlayers(direct)) && id !in c.memory)
  {
    hide Classify, Fetch, Harvest, Pick, Locals, Filter;
    var pass := RunFullPass(matchId, direct, entries, e, c);
    LocalsAreDisjoint(SetOf(pass.missing), e);
    PicksSplit(pass.missing, pass.locals);
    ClassifyContract(pass.unknown, matchId, c);
    FilterMembers(pass.missing, NotIn(pass.locals.Keys()));
    FilterMembers(Positive(entries), NotIn(RealIds(KnownPlayers(direct))));
    FilterMembers(entries, (id: nat) => id > 0);
  }

  /**
   * Past the roster step the missing anchors split into six disjoint groups, and the requests are
   * the roster, the demo when there is no direct response, and one history for each of the last group.
   */
  lemma CostIsExact(matchId: nat, direct: Option<DirectMatch>, e: Evidence, c: Caches)
    requires ReachesAnchors(direct, e)
    ensures var pass := RunFullPass(matchId, direct, e.roster.entries, e, c);
            && pass.locals.recovered.Keys !! pass.locals.history.Keys !! pass.locals.buffered.Keys
            && |pass.missing| == |Pick(pass.missing, pass.locals.recovered)|
                               + |Pick(pass.missing, pass.locals.history)|
                               + |Pick(pass.missing, pass.locals.buffered)|
                               + pass.classified.memoryHits
                               + pass.classified.durableHits
                               + |pass.classified.toFetch|
    ensures var run := Recover(matchId, direct, e, c);
            && run.result.calls == |Requests(matchId, direct, e, c)|
            && run.result.calls == 1 + (if direct.None? then 1 else 0) + |run.fetched|
            && (forall id :: id in run.fetched ==>
                  id in e.roster.entries && id > 0 && id !in RealIds(KnownPlayers(direct)) && id !in c.memory)
  {
    AnchorsAreSplit(matchId, direct, e.roster.entries, e, c);
    PursuitRequests(matchId, direct, e, c);
    hide RunFullPass, Recover, Requests, Pick, ReachesAnchors;
  }

  lemma PursuitRequests(matchId: nat, direct: Option<DirectMatch>, e: Evidence, c: Caches)
    requires ReachesAnchors(direct, e)
    ensures var run := Recover(matchId, direct, e, c);
            && run.fetched == RunFullPass(matchId, direct, e.roster.entries, e, c).classified.toFetch
            && run.result.calls == |Requests(matchId, direct, e, c)|
            && run.result.calls == 1 + (if direct.None? then 1 else 0) + |run.fetched|
  {
    hide RunFullPass, PreflightHolds, NoAnchors, Unresolved, HistoryCalls;
    HistoryCallsCount(RunFullPass(matchId, direct, e.roster.entries, e, c).classified.toFetch);
  }
}
