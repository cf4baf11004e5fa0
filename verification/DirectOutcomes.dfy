/**
 * Outcomes without a reconstruction: what a sufficient direct answer publishes, alone and in a batch,
 * and what presence recovery keeps of the roster.
 */
module DirectOutcomes {
  import opened Seqs
  import opened RelayPlayers
  import opened CanonicalOrder
  import opened HistoryCaches
  import opened Recovery
  import opened Resolution
  import opened RankedOutcomes
  import opened Batch

  // ------------------------------------------------------------------- one direct answer

  /** The direct rows without a `ret_msg`. */
  function UsableRows(d: DirectMatch): seq<Player> {
    Filter(d.players, Usable)
  }

  /** Ten usable rows; any at all in the queues that omit their bots. */
  predicate Sufficient(d: DirectMatch) {
    if d.queue in {425, 453, 10297, 10348, 10362} then UsableRows(d) != [] else |UsableRows(d)| == 10
  }

  lemma {:induction false} UnscoredUsable(rows: seq<Player>)
    ensures Filter(Unscored(rows), Usable) == Unscored(Filter(rows, Usable))
  {
    if rows == [] {
      assert Unscored(rows) == [];
    } else {
      hide Filter;
      var init, last := rows[..|rows| - 1], rows[|rows| - 1];
      UnscoredUsable(init);
      Snoc(rows);
      assert Unscored(rows) == Unscored(init) + [last.(result := UNSCORED)];
      FilterSnoc(init, last, Usable);
      FilterSnoc(Unscored(init), last.(result := UNSCORED), Usable);
      NothingAdded(Filter(init, Usable));
      assert Unscored(Filter(init, Usable) + [last]) == Unscored(Filter(init, Usable)) + [last.(result := UNSCORED)];
    }
  }

  lemma SufficesExactly(d: DirectMatch)
    ensures NeedsRecovery(d) <==> !Sufficient(d)
  {
    hide Filter;
    UnscoredUsable(d.players);
  }

  /** The outcome is the direct answer: its usable rows in the published order, its own score, no vendor call. */
  ghost predicate HoldsDirectRows(out: Outcome, matchId: nat, d: DirectMatch) {
    && out.matchId == matchId && out.status == CompleteDirect && out.roster == []
    && out.result.Some?
    && multiset(out.result.value.players) == multiset(Unscored(UsableRows(d)))
    && (forall i, j :: 0 <= i < j < |out.result.value.players| ==>
          !Precedes(out.result.value.players[j], out.result.value.players[i]))
    && out.result.value.shell == d.shell
    && out.result.value.calls == 0
    && !out.result.value.attempted && !out.result.value.pending && !out.result.value.limited
  }

  lemma DirectIsPublished(request: Request, d: DirectMatch)
    ensures HoldsDirectRows(Terminalize(request, Some(DirectResult(d))), request.matchId, d)
  {
    hide Filter, Arrange, Precedes;
    UnscoredUsable(d.players);
    var rows := Filter(Unscored(d.players), Usable);
    ArrangeSortsAndPermutes(rows);
    forall i, j | 0 <= i < j < |Arrange(rows)|
      ensures !Precedes(Arrange(rows)[j], Arrange(rows)[i])
    {
      ArrangedInOrder(rows, i, j);
    }
  }

  /**
   * A sufficient direct answer is published as it is, whichever resolution the match takes, and
   * costs nothing; no other outcome is `complete_direct`.
   */
  lemma CompleteDirectExactly(request: Request, direct: Option<DirectMatch>, e: Evidence, c: Caches)
    ensures var sufficient := direct.Some? && Sufficient(direct.value);
            && (ResolveRanked(request, direct, e, c).status == CompleteDirect <==> sufficient)
            && (ResolvePresence(request, direct, e).status == CompleteDirect <==> sufficient)
            && (ResolveIdentified(request, direct, e, c).status == CompleteDirect <==> sufficient)
            && (sufficient ==>
                  && HoldsDirectRows(ResolveRanked(request, direct, e, c), request.matchId, direct.value)
                  && HoldsDirectRows(ResolvePresence(request, direct, e), request.matchId, direct.value)
                  && HoldsDirectRows(ResolveIdentified(request, direct, e, c), request.matchId, direct.value)
                  && RequestsOf(request, direct, e, c) == []
                  && CachesAfter(request, direct, e, c) == c)
  {
    hide NeedsRecovery, Sufficient, HoldsDirectRows, Recover, Arrange, Filter, KnownPlayers, UsableRoster, Terminalize,
         RecoveredMatchResult;
    var effective := request.(queueId := EffectiveQueue(request, direct));
    RankedStatuses(request, direct, e, c);
    RankedStatuses(effective, direct, e, c);
    if direct.Some? {
      SufficesExactly(direct.value);
      DirectIsPublished(request, direct.value);
      DirectIsPublished(effective, direct.value);
    }
    if direct.Some? && Sufficient(direct.value) {
      StatusOfDirect(request, direct.value);
      StatusOfDirect(effective, direct.value);
    }
  }

  lemma StatusOfDirect(request: Request, d: DirectMatch)
    ensures Terminalize(request, Some(DirectResult(d))).status == CompleteDirect
  {
  }

  // ---------------------------------------------------------------------------- a batch

  /** The answer at position `i` is the last one for its match. */
  ghost predicate LastAt(matches: seq<Answer>, i: nat) {
    i < |matches| && forall j :: i < j < |matches| ==> matches[j].matchId != matches[i].matchId
  }

  lemma {:induction false} LastAnswerExactly(matches: seq<Answer>, id: nat, d: DirectMatch)
    ensures LastAnswer(matches, id) == Some(d)
            <==> exists i :: 0 <= i < |matches| && LastAt(matches, i) && matches[i] == Answer(id, d)
  {
    if matches == [] {
    } else {
      var init, last := matches[..|matches| - 1], matches[|matches| - 1];
      LastAnswerExactly(init, id, d);
      if last.matchId == id {
        assert LastAt(matches, |matches| - 1);
      } else {
        forall i | 0 <= i < |init|
          ensures init[i] == Answer(id, d) ==> (LastAt(matches, i) <==> LastAt(init, i))
        {
        }
      }
    }
  }

  /**
   * In every batch that returns, a match whose last answer suffices has an outcome, and every outcome
   * of that match holds the usable rows of that answer.
   */
  lemma BatchHoldsDirectRows(requests: seq<Request>, matches: seq<Answer>, w: World, r: Request, i: nat)
    requires RunBatch(requests, Answers(matches), w).Resolved? && r in requests
    requires i < |matches| && LastAt(matches, i) && matches[i].matchId == r.matchId && Sufficient(matches[i].direct)
    ensures var outcomes := RunBatch(requests, Answers(matches), w).outcomes;
            && r.matchId in OutcomeIds(outcomes)
            && forall out :: out in outcomes && out.matchId == r.matchId ==>
                  HoldsDirectRows(out, r.matchId, matches[i].direct)
  {
    hide Resolve, ResolveAll, WorkList, LastAnswer, WorkThrows, Collect, HoldsDirectRows, Sufficient, LastAt;
    var d := matches[i].direct;
    var list := WorkList(requests, matches, |requests| == 1);
    LastAnswerExactly(matches, r.matchId, d);
    BatchShape(requests, Answers(matches), w);
    AnsweredExact(requests, matches, |requests| == 1, r);
    if |requests| == 1 {
      assert r == requests[0];
    }
    var outcomes := Collect(requests, ResolveAll(list, w));
    forall out | out in outcomes && out.matchId == r.matchId
      ensures HoldsDirectRows(out, r.matchId, d)
    {
      CollectMembers(requests, ResolveAll(list, w), out);
      var work := WorkOf(list, w, out);
      WorkListMembers(requests, matches, |requests| == 1, work);
      ResolveKeepsId(work, w);
      ResolvedDirectly(work, w, d);
    }
  }

  lemma WorkOf(list: seq<Work>, w: World, out: Outcome) returns (work: Work)
    requires out in ResolveAll(list, w)
    ensures work in list && Resolve(work, w) == out
  {
    hide Resolve;
    var i :| 0 <= i < |list| && ResolveAll(list, w)[i] == out;
    work := list[i];
  }

  lemma ResolvedDirectly(work: Work, w: World, d: DirectMatch)
    requires work.direct == Some(d) && Sufficient(d)
    ensures HoldsDirectRows(Resolve(work, w), work.request.matchId, d)
  {
    hide ResolveIdentified, ResolveRanked, ResolvePresence, RequestsOf, CachesAfter, HoldsDirectRows, Sufficient;
    CompleteDirectExactly(work.request, work.direct, w.evidence(work.request.matchId), w.caches(work.request.matchId));
  }

  // -------------------------------------------------------------------- presence recovery

  /** `at` lists, in order, the positions of the unmarked entries, and `kept` holds those entries. */
  ghost predicate UnmarkedAt(entries: seq<nat>, marked: set<nat>, kept: seq<nat>, at: seq<nat>) {
    && (forall i: nat :: i in at <==> i < |entries| && i !in marked)
    && (forall k, l :: 0 <= k < l < |at| ==> at[k] < at[l])
    && |kept| == |at|
    && (forall k :: 0 <= k < |at| ==> at[k] < |entries| && kept[k] == entries[at[k]])
  }

  lemma UnmarkedAtSnoc(entries: seq<nat>, id: nat, marked: set<nat>, kept: seq<nat>, at: seq<nat>)
    requires UnmarkedAt(entries, marked, kept, at)
    ensures |entries| !in marked ==> UnmarkedAt(entries + [id], marked, kept + [id], at + [|entries|])
    ensures |entries| in marked ==> UnmarkedAt(entries + [id], marked, kept, at)
  {
    var more := entries + [id];
    assert more[|entries|] == id && forall i :: 0 <= i < |entries| ==> more[i] == entries[i];
    assert forall k :: 0 <= k < |at| ==> at[k] in at;
  }

  /** The rows kept are exactly those without a `ret_msg`, in their order. */
  lemma {:induction false} DropMarkedExactly(entries: seq<nat>, marked: set<nat>)
    ensures exists at :: UnmarkedAt(entries, marked, DropMarked(entries, marked), at)
  {
    if entries == [] {
      assert UnmarkedAt(entries, marked, DropMarked(entries, marked), []);
    } else {
      hide DropMarked, UnmarkedAt;
      var init, id := entries[..|entries| - 1], entries[|entries| - 1];
      DropMarkedExactly(init, marked);
      var at :| UnmarkedAt(init, marked, DropMarked(init, marked), at);
      Snoc(entries);
      DropMarkedMeans(entries, marked);
      NothingAdded(DropMarked(init, marked));
      UnmarkedAtSnoc(init, id, marked, DropMarked(init, marked), at);
    }
  }

  lemma DropMarkedMeans(entries: seq<nat>, marked: set<nat>)
    requires entries != []
    ensures var n := |entries| - 1;
            DropMarked(entries, marked)
            == DropMarked(entries[..n], marked) + if n in marked then [] else [entries[n]]
  {
  }

  /** The roster call answered, and some row of it carries no `ret_msg`. */
  ghost predicate RosterHelps(r: Roster) {
    r.RosterIds? && exists i: nat :: i < |r.entries| && i !in r.marked
  }

  lemma UsableRosterExactly(r: Roster)
    ensures UsableRoster(r) != [] <==> RosterHelps(r)
  {
    hide DropMarked;
    if r.RosterIds? {
      DropMarkedExactly(r.entries, r.marked);
      var at :| UnmarkedAt(r.entries, r.marked, DropMarked(r.entries, r.marked), at);
      if at != [] {
        assert at[0] in at;
      }
    }
  }

  /**
   * Presence recovery of an insufficient answer: usable direct rows are kept as `limited`, all of them
   * and in their order; without any, the usable roster stands alone, or the match is dropped.
   */
  lemma PresenceExactly(request: Request, direct: Option<DirectMatch>, e: Evidence)
    requires direct.Some? ==> !Sufficient(direct.value)
    ensures var out := ResolvePresence(request, direct, e);
            var kept := direct.Some? && UsableRows(direct.value) != [];
            && out.matchId == request.matchId
            && (out.status == Limited <==> kept)
            && (out.status == RosterOnly <==> !kept && RosterHelps(e.roster))
            && (out.status == Dropped <==> !kept && !RosterHelps(e.roster))
            && (out.result.Some? <==> kept)
            && (kept ==> && out.result.value.players == Unscored(UsableRows(direct.value))
                         && out.result.value.shell == direct.value.shell
                         && out.result.value.calls == 0)
            && out.roster == if e.roster.RosterIds? then DropMarked(e.roster.entries, e.roster.marked) else []
  {
    hide Filter, Arrange, Sufficient, NeedsRecovery, DropMarked, Unscored;
    UsableRosterExactly(e.roster);
    if direct.Some? {
      SufficesExactly(direct.value);
      UnscoredUsable(direct.value.players);
      UnscoredLength(UsableRows(direct.value));
    }
  }

  lemma UnscoredLength(rows: seq<Player>)
    ensures Unscored(rows) != [] <==> rows != []
  {
  }
}
