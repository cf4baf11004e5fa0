/**
 * The public completed-match lookup: request validation, the batch, and local resumption.
 */
module Batch {
  import opened Seqs
  import opened RankedScore
  import opened RelayPlayers
  import opened CanonicalOrder
  import opened HistoryCaches
  import opened Recovery
  import opened Resolution
  import opened Outcomes
  import opened RankedOutcomes

  const BATCH_SIZE := 10

  // ------------------------------------------------------------------------ validation

  /** A request as received; `None` marks a value that is not an integer. */
  datatype RawRequest = NotAnObject | Record(matchId: Option<int>, queueId: RawQueue)

  datatype RawQueue = Absent | Given(value: Option<int>)

  predicate WellFormed(r: RawRequest) {
    && r.Record?
    && r.matchId.Some? && r.matchId.value > 0
    && (r.queueId.Given? ==> r.queueId.value.Some? && r.queueId.value.value > 0)
  }

  ghost predicate ValidRequests(requests: seq<RawRequest>, minItems: nat, maxItems: nat) {
    && minItems <= |requests| <= maxItems
    && (forall i :: 0 <= i < |requests| ==> WellFormed(requests[i]))
    && (forall i, j :: 0 <= i < j < |requests| ==> requests[i].matchId != requests[j].matchId)
  }

  /** Accepts exactly the well-formed request lists of allowed size without a repeated match id. */
  method ValidateCompletedMatchRequests(requests: seq<RawRequest>, minItems: nat, maxItems: nat) returns (ok: bool)
    ensures ok <==> ValidRequests(requests, minItems, maxItems)
  {
    if |requests| < minItems || |requests| > maxItems {
      return false;
    }
    var seen: set<int> := {};
    for i := 0 to |requests|
      invariant forall j :: 0 <= j < i ==> WellFormed(requests[j]) && requests[j].matchId.value in seen
      invariant forall id :: id in seen ==>
                  exists j :: 0 <= j < i && requests[j].Record? && requests[j].matchId == Some(id)
      invariant forall j, k :: 0 <= j < k < i ==> requests[j].matchId != requests[k].matchId
    {
      var request := requests[i];
      if request.NotAnObject? {
        return false;
      }
      if request.matchId.None? || request.matchId.value <= 0 {
        return false;
      }
      if request.matchId.value in seen {
        return false;
      }
      seen := seen + {request.matchId.value};
      if request.queueId.Given? && (request.queueId.value.None? || request.queueId.value.value <= 0) {
        return false;
      }
    }
    return true;
  }

  // ----------------------------------------------------------------------------- batch

  datatype Answer = Answer(matchId: nat, direct: DirectMatch)

  datatype DirectCall = CallError(recoverable: bool) | Answers(matches: seq<Answer>)

  /** For each match: what the relay would find, the caches a recovery starts from, and its local SQL. */
  datatype World = World(evidence: nat -> Evidence, caches: nat -> Caches, sql: nat -> LocalSql)

  datatype BatchResult = Thrown | Resolved(outcomes: seq<Outcome>)

  datatype Work = Work(request: Request, direct: Option<DirectMatch>)

  /** `new Map(directMatches.map(...)).get(id)`: the last match with that id. */
  function LastAnswer(matches: seq<Answer>, id: nat): Option<DirectMatch> {
    if matches == [] then None
    else if matches[|matches| - 1].matchId == id then Some(matches[|matches| - 1].direct)
    else LastAnswer(matches[..|matches| - 1], id)
  }

  function LastOutcome(outcomes: seq<Outcome>, id: nat): Option<Outcome> {
    if outcomes == [] then None
    else if outcomes[|outcomes| - 1].matchId == id then Some(outcomes[|outcomes| - 1])
    else LastOutcome(outcomes[..|outcomes| - 1], id)
  }

  /** A request has work when it was answered, or when it is the only one. */
  predicate HasWork(matches: seq<Answer>, single: bool, r: Request) {
    single || LastAnswer(matches, r.matchId).Some?
  }

  function WorkList(requests: seq<Request>, matches: seq<Answer>, single: bool): seq<Work> {
    if requests == [] then []
    else
      var r := requests[|requests| - 1];
      WorkList(requests[..|requests| - 1], matches, single)
      + if HasWork(matches, single, r) then [Work(r, LastAnswer(matches, r.matchId))] else []
  }

  function Resolve(work: Work, w: World): Outcome {
    ResolveIdentified(work.request, work.direct, w.evidence(work.request.matchId), w.caches(work.request.matchId))
  }

  /** `resolveIdentifiedMatch` rejects. */
  predicate WorkThrows(work: Work, w: World) {
    var id := work.request.matchId;
    ResolutionThrows(work.request, work.direct, w.evidence(id), w.caches(id), w.sql(id))
  }

  function ResolveAll(work: seq<Work>, w: World): seq<Outcome> {
    seq(|work|, i requires 0 <= i < |work| => Resolve(work[i], w))
  }

  /** `normalized.flatMap(...)` over the outcome map. */
  function Collect(requests: seq<Request>, outcomes: seq<Outcome>): seq<Outcome> {
    if requests == [] then []
    else
      var found := LastOutcome(outcomes, requests[|requests| - 1].matchId);
      Collect(requests[..|requests| - 1], outcomes) + if found.Some? then [found.value] else []
  }

  function RunBatch(requests: seq<Request>, call: DirectCall, w: World): BatchResult {
    if requests == [] then Resolved([])
    else if |requests| > BATCH_SIZE then Thrown
    else
      match call
      case CallError(recoverable) =>
        if |requests| == 1 && recoverable && !WorkThrows(Work(requests[0], None), w)
        then Resolved([Resolve(Work(requests[0], None), w)]) else Thrown
      case Answers(matches) =>
        var work := WorkList(requests, matches, |requests| == 1);
        if exists i :: 0 <= i < |work| && WorkThrows(work[i], w) then Thrown
        else Resolved(Collect(requests, ResolveAll(work, w)))
  }

  method GetMatchDetailsBatch(requests: seq<Request>, call: DirectCall, w: World) returns (r: BatchResult)
    ensures r == RunBatch(requests, call, w)
  {
    if requests == [] {
      return Resolved([]);
    }
    if |requests| > BATCH_SIZE {
      return Thrown;
    }
    if call.CallError? {
      if |requests| != 1 || !call.recoverable {
        return Thrown;
      }
      if WorkThrows(Work(requests[0], None), w) {
        return Thrown;
      }
      return Resolved([Resolve(Work(requests[0], None), w)]);
    }
    hide ResolveAll, WorkList, Collect, WorkThrows;
    var directById := IndexAnswers(call.matches);
    var work := ListWork(requests, call.matches, directById);
    if exists i :: 0 <= i < |work| && WorkThrows(work[i], w) {
      return Thrown;
    }
    var outcomes := ResolveAll(work, w);
    var byId := IndexOutcomes(outcomes);
    var collected := CollectOutcomes(requests, outcomes, byId);
    return Resolved(collected);
  }

  method IndexAnswers(matches: seq<Answer>) returns (byId: map<nat, DirectMatch>)
    ensures forall id: nat :: LastAnswer(matches, id) == if id in byId then Some(byId[id]) else None
  {
    byId := map[];
    for i := 0 to |matches|
      invariant forall id: nat :: LastAnswer(matches[..i], id) == if id in byId then Some(byId[id]) else None
    {
      PrefixStep(matches, i);
      byId := byId[matches[i].matchId := matches[i].direct];
    }
    assert matches[..|matches|] == matches;
  }

  lemma WorkListSnoc(requests: seq<Request>, r: Request, matches: seq<Answer>, single: bool)
    ensures WorkList(requests + [r], matches, single)
            == WorkList(requests, matches, single)
               + if HasWork(matches, single, r) then [Work(r, LastAnswer(matches, r.matchId))] else []
  {
    assert (requests + [r])[..|requests|] == requests;
  }

  lemma CollectSnoc(requests: seq<Request>, r: Request, outcomes: seq<Outcome>)
    ensures var found := LastOutcome(outcomes, r.matchId);
            Collect(requests + [r], outcomes) == Collect(requests, outcomes) + if found.Some? then [found.value] else []
  {
    assert (requests + [r])[..|requests|] == requests;
  }

  method ListWork(requests: seq<Request>, matches: seq<Answer>, directById: map<nat, DirectMatch>)
    returns (work: seq<Work>)
    requires forall id: nat :: LastAnswer(matches, id) == if id in directById then Some(directById[id]) else None
    ensures work == WorkList(requests, matches, |requests| == 1)
  {
    work := [];
    assert WorkList([], matches, |requests| == 1) == [];
    hide WorkList, LastAnswer;
    for i := 0 to |requests|
      invariant work == WorkList(requests[..i], matches, |requests| == 1)
    {
      PrefixStep(requests, i);
      var request := requests[i];
      WorkListSnoc(requests[..i], request, matches, |requests| == 1);
      NothingAdded(work);
      if request.matchId in directById {
        work := work + [Work(request, Some(directById[request.matchId]))];
      } else if |requests| == 1 {
        work := work + [Work(request, None)];
      }
    }
    assert requests[..|requests|] == requests;
  }

  method CollectOutcomes(requests: seq<Request>, outcomes: seq<Outcome>, byId: map<nat, Outcome>)
    returns (collected: seq<Outcome>)
    requires forall id: nat :: LastOutcome(outcomes, id) == if id in byId then Some(byId[id]) else None
    ensures collected == Collect(requests, outcomes)
  {
    collected := [];
    assert Collect([], outcomes) == [];
    hide Collect, LastOutcome;
    for i := 0 to |requests|
      invariant collected == Collect(requests[..i], outcomes)
    {
      PrefixStep(requests, i);
      CollectSnoc(requests[..i], requests[i], outcomes);
      NothingAdded(collected);
      if requests[i].matchId in byId {
        collected := collected + [byId[requests[i].matchId]];
      }
    }
    assert requests[..|requests|] == requests;
  }

  method IndexOutcomes(outcomes: seq<Outcome>) returns (byId: map<nat, Outcome>)
    ensures forall id: nat :: LastOutcome(outcomes, id) == if id in byId then Some(byId[id]) else None
  {
    byId := map[];
    for i := 0 to |outcomes|
      invariant forall id: nat :: LastOutcome(outcomes[..i], id) == if id in byId then Some(byId[id]) else None
    {
      PrefixStep(outcomes, i);
      byId := byId[outcomes[i].matchId := outcomes[i]];
    }
    assert outcomes[..|outcomes|] == outcomes;
  }

  // ------------------------------------------------------------------ shape of a batch

  function OutcomeIds(outcomes: seq<Outcome>): seq<nat> {
    seq(|outcomes|, i requires 0 <= i < |outcomes| => outcomes[i].matchId)
  }

  /** The ids a batch must answer: the direct-answered requests, or the only one. */
  function AnsweredIds(requests: seq<Request>, matches: seq<Answer>, single: bool): seq<nat> {
    if requests == [] then []
    else
      var r := requests[|requests| - 1];
      AnsweredIds(requests[..|requests| - 1], matches, single) + if HasWork(matches, single, r) then [r.matchId] else []
  }

  lemma ResolveKeepsId(work: Work, w: World)
    ensures Resolve(work, w).matchId == work.request.matchId
  {
    hide Recover, RecoveredMatchResult, Arrange, NeedsRecovery, KnownPlayers, UsableRoster;
  }

  lemma {:induction false} LastOutcomeExact(outcomes: seq<Outcome>, id: nat)
    ensures LastOutcome(outcomes, id).Some? <==> id in OutcomeIds(outcomes)
    ensures LastOutcome(outcomes, id).Some? ==>
              LastOutcome(outcomes, id).value in outcomes && LastOutcome(outcomes, id).value.matchId == id
  {
    if outcomes == [] {
    } else {
      var init, last := outcomes[..|outcomes| - 1], outcomes[|outcomes| - 1];
      LastOutcomeExact(init, id);
      Snoc(outcomes);
      assert OutcomeIds(outcomes) == OutcomeIds(init) + [last.matchId];
    }
  }

  lemma {:induction false} WorkIds(requests: seq<Request>, matches: seq<Answer>, single: bool, w: World)
    ensures OutcomeIds(ResolveAll(WorkList(requests, matches, single), w)) == AnsweredIds(requests, matches, single)
  {
    if requests == [] {
    } else {
      hide Resolve, LastAnswer;
      var r := requests[|requests| - 1];
      var init := WorkList(requests[..|requests| - 1], matches, single);
      WorkIds(requests[..|requests| - 1], matches, single, w);
      if HasWork(matches, single, r) {
        var work := Work(r, LastAnswer(matches, r.matchId));
        ResolveKeepsId(work, w);
        assert ResolveAll(init + [work], w) == ResolveAll(init, w) + [Resolve(work, w)];
        assert OutcomeIds(ResolveAll(init, w) + [Resolve(work, w)]) == OutcomeIds(ResolveAll(init, w)) + [r.matchId];
      }
    }
  }

  lemma {:induction false} AnsweredExact(requests: seq<Request>, matches: seq<Answer>, single: bool, r: Request)
    requires r in requests
    ensures r.matchId in AnsweredIds(requests, matches, single) <==> HasWork(matches, single, r)
  {
    hide LastAnswer;
    if HasWork(matches, single, r) {
      AnsweredHas(requests, matches, single, r);
    } else {
      AnsweredLacks(requests, matches, single, r);
    }
  }

  lemma {:induction false} AnsweredHas(requests: seq<Request>, matches: seq<Answer>, single: bool, r: Request)
    requires r in requests && HasWork(matches, single, r)
    ensures r.matchId in AnsweredIds(requests, matches, single)
  {
    Snoc(requests);
    if r != requests[|requests| - 1] {
      AnsweredHas(requests[..|requests| - 1], matches, single, r);
    }
  }

  lemma {:induction false} AnsweredLacks(requests: seq<Request>, matches: seq<Answer>, single: bool, r: Request)
    requires !HasWork(matches, single, r)
    ensures r.matchId !in AnsweredIds(requests, matches, single)
  {
    if requests == [] {
    } else {
      hide LastAnswer;
      AnsweredLacks(requests[..|requests| - 1], matches, single, r);
      assert requests[|requests| - 1].matchId == r.matchId ==> !HasWork(matches, single, requests[|requests| - 1]);
    }
  }

  /** Collecting a prefix of the requests yields exactly their answered ids, in request order. */
  lemma {:induction false} CollectIds(some: seq<Request>, all: seq<Request>, matches: seq<Answer>, single: bool,
        w: World)
    requires forall r :: r in some ==> r in all
    ensures OutcomeIds(Collect(some, ResolveAll(WorkList(all, matches, single), w)))
            == AnsweredIds(some, matches, single)
  {
    if some == [] {
    } else {
      hide Resolve, LastAnswer, LastOutcome, WorkList, ResolveAll;
      var r := some[|some| - 1];
      var outcomes := ResolveAll(WorkList(all, matches, single), w);
      var init := Collect(some[..|some| - 1], outcomes);
      CollectIds(some[..|some| - 1], all, matches, single, w);
      WorkIds(all, matches, single, w);
      AnsweredExact(all, matches, single, r);
      LastOutcomeExact(outcomes, r.matchId);
      if HasWork(matches, single, r) {
        var found := LastOutcome(outcomes, r.matchId).value;
        assert OutcomeIds(init + [found]) == OutcomeIds(init) + [r.matchId];
      }
    }
  }

  /**
   * A batch that does not throw answers exactly its direct-answered requests in request
   * order; a singleton always receives exactly one outcome.
   */
  lemma BatchShape(requests: seq<Request>, call: DirectCall, w: World)
    requires RunBatch(requests, call, w).Resolved?
    ensures var ids := OutcomeIds(RunBatch(requests, call, w).outcomes);
            && (|requests| == 1 ==> ids == [requests[0].matchId])
            && (|requests| != 1 && call.Answers? ==> ids == AnsweredIds(requests, call.matches, false))
  {
    hide Resolve, LastAnswer, Collect, WorkList;
    if call.Answers? && requests != [] {
      CollectIds(requests, requests, call.matches, |requests| == 1, w);
      if |requests| == 1 {
        OneAnswer(requests[0], call.matches);
        assert requests == [requests[0]];
      }
    } else if requests != [] {
      ResolveKeepsId(Work(requests[0], None), w);
    }
  }

  lemma OneAnswer(r: Request, matches: seq<Answer>)
    ensures AnsweredIds([r], matches, true) == [r.matchId]
  {
    assert [r][..0] == [];
  }

  lemma {:induction false} WorkListMembers(requests: seq<Request>, matches: seq<Answer>, single: bool, work: Work)
    ensures work in WorkList(requests, matches, single)
            <==> && work.request in requests
                 && HasWork(matches, single, work.request)
                 && work.direct == LastAnswer(matches, work.request.matchId)
  {
    hide WorkList, LastAnswer;
    if requests == [] {
      NoWork(matches, single);
    } else {
      var init, r := requests[..|requests| - 1], requests[|requests| - 1];
      WorkListMembers(init, matches, single, work);
      Snoc(requests);
      WorkListSnoc(init, r, matches, single);
    }
  }

  lemma NoWork(matches: seq<Answer>, single: bool)
    ensures WorkList([], matches, single) == []
  {
  }

  /** A request that the batch resolves and whose resolution rejects. */
  ghost predicate Rejects(requests: seq<Request>, matches: seq<Answer>, w: World, r: Request) {
    && r in requests && HasWork(matches, |requests| == 1, r)
    && WorkThrows(Work(r, LastAnswer(matches, r.matchId)), w)
  }

  /**
   * Which batches throw: too many requests, a call error that names no single match, or one match
   * whose recovery rejects, however many others were answered completely.
   */
  lemma BatchThrowsExactly(requests: seq<Request>, call: DirectCall, w: World)
    ensures RunBatch(requests, call, w).Thrown?
            <==> (|| |requests| > BATCH_SIZE
                  || (call.CallError? && requests != []
                      && !(|requests| == 1 && call.recoverable && !WorkThrows(Work(requests[0], None), w)))
                  || (call.Answers? && exists r :: Rejects(requests, call.matches, w, r)))
  {
    hide Resolve, ResolveAll, WorkList, LastAnswer, WorkThrows, Collect, HasWork;
    if call.Answers? {
      var work := WorkList(requests, call.matches, |requests| == 1);
      if exists i :: 0 <= i < |work| && WorkThrows(work[i], w) {
        var i :| 0 <= i < |work| && WorkThrows(work[i], w);
        WorkListMembers(requests, call.matches, |requests| == 1, work[i]);
        assert work[i] == Work(work[i].request, LastAnswer(call.matches, work[i].request.matchId));
        assert Rejects(requests, call.matches, w, work[i].request);
      }
      if exists r :: Rejects(requests, call.matches, w, r) {
        var r :| Rejects(requests, call.matches, w, r);
        var item := Work(r, LastAnswer(call.matches, r.matchId));
        WorkListMembers(requests, call.matches, |requests| == 1, item);
        var i :| 0 <= i < |work| && work[i] == item;
        assert WorkThrows(work[i], w);
      }
    }
  }

  // -------------------------------------------------------------- scope of one request

  /**
   * Known non-ranked queues send at most the roster request, change no cache and are never
   * reconstructed; ranked and unknown queues are never reduced to a roster.
   */
  lemma ScopeDecidesOutcome(request: Request, direct: Option<DirectMatch>, e: Evidence, c: Caches)
    ensures var out := ResolveIdentified(request, direct, e, c);
            var requests := RequestsOf(request, direct, e, c);
            if RankedScope(EffectiveQueue(request, direct))
            then out.status != RosterOnly
            else && out.status !in {CompleteRecovered, RecoveryPending}
                 && requests <= [RosterCall]
                 && CachesAfter(request, direct, e, c) == c
  {
    hide Recover, Requests, Merge, Arrange, KnownPlayers, NeedsRecovery;
    RankedStatuses(request.(queueId := EffectiveQueue(request, direct)), direct, e, c);
  }

  /**
   * A request with a known non-ranked queue makes no history or demo request and leaves the caches
   * alone, whatever queue its direct row claims and whatever the evidence would offer.
   */
  lemma DiscoveryQueueIsAuthoritative(request: Request, direct: Option<DirectMatch>, e: Evidence, c: Caches,
        sql: LocalSql)
    requires request.queueId.Some? && request.queueId.value != RANKED_QUEUE
    ensures forall call :: call in RequestsOf(request, direct, e, c) ==> call == RosterCall
    ensures |RequestsOf(request, direct, e, c)| <= 1
    ensures CachesAfter(request, direct, e, c) == c && !ResolutionThrows(request, direct, e, c, sql)
    ensures ResolveIdentified(request, direct, e, c).status !in {CompleteRecovered, RecoveryPending}
  {
    hide Recover, Requests, Arrange, KnownPlayers, NeedsRecovery, ResolveIdentified, Throws;
    ScopeDecidesOutcome(request, direct, e, c);
  }

  // --------------------------------------------------------- soundness of a whole batch

  ghost predicate CleanWorld(w: World) {
    forall id :: CleanEvidence(w.evidence(id), w.caches(id))
  }

  /** No direct answer names ten participants and still needs recovery. */
  ghost predicate ShortPrefixes(matches: seq<Answer>) {
    forall a :: a in matches && NeedsRecovery(a.direct) ==> |Merge(KnownPlayers(Some(a.direct)), [])| < ROSTER_SIZE
  }

  /** What one outcome of a batch owes: it belongs to a request and, if recovered, is sound. */
  ghost predicate SoundOutcome(requests: seq<Request>, w: World, out: Outcome) {
    exists work: Work ::
      && work.request in requests && out == Resolve(work, w)
      && RecoveredSoundly(work.request, work.direct, w.evidence(work.request.matchId), out)
  }

  lemma ResolvedSoundly(work: Work, w: World)
    requires CleanWorld(w)
    requires work.direct.Some? && NeedsRecovery(work.direct.value) ==>
               |Merge(KnownPlayers(work.direct), [])| < ROSTER_SIZE
    ensures RecoveredSoundly(work.request, work.direct, w.evidence(work.request.matchId), Resolve(work, w))
  {
    hide Merge, KnownPlayers, NeedsRecovery, CleanEvidence, RecoveredSoundly, ResolveRanked, Arrange, Filter;
    var request, direct := work.request, work.direct;
    var e, c := w.evidence(request.matchId), w.caches(request.matchId);
    var effective := request.(queueId := EffectiveQueue(request, direct));
    if !Entered(direct) {
      CompleteDirectly(effective, direct, e, c);
      SoundUnlessRecovered(request, direct, e, Resolve(work, w));
    } else if RankedScope(EffectiveQueue(request, direct)) {
      NobodyMerged();
      SmallPrefixSound(effective, direct, e, c);
      SoundIgnoresQueue(effective, request, direct, e, Resolve(work, w));
    } else {
      ScopeDecidesOutcome(request, direct, e, c);
      SoundUnlessRecovered(request, direct, e, Resolve(work, w));
    }
  }

  lemma NobodyMerged()
    ensures |Merge(KnownPlayers(None), [])| < ROSTER_SIZE
  {
    MergeOfNothing();
  }

  lemma CompleteDirectly(request: Request, direct: Option<DirectMatch>, e: Evidence, c: Caches)
    requires !Entered(direct)
    ensures ResolveIdentified(request, direct, e, c).status == CompleteDirect
  {
    hide NeedsRecovery, Arrange, Filter;
  }

  lemma SoundUnlessRecovered(request: Request, direct: Option<DirectMatch>, e: Evidence, out: Outcome)
    requires out.status != CompleteRecovered
    ensures RecoveredSoundly(request, direct, e, out)
  {
  }

  lemma SoundIgnoresQueue(a: Request, b: Request, direct: Option<DirectMatch>, e: Evidence, out: Outcome)
    ensures RecoveredSoundly(a, direct, e, out) <==> RecoveredSoundly(b, direct, e, out)
  {
  }

  lemma {:induction false} LastAnswerMember(matches: seq<Answer>, id: nat)
    ensures LastAnswer(matches, id).Some? ==> Answer(id, LastAnswer(matches, id).value) in matches
  {
    if matches == [] {
    } else {
      LastAnswerMember(matches[..|matches| - 1], id);
      assert matches == matches[..|matches| - 1] + [matches[|matches| - 1]];
    }
  }

  lemma {:induction false} CollectMembers(requests: seq<Request>, outcomes: seq<Outcome>, out: Outcome)
    requires out in Collect(requests, outcomes)
    ensures out in outcomes
  {
    if requests == [] {
    } else {
      hide LastOutcome;
      var r := requests[|requests| - 1];
      LastOutcomeExact(outcomes, r.matchId);
      if out in Collect(requests[..|requests| - 1], outcomes) {
        CollectMembers(requests[..|requests| - 1], outcomes, out);
      }
    }
  }

  /**
   * Every recovered outcome of every batch is sound: whatever was answered, found and cached, as
   * long as no insufficient direct answer already names ten participants.
   */
  lemma BatchOutcomesSound(requests: seq<Request>, call: DirectCall, w: World, out: Outcome)
    requires CleanWorld(w) && (call.Answers? ==> ShortPrefixes(call.matches))
    requires RunBatch(requests, call, w).Resolved? && out in RunBatch(requests, call, w).outcomes
    ensures SoundOutcome(requests, w, out)
  {
    hide Resolve, WorkList, LastAnswer, WorkThrows, Collect, HasWork, CleanWorld, RecoveredSoundly, NeedsRecovery,
         KnownPlayers, Merge;
    if call.Answers? {
      var list := WorkList(requests, call.matches, |requests| == 1);
      CollectMembers(requests, ResolveAll(list, w), out);
      var i :| 0 <= i < |list| && Resolve(list[i], w) == out;
      var work := list[i];
      WorkListMembers(requests, call.matches, |requests| == 1, work);
      LastAnswerMember(call.matches, work.request.matchId);
      ResolvedSoundly(work, w);
      assert SoundOutcome(requests, w, out);
    } else {
      var work := Work(requests[0], None);
      ResolvedSoundly(work, w);
      assert work.request in requests;
      assert SoundOutcome(requests, w, out);
    }
  }

  // ------------------------------------------------------------------------ resumption

  /** The demo shell, when it names queue, start and duration. */
  datatype Demo = DemoFailed | DemoShell(queue: nat, hasEntryTime: bool, duration: nat)

  /** Stored participants of a match: recovered rows first, then history observations. */
  function StoredParticipants(recoveredRows: seq<Player>, historyRows: seq<Player>): seq<Player> {
    FirstById(Stored(recoveredRows) + historyRows, {})
  }

  predicate LocallyComplete(players: seq<Player>) {
    |players| == ROSTER_SIZE && ResolveSources([], Results(players)).Some?
  }

  predicate AuthoritativeDemo(request: Request, demo: Demo) {
    && demo.DemoShell?
    && (demo.queue > 0 || (request.queueId.Some? && request.queueId.value > 0))
    && demo.hasEntryTime
    && demo.duration > 0
  }

  datatype Resumption = Resumption(outcome: Outcome, demoCalls: nat)

  function Resume(request: Request, recoveredRows: seq<Player>, historyRows: seq<Player>, demo: Demo): Resumption {
    var players := StoredParticipants(recoveredRows, historyRows);
    if !LocallyComplete(players) then Resumption(Outcome(request.matchId, RecoveryPending, None, []), 0)
    else if !AuthoritativeDemo(request, demo) then Resumption(Outcome(request.matchId, RecoveryPending, None, []), 1)
    else
      var shell := ShellOf(ResolveSources([], Results(players)));
      Resumption(Terminalize(request, Some(MatchResult(players, true, false, false, false, 1, shell))), 1)
  }

  /** `resumeMatchRecovery`: local rows first, and the demo only for a roster they complete. */
  method ResumeMatchRecovery(engine: RelayEngine, request: Request, recoveredRows: seq<Player>,
        historyRows: seq<Player>, demo: Demo)
    returns (outcome: Outcome)
    modifies engine`vendorCalls
    ensures outcome == Resume(request, recoveredRows, historyRows, demo).outcome
    ensures |engine.vendorCalls|
            == |old(engine.vendorCalls)| + Resume(request, recoveredRows, historyRows, demo).demoCalls
    ensures engine.vendorCalls == old(engine.vendorCalls)
            + if LocallyComplete(StoredParticipants(recoveredRows, historyRows)) then [DemoCall] else []
  {
    hide LocallyComplete, StoredParticipants, Terminalize;
    var players := StoredParticipants(recoveredRows, historyRows);
    if !LocallyComplete(players) {
      NothingAdded(engine.vendorCalls);
      return Outcome(request.matchId, RecoveryPending, None, []);
    }
    engine.SendRequest(DemoCall);
    if !AuthoritativeDemo(request, demo) {
      return Outcome(request.matchId, RecoveryPending, None, []);
    }
    var shell := ShellOf(ResolveSources([], Results(players)));
    return Terminalize(request, Some(MatchResult(players, true, false, false, false, 1, shell)));
  }

  /**
   * Resumption completes exactly when there are ten distinct stored participants, the scored ones
   * among them prove a score and the demo shell is authoritative; it then publishes those ten,
   * minus any sentinel row.
   */
  lemma ResumeExactly(request: Request, recoveredRows: seq<Player>, historyRows: seq<Player>, demo: Demo)
    ensures var players := StoredParticipants(recoveredRows, historyRows);
            var r := Resume(request, recoveredRows, historyRows, demo);
            && Ids(players) == RealIds(Stored(recoveredRows) + historyRows)
            && |players| == |Ids(players)|
            && (r.outcome.status == CompleteRecovered <==> LocallyComplete(players) && AuthoritativeDemo(request, demo))
            && (r.outcome.status != CompleteRecovered ==> r.outcome.status == RecoveryPending)
            && r.demoCalls <= 1
            && (r.outcome.status == CompleteRecovered ==>
                  && Proved(r.outcome.result.value.shell)
                  && multiset(r.outcome.result.value.players) == multiset(Filter(players, Usable)))
  {
    hide FirstById, Arrange, Filter, ShellOf, ResolveSources, Proved, RealIds, Ids, DistinctIds;
    var players := StoredParticipants(recoveredRows, historyRows);
    FirstByIdExact(Stored(recoveredRows) + historyRows, {});
    DistinctIdsSize(players);
    ArrangeSortsAndPermutes(Filter(players, Usable));
    if ResolveSources([], Results(players)).Some? {
      ResolvedShellIsProved([], Results(players), NO_SHELL);
      ShellIsItself(ResolveSources([], Results(players)));
    }
  }

  lemma ShellIsItself(r: Option<ProvedScore>)
    ensures OrElseShell(ShellOf(r), NO_SHELL) == ShellOf(r)
  {
  }
}
