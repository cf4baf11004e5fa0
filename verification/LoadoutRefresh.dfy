/**
 * Concurrent loadout refreshes of one player under the advisory lock, interleaved statement by
 * statement; any caller may fail or crash anywhere, and time passes in between.
 */
module LoadoutRefresh {
  import opened Seqs
  import opened Loadouts

  datatype Pc =
    | Waiting(manual: bool)
    | Locked(manual: bool)
    | Allowed(manual: bool)
    | Recorded(manual: bool)
    | Asking(manual: bool)
    | Loaded(manual: bool, list: seq<Deck>)
    | InTransaction(manual: bool, list: seq<Deck>, at: nat)
    | Unlocking
    | Gone

  /** A vendor call: when it was made, and how many manual attempts had been recorded by then. */
  datatype Call = Call(manual: bool, at: nat, attempts: nat)

  /** `attempts`, `calls` and `commits` are the history; the rest is the state. */
  datatype State = State(
    clock: nat,
    fetch: Option<Fetch>,
    decks: map<string, Stored>,
    lock: Option<nat>,
    callers: map<nat, Pc>,
    attempts: seq<nat>,
    calls: seq<Call>,
    commits: seq<seq<Deck>>)

  datatype Step =
    | Tick(microseconds: nat)
    | Enter(c: nat, manual: bool)
    | Acquire(c: nat)
    | Decide(c: nat)
    | Record(c: nat)
    | Ask(c: nat)
    | Answer(c: nat, reply: Reply, known: set<nat>)
    | Begin(c: nat)
    | Commit(c: nat)
    | Fail(c: nat)
    | Unlock(c: nat)
    | Crash(c: nat)

  predicate HoldsLock(pc: Pc) {
    !pc.Waiting? && !pc.Gone?
  }

  function Moved(s: State, c: nat, pc: Pc): State {
    s.(callers := s.callers[c := pc])
  }

  function Freed(s: State, c: nat): Option<nat> {
    if s.lock == Some(c) then None else s.lock
  }

  /** The manual attempt is written in its own statement, outside any transaction. */
  function Attempted(s: State): State {
    s.(fetch := Some(AttemptStamp(s.fetch, s.clock)), attempts := s.attempts + [s.clock])
  }

  function Committed(s: State, manual: bool, list: seq<Deck>, at: nat): State {
    s.(fetch := Some(CommitStamp(s.fetch, manual, at)),
       decks := Replaced(s.decks, list, at),
       commits := s.commits + [list])
  }

  function Asked(s: State, manual: bool): State {
    s.(calls := s.calls + [Call(manual, s.clock, |s.attempts|)])
  }

  /** One statement of one caller, who is at `pc`; a step that is not enabled changes nothing. */
  function CallerStep(s: State, step: Step, c: nat, pc: Pc): State {
    match step
    case Acquire(_) => if pc.Waiting? && s.lock.None? then Moved(s, c, Locked(pc.manual)).(lock := Some(c)) else s
    case Decide(_) =>
      if pc.Locked?
      then Moved(s, c, if Admitted(s.fetch, pc.manual, Ms(s.clock)) then Allowed(pc.manual) else Unlocking) else s
    case Record(_) => if pc.Allowed? then Moved(if pc.manual then Attempted(s) else s, c, Recorded(pc.manual)) else s
    case Ask(_) => if pc.Recorded? then Moved(Asked(s, pc.manual), c, Asking(pc.manual)) else s
    case Answer(_, reply, known) =>
      if pc.Asking?
      then Moved(s, c, if Rejected(reply) then Unlocking else Loaded(pc.manual, KnownDecks(reply.rows, known))) else s
    case Begin(_) => if pc.Loaded? then Moved(s, c, InTransaction(pc.manual, pc.list, s.clock)) else s
    case Commit(_) => if pc.InTransaction? then Moved(Committed(s, pc.manual, pc.list, pc.at), c, Unlocking) else s
    case Fail(_) => if HoldsLock(pc) then Moved(s, c, Unlocking) else s
    case Unlock(_) => if pc.Unlocking? then Moved(s, c, Gone).(lock := Freed(s, c)) else s
    case Crash(_) => if pc.Gone? then s else Moved(s, c, Gone).(lock := Freed(s, c))
    case _ => s
  }

  function Next(s: State, step: Step): State {
    if step.Tick? then s.(clock := s.clock + step.microseconds)
    else if step.Enter? then if step.c in s.callers then s else Moved(s, step.c, Waiting(step.manual))
    else if step.c in s.callers then CallerStep(s, step, step.c, s.callers[step.c])
    else s
  }

  /** A moment before anybody calls, on whatever is stored by then. */
  function Start(clock: nat, fetch: Option<Fetch>, decks: map<string, Stored>): State {
    State(clock, fetch, decks, None, map[], [], [], [])
  }

  function Run(start: State, schedule: seq<Step>): State {
    if schedule == [] then start else Next(Run(start, schedule[..|schedule| - 1]), schedule[|schedule| - 1])
  }

  lemma RunSnoc(start: State, schedule: seq<Step>, step: Step)
    ensures Run(start, schedule + [step]) == Next(Run(start, schedule), step)
  {
    assert (schedule + [step])[..|schedule|] == schedule;
  }

  // ----------------------------------------------------------------------- the history

  /** Ten minutes apart, in the milliseconds the program sees. */
  ghost predicate Spaced(attempts: seq<nat>) {
    forall i, j :: 0 <= i < j < |attempts| ==> Ms(attempts[i]) + COOLDOWN_MS <= Ms(attempts[j])
  }

  ghost predicate AllBefore(attempts: seq<nat>, at: nat) {
    forall i :: 0 <= i < |attempts| ==> attempts[i] <= at
  }

  /** Every attempt is at least ten minutes old. */
  ghost predicate Cool(attempts: seq<nat>, at: nat) {
    forall i :: 0 <= i < |attempts| ==> Ms(attempts[i]) + COOLDOWN_MS <= Ms(at)
  }

  /** A manual call follows an attempt of its own; an automatic one, a cooldown after all attempts. */
  ghost predicate CallOk(attempts: seq<nat>, call: Call) {
    && call.attempts <= |attempts|
    && (call.manual ==> 1 <= call.attempts && attempts[call.attempts - 1] <= call.at)
    && (!call.manual ==> Cool(attempts[..call.attempts], call.at))
  }

  ghost predicate CallsOk(attempts: seq<nat>, calls: seq<Call>) {
    forall k :: 0 <= k < |calls| ==> CallOk(attempts, calls[k])
  }

  /** No two manual calls share an attempt, and `bound` is above all of them. */
  ghost predicate OwnAttempts(calls: seq<Call>) {
    forall k, l :: 0 <= k < l < |calls| && calls[k].manual && calls[l].manual ==> calls[k].attempts < calls[l].attempts
  }

  ghost predicate ManualBelow(calls: seq<Call>, bound: nat) {
    forall k :: 0 <= k < |calls| && calls[k].manual ==> calls[k].attempts < bound
  }

  // ----------------------------------------------------------------------- invariant

  ghost predicate LockOk(s: State) {
    forall c :: c in s.callers && HoldsLock(s.callers[c]) ==> s.lock == Some(c)
  }

  /** The stored manual time covers every attempt. */
  ghost predicate Covered(s: State) {
    && AllBefore(s.attempts, s.clock)
    && (s.attempts != [] ==>
          && s.fetch.Some?
          && s.fetch.value.lastManual.Some?
          && AllBefore(s.attempts, s.fetch.value.lastManual.value))
  }

  ghost predicate PcOk(s: State, pc: Pc) {
    match pc
    case Allowed(_) => Cool(s.attempts, s.clock)
    case Recorded(manual) =>
      if manual then s.attempts != [] && ManualBelow(s.calls, |s.attempts|) else Cool(s.attempts, s.clock)
    case InTransaction(_, _, at) => AllBefore(s.attempts, at) && at <= s.clock
    case _ => true
  }

  ghost predicate History(s: State) {
    Spaced(s.attempts) && CallsOk(s.attempts, s.calls) && OwnAttempts(s.calls)
  }

  ghost predicate Inv(s: State) {
    LockOk(s) && Covered(s) && History(s) && forall c :: c in s.callers ==> PcOk(s, s.callers[c])
  }

  lemma LockStep(s: State, step: Step)
    requires LockOk(s)
    ensures LockOk(Next(s, step))
  {
    hide Admitted, Rejected, KnownDecks, Replaced, AttemptStamp, CommitStamp;
  }

  /** A caller that is let in finds every attempt ten minutes old. */
  lemma AdmittedIsCool(s: State, manual: bool)
    requires Covered(s) && Admitted(s.fetch, manual, Ms(s.clock))
    ensures Cool(s.attempts, s.clock)
  {
    FreshnessExactly(s.fetch, Ms(s.clock));
    if s.attempts != [] {
      forall i | 0 <= i < |s.attempts|
        ensures Ms(s.attempts[i]) + COOLDOWN_MS <= Ms(s.clock)
      {
        assert s.attempts[i] <= s.fetch.value.lastManual.value;
      }
    }
  }

  lemma CoolLater(attempts: seq<nat>, at: nat, later: nat)
    requires Cool(attempts, at) && at <= later
    ensures Cool(attempts, later)
  {
  }

  lemma AttemptKeepsSpacing(attempts: seq<nat>, at: nat)
    requires Spaced(attempts) && Cool(attempts, at)
    ensures Spaced(attempts + [at])
  {
  }

  lemma AttemptKeepsCalls(attempts: seq<nat>, at: nat, calls: seq<Call>)
    requires CallsOk(attempts, calls)
    ensures CallsOk(attempts + [at], calls)
    ensures ManualBelow(calls, |attempts| + 1)
  {
    forall k | 0 <= k < |calls|
      ensures CallOk(attempts + [at], calls[k])
    {
      assert CallOk(attempts, calls[k]);
      assert (attempts + [at])[..calls[k].attempts] == attempts[..calls[k].attempts];
    }
  }

  lemma CallJoinsHistory(s: State, manual: bool)
    requires History(s) && Covered(s) && PcOk(s, Recorded(manual))
    ensures History(Asked(s, manual))
  {
    var call := Call(manual, s.clock, |s.attempts|);
    assert s.attempts[..|s.attempts|] == s.attempts;
    assert CallOk(s.attempts, call);
    var calls := s.calls + [call];
    assert forall k :: 0 <= k < |s.calls| ==> calls[k] == s.calls[k];
  }

  lemma HistoryStep(s: State, step: Step)
    requires Inv(s)
    ensures History(Next(s, step))
  {
    hide Spaced, CallsOk, OwnAttempts, Cool, Admitted, Rejected, KnownDecks, Replaced, AttemptStamp, CommitStamp,
         AllBefore, ManualBelow;
    if !step.Tick? && step.c in s.callers {
      var pc := s.callers[step.c];
      assert PcOk(s, pc);
      if step.Record? && pc.Allowed? && pc.manual {
        AttemptKeepsSpacing(s.attempts, s.clock);
        AttemptKeepsCalls(s.attempts, s.clock, s.calls);
      } else if step.Ask? && pc.Recorded? {
        CallJoinsHistory(s, pc.manual);
      }
    }
  }

  lemma CoveredStep(s: State, step: Step)
    requires Inv(s)
    ensures Covered(Next(s, step))
  {
    hide Spaced, CallsOk, OwnAttempts, Cool, Admitted, Rejected, KnownDecks, Replaced, ManualBelow;
    if !step.Tick? && step.c in s.callers {
      assert PcOk(s, s.callers[step.c]);
    }
  }

  /** The caller that moves. */
  lemma OwnStep(s: State, step: Step, c: nat)
    requires Inv(s) && !step.Tick? && c == step.c && c in Next(s, step).callers
    ensures PcOk(Next(s, step), Next(s, step).callers[c])
  {
    hide Spaced, CallsOk, OwnAttempts, Cool, Admitted, Rejected, KnownDecks, Replaced, AttemptStamp, CommitStamp,
         ManualBelow;
    if c in s.callers {
      var pc := s.callers[c];
      assert PcOk(s, pc);
      if step.Decide? && pc.Locked? && Admitted(s.fetch, pc.manual, Ms(s.clock)) {
        AdmittedIsCool(s, pc.manual);
      } else if step.Record? && pc.Allowed? && pc.manual {
        AttemptKeepsCalls(s.attempts, s.clock, s.calls);
      }
    }
  }

  /** Nobody else is past the lock, so nobody else is affected. */
  lemma OthersStep(s: State, step: Step, q: nat)
    requires Inv(s) && q in Next(s, step).callers && (step.Tick? || q != step.c)
    ensures PcOk(Next(s, step), Next(s, step).callers[q])
  {
    hide Spaced, CallsOk, OwnAttempts, Cool, Admitted, Rejected, KnownDecks, Replaced, AttemptStamp, CommitStamp,
         ManualBelow;
    assert q in s.callers && PcOk(s, s.callers[q]);
    if step.Tick? {
      if s.callers[q].Allowed? || s.callers[q].Recorded? {
        TickKeepsPc(s, step.microseconds, s.callers[q]);
      }
    }
  }

  lemma TickKeepsPc(s: State, microseconds: nat, pc: Pc)
    requires PcOk(s, pc)
    ensures PcOk(s.(clock := s.clock + microseconds), pc)
  {
    hide ManualBelow;
    if Cool(s.attempts, s.clock) {
      CoolLater(s.attempts, s.clock, s.clock + microseconds);
    }
  }

  lemma InvStep(s: State, step: Step)
    requires Inv(s)
    ensures Inv(Next(s, step))
  {
    LockStep(s, step);
    HistoryStep(s, step);
    CoveredStep(s, step);
    hide Next, PcOk, Covered, History;
    forall c | c in Next(s, step).callers
      ensures PcOk(Next(s, step), Next(s, step).callers[c])
    {
      if !step.Tick? && c == step.c {
        OwnStep(s, step, c);
      } else {
        OthersStep(s, step, c);
      }
    }
  }

  lemma {:induction false} InvHolds(clock: nat, fetch: Option<Fetch>, decks: map<string, Stored>, schedule: seq<Step>)
    ensures Inv(Run(Start(clock, fetch, decks), schedule))
  {
    hide Run, Next;
    if schedule == [] {
      EmptyRun(Start(clock, fetch, decks));
    } else {
      var init, step := schedule[..|schedule| - 1], schedule[|schedule| - 1];
      InvHolds(clock, fetch, decks, init);
      InvStep(Run(Start(clock, fetch, decks), init), step);
      Snoc(schedule);
      RunSnoc(Start(clock, fetch, decks), init, step);
    }
  }

  lemma EmptyRun(start: State)
    ensures Run(start, []) == start
  {
  }

  // -------------------------------------------------------------------------- results

  /** However callers interleave, and even when every vendor call fails, attempts keep their distance. */
  lemma AttemptsTenMinutesApart(clock: nat, fetch: Option<Fetch>, decks: map<string, Stored>, schedule: seq<Step>,
        i: nat, j: nat)
    requires i < j < |Run(Start(clock, fetch, decks), schedule).attempts|
    ensures var attempts := Run(Start(clock, fetch, decks), schedule).attempts;
            && Ms(attempts[i]) + COOLDOWN_MS <= Ms(attempts[j])
            && attempts[j] - attempts[i] > 1000 * COOLDOWN_MS - 1000
  {
    hide Run;
    InvHolds(clock, fetch, decks, schedule);
  }

  /** Every manual vendor call follows a recorded attempt, and no two calls share one. */
  lemma EveryManualCallHasItsAttempt(clock: nat, fetch: Option<Fetch>, decks: map<string, Stored>,
        schedule: seq<Step>, k: nat)
    requires var s := Run(Start(clock, fetch, decks), schedule); k < |s.calls| && s.calls[k].manual
    ensures var s := Run(Start(clock, fetch, decks), schedule);
            var own := s.calls[k].attempts - 1;
            && 0 <= own < |s.attempts| && s.attempts[own] <= s.calls[k].at
            && forall l :: 0 <= l < |s.calls| && l != k && s.calls[l].manual ==> s.calls[l].attempts - 1 != own
  {
    hide Run;
    InvHolds(clock, fetch, decks, schedule);
    var s := Run(Start(clock, fetch, decks), schedule);
    assert CallOk(s.attempts, s.calls[k]);
  }

  /** An automatic vendor call waits out every manual attempt recorded before it. */
  lemma AutomaticCallsRespectTheCooldown(clock: nat, fetch: Option<Fetch>, decks: map<string, Stored>,
        schedule: seq<Step>, k: nat)
    requires var s := Run(Start(clock, fetch, decks), schedule); k < |s.calls| && !s.calls[k].manual
    ensures var s := Run(Start(clock, fetch, decks), schedule);
            && s.calls[k].attempts <= |s.attempts|
            && forall i :: 0 <= i < s.calls[k].attempts ==> Ms(s.attempts[i]) + COOLDOWN_MS <= Ms(s.calls[k].at)
  {
    hide Run;
    InvHolds(clock, fetch, decks, schedule);
    var s := Run(Start(clock, fetch, decks), schedule);
    assert CallOk(s.attempts, s.calls[k]);
    assert forall i :: 0 <= i < s.calls[k].attempts ==> s.attempts[..s.calls[k].attempts][i] == s.attempts[i];
  }

  // ---------------------------------------------------------------------------- decks

  lemma SameDeckMap(a: map<string, Stored>, b: map<string, Stored>)
    requires DeckMap(a) == DeckMap(b)
    ensures a.Keys == b.Keys
    ensures forall k :: k in a ==> a[k].deck == b[k].deck
  {
    assert DeckMap(a).Keys == a.Keys && DeckMap(b).Keys == b.Keys;
    forall k | k in a
      ensures a[k].deck == b[k].deck
    {
      assert DeckMap(a)[k] == DeckMap(b)[k];
    }
  }

  /** What the last committed vendor list says, or what was there before any commit. */
  ghost predicate DecksOk(decks: map<string, Stored>, s: State) {
    if s.commits == [] then s.decks == decks
    else DeckMap(s.decks) == DeckMap(Replaced(map[], s.commits[|s.commits| - 1], 0))
  }

  lemma DecksStep(decks: map<string, Stored>, s: State, step: Step)
    requires DecksOk(decks, s)
    ensures DecksOk(decks, Next(s, step))
    ensures !(step.Commit? && step.c in s.callers && s.callers[step.c].InTransaction?) ==>
              Next(s, step).decks == s.decks
  {
    hide Admitted, Rejected, KnownDecks, Replaced, AttemptStamp, CommitStamp, DeckMap;
    if step.Commit? && step.c in s.callers && s.callers[step.c].InTransaction? {
      var pc := s.callers[step.c];
      ReplacedForgets(s.decks, map[], pc.list, pc.at, 0);
    }
  }

  /**
   * At every moment the stored decks are the last-wins decks of the last refresh that committed:
   * failed, refused and crashed refreshes leave the older ones.
   */
  lemma {:induction false} DecksAreTheLastCommitted(clock: nat, fetch: Option<Fetch>, decks: map<string, Stored>,
        schedule: seq<Step>)
    ensures DecksOk(decks, Run(Start(clock, fetch, decks), schedule))
  {
    hide Run, Next, Replaced, DeckMap;
    if schedule == [] {
      EmptyRun(Start(clock, fetch, decks));
    } else {
      var init, step := schedule[..|schedule| - 1], schedule[|schedule| - 1];
      DecksAreTheLastCommitted(clock, fetch, decks, init);
      DecksStep(decks, Run(Start(clock, fetch, decks), init), step);
      Snoc(schedule);
      RunSnoc(Start(clock, fetch, decks), init, step);
    }
  }

  /** The same, row by row: one row per key of the last committed list, holding its last deck. */
  lemma StoredDecksExactly(clock: nat, fetch: Option<Fetch>, decks: map<string, Stored>, schedule: seq<Step>,
        key: string)
    requires Run(Start(clock, fetch, decks), schedule).commits != []
    ensures var s := Run(Start(clock, fetch, decks), schedule);
            var list := s.commits[|s.commits| - 1];
            && (key in s.decks <==> HasKey(list, key))
            && (key in s.decks ==> LastOf(list, key, s.decks[key].deck))
  {
    hide Run, Replaced, DeckMap, HasKey, LastOf;
    DecksAreTheLastCommitted(clock, fetch, decks, schedule);
    var s := Run(Start(clock, fetch, decks), schedule);
    var list := s.commits[|s.commits| - 1];
    ReplacedExactly(map[], list, 0);
    SameDeckMap(s.decks, Replaced(map[], list, 0));
  }

  // ---------------------------------------------------------- where committed lists come from

  /** Step `i` is a vendor answer with news, and `list` is what it brings. */
  ghost predicate AnsweredAt(schedule: seq<Step>, i: nat, list: seq<Deck>) {
    && i < |schedule| && schedule[i].Answer?
    && HasNews(schedule[i].reply)
    && list == KnownDecks(schedule[i].reply.rows, schedule[i].known)
  }

  /** The list in hand came from an answer later than `floor`. */
  ghost predicate InHand(schedule: seq<Step>, floor: nat, list: seq<Deck>) {
    exists i: nat :: floor <= i && AnsweredAt(schedule, i, list)
  }

  function Floor(at: seq<nat>): nat {
    if at == [] then 0 else at[|at| - 1] + 1
  }

  /** `at` lists the answers of the committed lists, each one later than the one before. */
  ghost predicate Traced(schedule: seq<Step>, s: State, at: seq<nat>) {
    && |at| == |s.commits|
    && (forall k, l :: 0 <= k < l < |at| ==> at[k] < at[l])
    && (forall k :: 0 <= k < |at| ==> AnsweredAt(schedule, at[k], s.commits[k]))
    && (forall c :: c in s.callers && (s.callers[c].Loaded? || s.callers[c].InTransaction?) ==>
          InHand(schedule, Floor(at), s.callers[c].list))
  }

  lemma AnsweredLater(schedule: seq<Step>, step: Step, i: nat, list: seq<Deck>)
    requires AnsweredAt(schedule, i, list)
    ensures AnsweredAt(schedule + [step], i, list)
  {
    assert (schedule + [step])[i] == schedule[i];
  }

  lemma TracedLater(schedule: seq<Step>, step: Step, s: State, at: seq<nat>)
    requires Traced(schedule, s, at)
    ensures Traced(schedule + [step], s, at)
  {
    hide AnsweredAt;
    forall i: nat, list | AnsweredAt(schedule, i, list)
      ensures AnsweredAt(schedule + [step], i, list)
    {
      AnsweredLater(schedule, step, i, list);
    }
    forall list | InHand(schedule, Floor(at), list)
      ensures InHand(schedule + [step], Floor(at), list)
    {
      var i: nat :| Floor(at) <= i && AnsweredAt(schedule, i, list);
      assert AnsweredAt(schedule + [step], i, list);
    }
  }

  /** A fresh answer is later than every committed one. */
  lemma AnswerIsInHand(schedule: seq<Step>, s: State, at: seq<nat>, step: Step)
    requires Traced(schedule, s, at) && step.Answer? && !Rejected(step.reply)
    ensures InHand(schedule + [step], Floor(at), KnownDecks(step.reply.rows, step.known))
  {
    hide KnownDecks, Rejected;
    RejectedExactly(step.reply);
    if at != [] {
      assert AnsweredAt(schedule, at[|at| - 1], s.commits[|at| - 1]);
    }
    assert AnsweredAt(schedule + [step], |schedule|, KnownDecks(step.reply.rows, step.known));
  }

  lemma TracedStep(schedule: seq<Step>, s: State, step: Step, at: seq<nat>) returns (next: seq<nat>)
    requires Inv(s) && Traced(schedule, s, at)
    ensures Traced(schedule + [step], Next(s, step), next)
  {
    hide Admitted, Rejected, KnownDecks, Replaced, AttemptStamp, CommitStamp, AnsweredAt, InHand, Covered, History,
         PcOk;
    TracedLater(schedule, step, s, at);
    next := at;
    if step.Commit? && step.c in s.callers && s.callers[step.c].InTransaction? {
      next := TracedCommit(schedule + [step], s, step.c, at);
    } else if step.Answer? && step.c in s.callers && s.callers[step.c].Asking? && !Rejected(step.reply) {
      AnswerIsInHand(schedule, s, at, step);
    }
  }

  lemma TracedCommit(schedule: seq<Step>, s: State, c: nat, at: seq<nat>) returns (next: seq<nat>)
    requires LockOk(s) && Traced(schedule, s, at) && c in s.callers && s.callers[c].InTransaction?
    ensures Traced(schedule, Next(s, Commit(c)), next)
  {
    hide Admitted, Rejected, KnownDecks, Replaced, AttemptStamp, CommitStamp, AnsweredAt;
    var pc := s.callers[c];
    assert InHand(schedule, Floor(at), pc.list);
    var i: nat :| Floor(at) <= i && AnsweredAt(schedule, i, pc.list);
    next := at + [i];
    forall q | q in s.callers && q != c
      ensures !HoldsLock(s.callers[q])
    {
      assert HoldsLock(pc);
    }
  }

  lemma {:induction false} TracedRun(clock: nat, fetch: Option<Fetch>, decks: map<string, Stored>, schedule: seq<Step>)
    returns (at: seq<nat>)
    ensures Traced(schedule, Run(Start(clock, fetch, decks), schedule), at)
  {
    hide Run, Next, Inv, AnsweredAt, InHand;
    if schedule == [] {
      at := [];
      EmptyRun(Start(clock, fetch, decks));
    } else {
      var init, step := schedule[..|schedule| - 1], schedule[|schedule| - 1];
      at := TracedRun(clock, fetch, decks, init);
      InvHolds(clock, fetch, decks, init);
      at := TracedStep(init, Run(Start(clock, fetch, decks), init), step, at);
      Snoc(schedule);
      RunSnoc(Start(clock, fetch, decks), init, step);
    }
  }

  /** The commits of a run, each with the position of the vendor answer it stores. */
  ghost predicate CommitsFrom(schedule: seq<Step>, commits: seq<seq<Deck>>, at: seq<nat>) {
    && |at| == |commits|
    && (forall k, l :: 0 <= k < l < |at| ==> at[k] < at[l])
    && (forall k :: 0 <= k < |at| ==> AnsweredAt(schedule, at[k], commits[k]))
  }

  /**
   * Every list that was ever committed came from a vendor answer that was an array, empty or with a row
   * that was not refused, and holds what that answer brings; later commits come from later answers.
   */
  lemma CommitsComeFromAnswers(clock: nat, fetch: Option<Fetch>, decks: map<string, Stored>, schedule: seq<Step>)
    ensures exists at :: CommitsFrom(schedule, Run(Start(clock, fetch, decks), schedule).commits, at)
  {
    hide Run, AnsweredAt;
    var at := TracedRun(clock, fetch, decks, schedule);
    assert CommitsFrom(schedule, Run(Start(clock, fetch, decks), schedule).commits, at);
  }

  // --------------------------------------------------------------- below a millisecond

  /**
   * Stored times have microseconds, the program compares milliseconds: two attempts the program
   * lets through are a full ten minutes apart exactly when this holds.
   */
  lemma FullTenMinutesExactly(first: nat, second: nat)
    requires Ms(first) + COOLDOWN_MS <= Ms(second)
    ensures second - first >= 1000 * COOLDOWN_MS
            <==> Ms(second) > Ms(first) + COOLDOWN_MS || second % 1000 >= first % 1000
  {
    assert first == 1000 * Ms(first) + first % 1000;
    assert second == 1000 * Ms(second) + second % 1000;
  }

  function ManualRound(c: nat): seq<Step> {
    [Enter(c, true), Acquire(c), Decide(c), Record(c), Fail(c), Unlock(c)]
  }

  /** One refused vendor call: an attempt is recorded at the clock, and the caller leaves. */
  lemma ManualRoundRecords(start: State, schedule: seq<Step>, c: nat)
    requires var s := Run(start, schedule);
             s.lock.None? && c !in s.callers && Admitted(s.fetch, true, Ms(s.clock))
    ensures var s := Run(start, schedule);
            var t := Run(start, schedule + ManualRound(c));
            && t.attempts == s.attempts + [s.clock] && t.fetch == Some(AttemptStamp(s.fetch, s.clock))
            && t.clock == s.clock && t.lock.None? && t.callers.Keys == s.callers.Keys + {c}
  {
    hide Run, Admitted, AttemptStamp;
    RunSnoc(start, schedule, Enter(c, true));
    RunSnoc(start, schedule + [Enter(c, true)], Acquire(c));
    RunSnoc(start, schedule + [Enter(c, true)] + [Acquire(c)], Decide(c));
    RunSnoc(start, schedule + [Enter(c, true)] + [Acquire(c)] + [Decide(c)], Record(c));
    RunSnoc(start, schedule + [Enter(c, true)] + [Acquire(c)] + [Decide(c)] + [Record(c)], Fail(c));
    RunSnoc(start, schedule + [Enter(c, true)] + [Acquire(c)] + [Decide(c)] + [Record(c)] + [Fail(c)], Unlock(c));
    assert schedule + [Enter(c, true)] + [Acquire(c)] + [Decide(c)] + [Record(c)] + [Fail(c)] + [Unlock(c)]
           == schedule + ManualRound(c);
  }

  function AskingRound(c: nat, manual: bool): seq<Step> {
    [Enter(c, manual), Acquire(c), Decide(c), Record(c), Ask(c)]
  }

  function AnswerRound(c: nat, reply: Reply, known: set<nat>): seq<Step> {
    [Answer(c, reply, known), Begin(c), Commit(c), Unlock(c)]
  }

  /** A caller who is let in asks the vendor; a manual one leaves an attempt behind. */
  lemma AskingRoundAsks(start: State, schedule: seq<Step>, c: nat, manual: bool)
    requires var s := Run(start, schedule);
             s.lock.None? && c !in s.callers && Admitted(s.fetch, manual, Ms(s.clock))
    ensures var s := Run(start, schedule);
            var t := Run(start, schedule + AskingRound(c, manual));
            && c in t.callers && t.callers[c] == Asking(manual) && t.lock == Some(c) && t.clock == s.clock
            && t.commits == s.commits && t.decks == s.decks
            && t.attempts == (if manual then s.attempts + [s.clock] else s.attempts)
            && |t.calls| == |s.calls| + 1
  {
    hide Run, Admitted, AttemptStamp;
    RunSnoc(start, schedule, Enter(c, manual));
    RunSnoc(start, schedule + [Enter(c, manual)], Acquire(c));
    RunSnoc(start, schedule + [Enter(c, manual)] + [Acquire(c)], Decide(c));
    RunSnoc(start, schedule + [Enter(c, manual)] + [Acquire(c)] + [Decide(c)], Record(c));
    RunSnoc(start, schedule + [Enter(c, manual)] + [Acquire(c)] + [Decide(c)] + [Record(c)], Ask(c));
    assert schedule + [Enter(c, manual)] + [Acquire(c)] + [Decide(c)] + [Record(c)] + [Ask(c)]
           == schedule + AskingRound(c, manual);
  }

  lemma AnswerRoundCommits(start: State, schedule: seq<Step>, c: nat, reply: Reply, known: set<nat>)
    requires var s := Run(start, schedule); c in s.callers && s.callers[c].Asking? && s.lock == Some(c)
    requires HasNews(reply)
    ensures var s := Run(start, schedule);
            var t := Run(start, schedule + AnswerRound(c, reply, known));
            && t.commits == s.commits + [KnownDecks(reply.rows, known)]
            && t.decks == Replaced(s.decks, KnownDecks(reply.rows, known), s.clock)
            && t.attempts == s.attempts && t.calls == s.calls
            && t.fetch.Some? && t.fetch.value.fetchedAt == s.clock
            && t.clock == s.clock && t.lock.None?
  {
    hide Run, Admitted, AttemptStamp, KnownDecks, Replaced, Rejected;
    RejectedExactly(reply);
    RunSnoc(start, schedule, Answer(c, reply, known));
    RunSnoc(start, schedule + [Answer(c, reply, known)], Begin(c));
    RunSnoc(start, schedule + [Answer(c, reply, known)] + [Begin(c)], Commit(c));
    RunSnoc(start, schedule + [Answer(c, reply, known)] + [Begin(c)] + [Commit(c)], Unlock(c));
    assert schedule + [Answer(c, reply, known)] + [Begin(c)] + [Commit(c)] + [Unlock(c)]
           == schedule + AnswerRound(c, reply, known);
  }

  /**
   * A caller who is let in and gets an answer with news commits exactly what it brings, at the clock,
   * and leaves the lock free, whatever happened before.
   */
  lemma AdmittedRefreshCommits(start: State, schedule: seq<Step>, c: nat, manual: bool, reply: Reply, known: set<nat>)
    requires var s := Run(start, schedule);
             s.lock.None? && c !in s.callers && Admitted(s.fetch, manual, Ms(s.clock))
    requires HasNews(reply)
    ensures var s := Run(start, schedule);
            var t := Run(start, schedule + AskingRound(c, manual) + AnswerRound(c, reply, known));
            && t.commits == s.commits + [KnownDecks(reply.rows, known)]
            && t.decks == Replaced(s.decks, KnownDecks(reply.rows, known), s.clock)
            && t.attempts == (if manual then s.attempts + [s.clock] else s.attempts)
            && |t.calls| == |s.calls| + 1
            && t.fetch.Some? && t.fetch.value.fetchedAt == s.clock
            && t.lock.None?
  {
    hide Run, Admitted, KnownDecks, Replaced, HasNews, AskingRound, AnswerRound;
    AskingRoundAsks(start, schedule, c, manual);
    AnswerRoundCommits(start, schedule + AskingRound(c, manual), c, reply, known);
  }

  /** A run in which two attempts are 599999.001 ms apart. */
  lemma AttemptsCanBeAMillisecondShort()
    ensures exists schedule ::
              var attempts := Run(Start(999, None, map[]), schedule).attempts;
              |attempts| == 2 && attempts[1] - attempts[0] < 1000 * COOLDOWN_MS
  {
    hide Run, ManualRound;
    var start := Start(999, None, map[]);
    var first := [] + ManualRound(0);
    EmptyRun(start);
    ManualRoundRecords(start, [], 0);
    var later := first + [Tick(599_999_001)];
    RunSnoc(start, first, Tick(599_999_001));
    ManualRoundRecords(start, later, 1);
    assert |Run(start, later + ManualRound(1)).attempts| == 2;
  }
}
