/**
 * Ownership verification by a loadout code: issuing codes, claiming attempts, locking, linking
 * and cleaning up. Times are microseconds, as the database keeps them.
 */
module PlayerLink {
  import opened Seqs

  const SECOND := 1_000_000
  const ATTEMPT_COOLDOWN := 30 * SECOND
  const MAX_ATTEMPTS := 5
  const LOCKOUT := 10 * 60 * SECOND
  const CODE_LIFE := 10 * 60 * SECOND
  const CODE_TRIES := 5

  /** A row of `player_link_verifications`; `issue` numbers the codes ever issued. */
  datatype Verification = Verification(
    player: nat, code: nat, issue: nat, expiresAt: nat, attempts: nat, nextAt: Option<nat>, lockedUntil: Option<nat>)

  /** Verifications and linked players, by user. */
  datatype Db = Db(rows: map<nat, Verification>, links: map<nat, nat>)

  // --------------------------------------------------------------- atomic statements

  /** `code` is UNIQUE; a user's own row is overwritten. */
  predicate CodeTaken(rows: map<nat, Verification>, user: nat, code: nat) {
    exists u :: u in rows && u != user && rows[u].code == code
  }

  predicate OwnedByOther(links: map<nat, nat>, user: nat, player: nat) {
    exists u :: u in links && u != user && links[u] == player
  }

  predicate LiveLock(rows: map<nat, Verification>, user: nat, now: nat) {
    user in rows && rows[user].lockedUntil.Some? && rows[user].lockedUntil.value > now
  }

  predicate CanIssue(db: Db, user: nat, player: nat, known: bool, now: nat) {
    !LiveLock(db.rows, user, now) && player > 0 && known && !OwnedByOther(db.links, user, player)
  }

  /** The first of the drawn codes that nobody else holds. */
  function FirstFree(rows: map<nat, Verification>, user: nat, codes: seq<nat>): Option<nat> {
    if codes == [] then None
    else
      var earlier := FirstFree(rows, user, codes[..|codes| - 1]);
      if earlier.Some? then earlier
      else if CodeTaken(rows, user, codes[|codes| - 1]) then None
      else Some(codes[|codes| - 1])
  }

  function Issued(player: nat, code: nat, issue: nat, now: nat): Verification {
    Verification(player, code, issue, now + CODE_LIFE, 0, None, None)
  }

  predicate CanClaim(v: Verification, now: nat) {
    && v.expiresAt > now
    && v.attempts < MAX_ATTEMPTS
    && (v.nextAt.Some? ==> v.nextAt.value <= now)
    && (v.lockedUntil.Some? ==> v.lockedUntil.value <= now)
  }

  function Claimed(v: Verification, now: nat): Verification {
    v.(attempts := v.attempts + 1, nextAt := Some(now + ATTEMPT_COOLDOWN))
  }

  function Locked(v: Verification, now: nat): Verification {
    v.(lockedUntil := Some(now + LOCKOUT), expiresAt := Max(v.expiresAt, now + LOCKOUT))
  }

  function Without<T>(m: map<nat, T>, user: nat): map<nat, T> {
    m - {user}
  }

  /** `DELETE ... WHERE expires_at <= now()`. */
  function Unexpired(rows: map<nat, Verification>, now: nat): map<nat, Verification> {
    map u | u in rows && rows[u].expiresAt > now :: rows[u]
  }

  /** The program's own comparison of a stored time with its clock, in milliseconds. */
  predicate ExpiredInMs(v: Verification, now: nat) {
    v.expiresAt / 1000 <= now / 1000
  }

  // ------------------------------------------------------------------------- handlers

  class Accounts {
    var rows: map<nat, Verification>
    var links: map<nat, nat>

    constructor ()
      ensures rows == map[] && links == map[]
    {
      rows := map[];
      links := map[];
    }

    /** Draws up to five codes until one can be inserted. */
    method Issue(user: nat, player: nat, known: bool, codes: seq<nat>, issue: nat, now: nat) returns (code: Option<nat>)
      requires |codes| == CODE_TRIES
      modifies this`rows
      ensures code
              == if CanIssue(Db(old(rows), links), user, player, known, now)
                 then FirstFree(old(rows), user, codes) else None
      ensures rows == if code.Some? then old(rows)[user := Issued(player, code.value, issue, now)] else old(rows)
    {
      hide CodeTaken, OwnedByOther, FirstFree;
      if user in rows && rows[user].lockedUntil.Some? && rows[user].lockedUntil.value > now {
        return None;
      }
      if player == 0 || !known {
        return None;
      }
      if OwnedByOther(links, user, player) {
        return None;
      }
      FirstFreeOfNone(rows, user);
      var attempt := 0;
      while attempt < CODE_TRIES
        invariant 0 <= attempt <= CODE_TRIES
        invariant rows == old(rows)
        invariant FirstFree(rows, user, codes[..attempt]).None?
      {
        PrefixStep(codes, attempt);
        FirstFreeSnoc(rows, user, codes[..attempt], codes[attempt]);
        if !CodeTaken(rows, user, codes[attempt]) {
          FirstFreeStays(rows, user, codes, attempt + 1);
          rows := rows[user := Issued(player, codes[attempt], issue, now)];
          return Some(codes[attempt]);
        }
        attempt := attempt + 1;
      }
      assert codes[..CODE_TRIES] == codes;
      return None;
    }

    /** The conditional UPDATE, and what a refused check cleans up. */
    method Claim(user: nat, now: nat) returns (claim: Option<Verification>)
      modifies this`rows
      ensures claim.Some? <==> user in old(rows) && CanClaim(old(rows)[user], now)
      ensures claim.Some? ==> claim.value == Claimed(old(rows)[user], now) && rows == old(rows)[user := claim.value]
      ensures claim.None? ==>
                rows == if user in old(rows) && ExpiredInMs(old(rows)[user], now)
                        then Without(old(rows), user) else old(rows)
    {
      if user in rows && CanClaim(rows[user], now) {
        var claimed := rows[user].(attempts := rows[user].attempts + 1, nextAt := Some(now + ATTEMPT_COOLDOWN));
        rows := rows[user := claimed];
        return Some(claimed);
      }
      if user in rows && rows[user].expiresAt / 1000 <= now / 1000 {
        rows := rows - {user};
      }
      return None;
    }

    /** After the vendor: no code found. The count is the one the claim returned. */
    method Reject(user: nat, attempts: nat, now: nat)
      modifies this`rows
      ensures rows == if attempts >= MAX_ATTEMPTS && user in old(rows)
                      then old(rows)[user := Locked(old(rows)[user], now)] else old(rows)
    {
      if attempts >= MAX_ATTEMPTS && user in rows {
        var v := rows[user];
        var until := now + LOCKOUT;
        var expiresAt := if v.expiresAt >= until then v.expiresAt else until;
        rows := rows[user := v.(lockedUntil := Some(until), expiresAt := expiresAt)];
      }
    }

    /** After the vendor: the code is there. */
    method Link(user: nat, player: nat) returns (linked: bool)
      modifies this
      ensures linked <==> !OwnedByOther(old(links), user, player)
      ensures Db(rows, links)
              == if linked then Db(Without(old(rows), user), old(links)[user := player]) else old(Db(rows, links))
    {
      hide OwnedByOther;
      if OwnedByOther(links, user, player) {
        return false;
      }
      links := links[user := player];
      rows := rows - {user};
      return true;
    }
  }

  lemma FirstFreeOfNone(rows: map<nat, Verification>, user: nat)
    ensures FirstFree(rows, user, []).None?
  {
  }

  lemma FirstFreeSnoc(rows: map<nat, Verification>, user: nat, codes: seq<nat>, code: nat)
    ensures FirstFree(rows, user, codes + [code])
            == if FirstFree(rows, user, codes).Some? then FirstFree(rows, user, codes)
               else if CodeTaken(rows, user, code) then None else Some(code)
  {
    hide CodeTaken;
    assert (codes + [code])[..|codes|] == codes;
  }

  lemma {:induction false} FirstFreeStays(rows: map<nat, Verification>, user: nat, codes: seq<nat>, n: nat)
    requires n <= |codes| && FirstFree(rows, user, codes[..n]).Some?
    ensures FirstFree(rows, user, codes) == FirstFree(rows, user, codes[..n])
  {
    hide CodeTaken, FirstFree;
    if n == |codes| {
      assert codes[..n] == codes;
    } else {
      var init := codes[..|codes| - 1];
      assert init[..n] == codes[..n];
      FirstFreeStays(rows, user, init, n);
      Snoc(codes);
      FirstFreeSnoc(rows, user, init, codes[|codes| - 1]);
    }
  }

  /** Issuing fails for want of a code exactly when every drawn one is taken. */
  lemma {:induction false} FirstFreeExactly(rows: map<nat, Verification>, user: nat, codes: seq<nat>)
    ensures FirstFree(rows, user, codes).None? <==> forall i :: 0 <= i < |codes| ==> CodeTaken(rows, user, codes[i])
    ensures FirstFree(rows, user, codes).Some? ==>
              exists i :: && 0 <= i < |codes|
                          && FirstFree(rows, user, codes) == Some(codes[i]) && !CodeTaken(rows, user, codes[i])
                          && forall j :: 0 <= j < i ==> CodeTaken(rows, user, codes[j])
  {
    hide CodeTaken;
    if codes == [] {
    } else {
      FirstFreeExactly(rows, user, codes[..|codes| - 1]);
      assert forall i :: 0 <= i < |codes| - 1 ==> codes[..|codes| - 1][i] == codes[i];
    }
  }

  // ---------------------------------------------------------------------------- runs

  /** A check between its claim and its post-vendor step. */
  datatype Pending = Pending(user: nat, player: nat, issue: nat, attempts: nat)

  /** A recorded claim: which issued code, and when. */
  datatype Attempt = Attempt(issue: nat, at: nat)

  /** `attempts` and `issuedAt`, the time of every code ever issued, are history. */
  datatype State = State(clock: nat, db: Db, pending: map<nat, Pending>, attempts: seq<Attempt>, issuedAt: seq<nat>)

  datatype Step =
    | Tick(microseconds: nat)
    | IssueCode(user: nat, player: nat, known: bool, codes: seq<nat>)
    | Check(user: nat, request: nat)
    | NotFound(request: nat)
    | Found(request: nat)
    | Cleanup
    | Unlink(user: nat)

  function IssueStep(s: State, user: nat, player: nat, known: bool, codes: seq<nat>): State {
    if CanIssue(s.db, user, player, known, s.clock) && FirstFree(s.db.rows, user, codes).Some? then
      var code := FirstFree(s.db.rows, user, codes).value;
      s.(db := s.db.(rows := s.db.rows[user := Issued(player, code, |s.issuedAt|, s.clock)]),
         issuedAt := s.issuedAt + [s.clock])
    else s
  }

  function CheckStep(s: State, user: nat, request: nat): State {
    if user !in s.db.rows || request in s.pending then s
    else
      var v := s.db.rows[user];
      if CanClaim(v, s.clock) then
        s.(db := s.db.(rows := s.db.rows[user := Claimed(v, s.clock)]),
           pending := s.pending[request := Pending(user, v.player, v.issue, v.attempts + 1)],
           attempts := s.attempts + [Attempt(v.issue, s.clock)])
      else if ExpiredInMs(v, s.clock) then s.(db := s.db.(rows := Without(s.db.rows, user)))
      else s
  }

  function NotFoundStep(s: State, request: nat): State {
    if request !in s.pending then s
    else
      var p := s.pending[request];
      var done := s.(pending := s.pending - {request});
      if p.attempts >= MAX_ATTEMPTS && p.user in s.db.rows
      then done.(db := s.db.(rows := s.db.rows[p.user := Locked(s.db.rows[p.user], s.clock)])) else done
  }

  function FoundStep(s: State, request: nat): State {
    if request !in s.pending then s
    else
      var p := s.pending[request];
      var done := s.(pending := s.pending - {request});
      if OwnedByOther(s.db.links, p.user, p.player) then done
      else done.(db := Db(Without(s.db.rows, p.user), s.db.links[p.user := p.player]))
  }

  function Next(s: State, step: Step): State {
    match step
    case Tick(d) => s.(clock := s.clock + d)
    case IssueCode(user, player, known, codes) => IssueStep(s, user, player, known, codes)
    case Check(user, request) => CheckStep(s, user, request)
    case NotFound(request) => NotFoundStep(s, request)
    case Found(request) => FoundStep(s, request)
    case Cleanup => s.(db := s.db.(rows := Unexpired(s.db.rows, s.clock)))
    case Unlink(user) => s.(db := s.db.(links := Without(s.db.links, user)))
  }

  function Start(clock: nat): State {
    State(clock, Db(map[], map[]), map[], [], [])
  }

  function Run(s: State, schedule: seq<Step>): State {
    if schedule == [] then s else Next(Run(s, schedule[..|schedule| - 1]), schedule[|schedule| - 1])
  }

  lemma RunSnoc(s: State, schedule: seq<Step>, step: Step)
    ensures Run(s, schedule + [step]) == Next(Run(s, schedule), step)
  {
    assert (schedule + [step])[..|schedule|] == schedule;
  }

  // ------------------------------------------------------------------------ invariant

  function AttemptsOf(attempts: seq<Attempt>, issue: nat): seq<Attempt> {
    Filter(attempts, (a: Attempt) => a.issue == issue)
  }

  lemma AttemptsOfSnoc(attempts: seq<Attempt>, a: Attempt, issue: nat)
    ensures AttemptsOf(attempts + [a], issue) == AttemptsOf(attempts, issue) + if a.issue == issue then [a] else []
  {
    FilterSnoc(attempts, a, (b: Attempt) => b.issue == issue);
  }

  lemma NoAttemptsYet(attempts: seq<Attempt>, issue: nat)
    requires forall a :: a in attempts ==> a.issue != issue
    ensures AttemptsOf(attempts, issue) == []
  {
    FilterNone(attempts, (a: Attempt) => a.issue == issue);
  }

  /** The row of a code knows how often it was claimed, and until when the next claim must wait. */
  ghost predicate RowOk(attempts: seq<Attempt>, v: Verification) {
    && v.attempts == |AttemptsOf(attempts, v.issue)|
    && v.attempts <= MAX_ATTEMPTS
    && forall i :: 0 <= i < |attempts| && attempts[i].issue == v.issue ==>
         v.nextAt.Some? && attempts[i].at + ATTEMPT_COOLDOWN <= v.nextAt.value
  }

  /** A code lives at most ten minutes more, and a locked one exactly as long as its lock. */
  ghost predicate TimesOk(v: Verification, clock: nat) {
    && v.expiresAt <= clock + CODE_LIFE
    && (v.lockedUntil.Some? ==> v.lockedUntil.value == v.expiresAt)
  }

  ghost predicate AttemptsOk(attempts: seq<Attempt>, issues: nat) {
    && (forall a :: a in attempts ==> a.issue < issues)
    && (forall issue :: |AttemptsOf(attempts, issue)| <= MAX_ATTEMPTS)
    && (forall i, j :: 0 <= i < j < |attempts| && attempts[i].issue == attempts[j].issue ==>
          attempts[i].at + ATTEMPT_COOLDOWN <= attempts[j].at)
  }

  ghost predicate RowsDistinct(rows: map<nat, Verification>, issues: nat) {
    && (forall u :: u in rows ==> rows[u].issue < issues)
    && (forall u, w :: u in rows && w in rows && rows[u].issue == rows[w].issue ==> u == w)
  }

  ghost predicate LinksInjective(links: map<nat, nat>) {
    forall u, w :: u in links && w in links && links[u] == links[w] ==> u == w
  }

  /** A waiting check holds one of the attempts of its code, as long as that code is still the user's. */
  ghost predicate PendingOk(rows: map<nat, Verification>, issues: nat, p: Pending) {
    && p.attempts <= MAX_ATTEMPTS && p.issue < issues
    && (p.user in rows && rows[p.user].issue == p.issue ==> p.attempts <= rows[p.user].attempts)
  }

  ghost predicate Inv(s: State) {
    && AttemptsOk(s.attempts, |s.issuedAt|)
    && RowsDistinct(s.db.rows, |s.issuedAt|)
    && LinksInjective(s.db.links)
    && (forall u :: u in s.db.rows ==> RowOk(s.attempts, s.db.rows[u]))
    && (forall u :: u in s.db.rows ==> TimesOk(s.db.rows[u], s.clock))
    && (forall r :: r in s.pending ==> PendingOk(s.db.rows, |s.issuedAt|, s.pending[r]))
  }

  /** A code that is not locked lives ten minutes from its issue, and was claimed in that time only. */
  ghost predicate Timely(s: State) {
    && (forall u :: u in s.db.rows ==>
          && s.db.rows[u].issue < |s.issuedAt|
          && s.issuedAt[s.db.rows[u].issue] <= s.clock
          && (s.db.rows[u].lockedUntil.None? ==>
                s.db.rows[u].expiresAt == s.issuedAt[s.db.rows[u].issue] + CODE_LIFE))
    && (forall a :: a in s.attempts ==> a.issue < |s.issuedAt| && InLife(a, s.issuedAt[a.issue]))
  }

  predicate InLife(a: Attempt, issued: nat) {
    issued <= a.at < issued + CODE_LIFE
  }

  lemma TimelyClaim(s: State, user: nat, request: nat)
    requires Inv(s) && Timely(s)
    ensures Timely(CheckStep(s, user, request))
  {
    hide AttemptsOk, RowOk, RowsDistinct, LinksInjective, PendingOk;
    if user in s.db.rows && request !in s.pending && CanClaim(s.db.rows[user], s.clock) {
      assert TimesOk(s.db.rows[user], s.clock);
    }
  }

  lemma TimelyIssue(s: State, user: nat, player: nat, known: bool, codes: seq<nat>)
    requires Timely(s)
    ensures Timely(IssueStep(s, user, player, known, codes))
  {
    hide CodeTaken, OwnedByOther, FirstFree, LiveLock;
  }

  lemma TimelyStep(s: State, step: Step)
    requires Inv(s) && Timely(s)
    ensures Timely(Next(s, step))
  {
    hide Inv, IssueStep, CheckStep, OwnedByOther;
    match step
    case IssueCode(user, player, known, codes) => TimelyIssue(s, user, player, known, codes);
    case Check(user, request) => TimelyClaim(s, user, request);
    case _ =>
  }

  lemma {:induction false} TimelyHolds(clock: nat, schedule: seq<Step>)
    ensures Timely(Run(Start(clock), schedule))
  {
    hide Next, Inv, Timely;
    if schedule == [] {
      TimelyAtStart(clock);
    } else {
      TimelyHolds(clock, schedule[..|schedule| - 1]);
      InvHolds(clock, schedule[..|schedule| - 1]);
      TimelyStep(Run(Start(clock), schedule[..|schedule| - 1]), schedule[|schedule| - 1]);
    }
  }

  lemma TimelyAtStart(clock: nat)
    ensures Timely(Start(clock))
  {
  }

  lemma IssueKeeps(s: State, user: nat, player: nat, known: bool, codes: seq<nat>)
    requires Inv(s)
    ensures Inv(IssueStep(s, user, player, known, codes))
  {
    hide AttemptsOf, CodeTaken, OwnedByOther, FirstFree, LinksInjective;
    NoAttemptsYet(s.attempts, |s.issuedAt|);
  }

  lemma ClaimRecorded(attempts: seq<Attempt>, issues: nat, v: Verification, now: nat)
    requires AttemptsOk(attempts, issues) && RowOk(attempts, v) && v.issue < issues && CanClaim(v, now)
    ensures AttemptsOk(attempts + [Attempt(v.issue, now)], issues)
    ensures RowOk(attempts + [Attempt(v.issue, now)], Claimed(v, now))
  {
    hide AttemptsOf;
    var a := Attempt(v.issue, now);
    var more := attempts + [a];
    forall issue
      ensures |AttemptsOf(more, issue)| == |AttemptsOf(attempts, issue)| + if issue == v.issue then 1 else 0
    {
      AttemptsOfSnoc(attempts, a, issue);
    }
    forall i | 0 <= i < |attempts| && attempts[i].issue == v.issue
      ensures attempts[i].at + ATTEMPT_COOLDOWN <= now
    {
      assert v.nextAt.Some?;
    }
  }

  lemma OtherRowKept(attempts: seq<Attempt>, a: Attempt, v: Verification)
    requires RowOk(attempts, v) && v.issue != a.issue
    ensures RowOk(attempts + [a], v)
  {
    hide AttemptsOf;
    AttemptsOfSnoc(attempts, a, v.issue);
    NothingAdded(AttemptsOf(attempts, v.issue));
  }

  lemma CheckKeeps(s: State, user: nat, request: nat)
    requires Inv(s)
    ensures Inv(CheckStep(s, user, request))
  {
    hide AttemptsOk, RowOk, LinksInjective;
    if user in s.db.rows && request !in s.pending {
      var v := s.db.rows[user];
      if CanClaim(v, s.clock) {
        ClaimRecorded(s.attempts, |s.issuedAt|, v, s.clock);
        forall u | u in s.db.rows && u != user
          ensures RowOk(s.attempts + [Attempt(v.issue, s.clock)], s.db.rows[u])
        {
          OtherRowKept(s.attempts, Attempt(v.issue, s.clock), s.db.rows[u]);
        }
      }
    }
  }

  lemma LockKeepsRow(attempts: seq<Attempt>, v: Verification, clock: nat)
    requires RowOk(attempts, v) && TimesOk(v, clock)
    ensures RowOk(attempts, Locked(v, clock)) && TimesOk(Locked(v, clock), clock)
    ensures Locked(v, clock).expiresAt == clock + LOCKOUT
  {
    hide AttemptsOf;
  }

  lemma NotFoundKeeps(s: State, request: nat)
    requires Inv(s)
    ensures Inv(NotFoundStep(s, request))
  {
    hide AttemptsOk, RowOk, LinksInjective, TimesOk;
    if request in s.pending && s.pending[request].user in s.db.rows {
      LockKeepsRow(s.attempts, s.db.rows[s.pending[request].user], s.clock);
    }
  }

  lemma FoundKeeps(s: State, request: nat)
    requires Inv(s)
    ensures Inv(FoundStep(s, request))
  {
    hide AttemptsOk, RowOk, TimesOk;
  }

  lemma InvStep(s: State, step: Step)
    requires Inv(s)
    ensures Inv(Next(s, step))
  {
    hide AttemptsOk, RowOk, IssueStep, CheckStep, NotFoundStep, FoundStep;
    match step
    case IssueCode(user, player, known, codes) => IssueKeeps(s, user, player, known, codes);
    case Check(user, request) => CheckKeeps(s, user, request);
    case NotFound(request) => NotFoundKeeps(s, request);
    case Found(request) => FoundKeeps(s, request);
    case _ =>
  }

  lemma {:induction false} InvHolds(clock: nat, schedule: seq<Step>)
    ensures Inv(Run(Start(clock), schedule))
  {
    hide Next, Inv;
    if schedule == [] {
      InvAtStart(clock);
    } else {
      InvHolds(clock, schedule[..|schedule| - 1]);
      InvStep(Run(Start(clock), schedule[..|schedule| - 1]), schedule[|schedule| - 1]);
    }
  }

  lemma InvAtStart(clock: nat)
    ensures Inv(Start(clock))
  {
    forall issue
      ensures AttemptsOf([], issue) == []
    {
      NoAttemptsYet([], issue);
    }
  }

  // -------------------------------------------------------------------------- results

  /** Every issued code is claimed at most five times, and its claims are thirty seconds apart. */
  lemma AtMostFiveSpacedClaims(clock: nat, schedule: seq<Step>, issue: nat)
    ensures var attempts := Run(Start(clock), schedule).attempts;
            && |AttemptsOf(attempts, issue)| <= MAX_ATTEMPTS
            && forall i, j :: 0 <= i < j < |attempts| && attempts[i].issue == issue && attempts[j].issue == issue
                              ==> attempts[i].at + ATTEMPT_COOLDOWN <= attempts[j].at
  {
    hide Run, AttemptsOf;
    InvHolds(clock, schedule);
  }

  /** In no run is a code claimed ten minutes or more after it was issued, or before. */
  lemma ClaimsBeforeExpiry(clock: nat, schedule: seq<Step>, a: Attempt)
    requires a in Run(Start(clock), schedule).attempts
    ensures var s := Run(Start(clock), schedule);
            a.issue < |s.issuedAt| && s.issuedAt[a.issue] <= a.at < s.issuedAt[a.issue] + CODE_LIFE
  {
    hide Run;
    TimelyHolds(clock, schedule);
  }

  /** A locked code expires at the very moment its lock ends, so the lock is its end. */
  lemma LockEndsWithItsCode(clock: nat, schedule: seq<Step>, user: nat)
    requires var rows := Run(Start(clock), schedule).db.rows; user in rows && rows[user].lockedUntil.Some?
    ensures var s := Run(Start(clock), schedule);
            var v := s.db.rows[user];
            && v.lockedUntil.value == v.expiresAt && v.expiresAt <= s.clock + CODE_LIFE
            && forall now :: !CanClaim(v, now)
  {
    hide Run;
    InvHolds(clock, schedule);
    var s := Run(Start(clock), schedule);
    assert TimesOk(s.db.rows[user], s.clock);
  }

  /** No two users are linked to one player, in any run. */
  lemma OnePlayerOneUser(clock: nat, schedule: seq<Step>)
    ensures LinksInjective(Run(Start(clock), schedule).db.links)
  {
    hide Run;
    InvHolds(clock, schedule);
  }

  /**
   * While a lock is live no step claims an attempt or issues a code for its user. The row stays,
   * unless an earlier claim of the user links after all, or a refused check rounds the last
   * millisecond of the lock away.
   */
  lemma LiveLockHolds(clock: nat, schedule: seq<Step>, step: Step, user: nat)
    requires var s := Run(Start(clock), schedule); LiveLock(s.db.rows, user, s.clock)
    ensures var s := Run(Start(clock), schedule);
            var t := Next(s, step);
            && (user in t.db.rows ==>
                  && t.db.rows[user].issue == s.db.rows[user].issue
                  && t.db.rows[user].attempts == s.db.rows[user].attempts)
            && |AttemptsOf(t.attempts, s.db.rows[user].issue)| == |AttemptsOf(s.attempts, s.db.rows[user].issue)|
            && (user !in t.db.rows ==>
                  || (step.Found? && step.request in s.pending && s.pending[step.request].user == user)
                  || (step.Check? && step.user == user && s.db.rows[user].lockedUntil.value / 1000 == s.clock / 1000))
  {
    hide Run, AttemptsOf, CodeTaken, OwnedByOther, FirstFree;
    InvHolds(clock, schedule);
    var s := Run(Start(clock), schedule);
    assert TimesOk(s.db.rows[user], s.clock);
    if step.Check? && step.user in s.db.rows && step.request !in s.pending && CanClaim(s.db.rows[step.user], s.clock) {
      AttemptsOfSnoc(s.attempts, Attempt(s.db.rows[step.user].issue, s.clock), s.db.rows[user].issue);
      NothingAdded(AttemptsOf(s.attempts, s.db.rows[user].issue));
    }
  }

  /** The cleanup of expired rows never removes a live lock. */
  lemma CleanupKeepsLiveLocks(clock: nat, schedule: seq<Step>, user: nat)
    requires var s := Run(Start(clock), schedule); LiveLock(s.db.rows, user, s.clock)
    ensures var s := Run(Start(clock), schedule);
            user in Next(s, Cleanup).db.rows && Next(s, Cleanup).db.rows[user] == s.db.rows[user]
  {
    hide Run;
    InvHolds(clock, schedule);
    var s := Run(Start(clock), schedule);
    assert TimesOk(s.db.rows[user], s.clock);
  }

  /** A code that is locked, or whose row is gone. */
  ghost predicate Spent(s: State, issue: nat) {
    issue < |s.issuedAt| && forall u :: u in s.db.rows && s.db.rows[u].issue == issue ==> s.db.rows[u].lockedUntil.Some?
  }

  lemma SpentStep(s: State, step: Step, issue: nat)
    requires Inv(s) && Spent(s, issue)
    ensures Spent(Next(s, step), issue)
    ensures AttemptsOf(Next(s, step).attempts, issue) == AttemptsOf(s.attempts, issue)
  {
    hide AttemptsOf, CodeTaken, OwnedByOther, FirstFree, AttemptsOk, RowOk, LinksInjective;
    if step.Check? && step.user in s.db.rows && step.request !in s.pending && CanClaim(s.db.rows[step.user], s.clock) {
      assert TimesOk(s.db.rows[step.user], s.clock);
      AttemptsOfSnoc(s.attempts, Attempt(s.db.rows[step.user].issue, s.clock), issue);
      NothingAdded(AttemptsOf(s.attempts, issue));
    }
  }

  /** Once a code is locked it is never claimed again, however the run goes on. */
  lemma {:induction false} LockedCodeIsSpent(clock: nat, schedule: seq<Step>, more: seq<Step>, user: nat)
    requires var rows := Run(Start(clock), schedule).db.rows; user in rows && rows[user].lockedUntil.Some?
    ensures var issue := Run(Start(clock), schedule).db.rows[user].issue;
            && Spent(Run(Start(clock), schedule + more), issue)
            && AttemptsOf(Run(Start(clock), schedule + more).attempts, issue)
               == AttemptsOf(Run(Start(clock), schedule).attempts, issue)
  {
    hide Run, Next, AttemptsOf, AttemptsOk, RowOk, LinksInjective;
    if more == [] {
      NothingAdded(schedule);
      InvHolds(clock, schedule);
    } else {
      var init, step := more[..|more| - 1], more[|more| - 1];
      LockedCodeIsSpent(clock, schedule, init, user);
      InvHolds(clock, schedule + init);
      SpentStep(Run(Start(clock), schedule + init), step, Run(Start(clock), schedule).db.rows[user].issue);
      Snoc(more);
      Associative(schedule, init, [step]);
      RunSnoc(Start(clock), schedule + init, step);
    }
  }

  // --------------------------------------------------------------- the late rejection

  /**
   * The lock goes to whatever code the user has by then. That code has attempts left exactly when
   * it is not the one that was tried and has been tried fewer than five times itself.
   */
  lemma LockMeetsTheCurrentCode(clock: nat, schedule: seq<Step>, request: nat)
    requires var s := Run(Start(clock), schedule);
             request in s.pending && s.pending[request].attempts >= MAX_ATTEMPTS && s.pending[request].user in s.db.rows
    ensures var s := Run(Start(clock), schedule);
            var p := s.pending[request];
            var t := Next(s, NotFound(request));
            && p.user in t.db.rows && LiveLock(t.db.rows, p.user, t.clock)
            && t.db.rows[p.user].lockedUntil.value == t.db.rows[p.user].expiresAt == s.clock + LOCKOUT
            && t.db.rows[p.user].issue == s.db.rows[p.user].issue
            && (t.db.rows[p.user].attempts < MAX_ATTEMPTS
                <==> s.db.rows[p.user].issue != p.issue && s.db.rows[p.user].attempts < MAX_ATTEMPTS)
  {
    hide Run, AttemptsOf, AttemptsOk, RowsDistinct, LinksInjective;
    InvHolds(clock, schedule);
    var s := Run(Start(clock), schedule);
    var p := s.pending[request];
    assert TimesOk(s.db.rows[p.user], s.clock) && PendingOk(s.db.rows, |s.issuedAt|, p);
  }

  /** A check of user 1 that is told the code is missing, half a minute after the last. */
  function MissedCheck(request: nat): seq<Step> {
    [Check(1, request), NotFound(request), Tick(ATTEMPT_COOLDOWN)]
  }

  lemma MissedCheckCounts(s: State, schedule: seq<Step>, request: nat)
    requires var t := Run(s, schedule);
             && 1 in t.db.rows && request !in t.pending
             && CanClaim(t.db.rows[1], t.clock) && t.db.rows[1].attempts < MAX_ATTEMPTS - 1
    ensures var t := Run(s, schedule);
            var u := Run(s, schedule + MissedCheck(request));
            && u.clock == t.clock + ATTEMPT_COOLDOWN && u.issuedAt == t.issuedAt && u.db.links == t.db.links
            && u.db.rows == t.db.rows[1 := Claimed(t.db.rows[1], t.clock)]
            && u.pending == t.pending
  {
    hide Run;
    RunSnoc(s, schedule, Check(1, request));
    RunSnoc(s, schedule + [Check(1, request)], NotFound(request));
    RunSnoc(s, schedule + [Check(1, request)] + [NotFound(request)], Tick(ATTEMPT_COOLDOWN));
    assert schedule + [Check(1, request)] + [NotFound(request)] + [Tick(ATTEMPT_COOLDOWN)]
           == schedule + MissedCheck(request);
    var t := Run(s, schedule);
    var v := t.db.rows[1];
    assert t.pending[request := Pending(1, v.player, v.issue, v.attempts + 1)] - {request} == t.pending;
  }

  lemma NobodyElse(rows: map<nat, Verification>, user: nat, code: nat)
    requires forall u :: u in rows ==> u == user
    ensures !CodeTaken(rows, user, code)
  {
  }

  lemma NobodyHoldsIt(rows: map<nat, Verification>, user: nat, code: nat)
    requires forall u :: u in rows ==> u == user
    ensures FirstFree(rows, user, [code, code, code, code, code]) == Some(code)
  {
    NobodyElse(rows, user, code);
    hide CodeTaken;
    FirstFreeExactly(rows, user, [code, code, code, code, code]);
  }

  /**
   * A user who asks for a new code while the fifth check is still waiting for the vendor finds
   * that code, never tried, locked when the check comes back.
   */
  lemma LateRejectionLocksAFreshCode()
    ensures exists schedule ::
              var s := Run(Start(0), schedule);
              1 in s.db.rows && s.db.rows[1].attempts == 0 && LiveLock(s.db.rows, 1, s.clock)
  {
    hide Run, FirstFree, MissedCheck;
    var codes := [123456, 123456, 123456, 123456, 123456];
    var s := Start(0);
    RunNothing(s);
    var first := [] + [IssueCode(1, 7, true, codes)];
    NobodyHoldsIt(s.db.rows, 1, 123456);
    RunSnoc(s, [], IssueCode(1, 7, true, codes));
    MissedCheckCounts(s, first, 1);
    var second := first + MissedCheck(1);
    MissedCheckCounts(s, second, 2);
    var third := second + MissedCheck(2);
    MissedCheckCounts(s, third, 3);
    var fourth := third + MissedCheck(3);
    MissedCheckCounts(s, fourth, 4);
    var fifth := fourth + MissedCheck(4);
    RunSnoc(s, fifth, Check(1, 5));
    var again := fifth + [Check(1, 5)];
    NobodyHoldsIt(Run(s, again).db.rows, 1, 123456);
    RunSnoc(s, again, IssueCode(1, 7, true, codes));
    RunSnoc(s, again + [IssueCode(1, 7, true, codes)], NotFound(5));
    assert 1 in Run(s, again + [IssueCode(1, 7, true, codes)] + [NotFound(5)]).db.rows;
  }

  lemma RunNothing(s: State)
    ensures Run(s, []) == s
  {
  }
}
