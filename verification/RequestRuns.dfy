/**
 * What every request guarantees: where it stops, what it records, and what it counts.
 */
module RequestRuns {
  import opened Seqs
  import opened RequestLoop

  /** What one attempt comes to, whatever was recorded before it. */
  datatype Attempt = Attempt(
    sent: Option<Key>,
    logged: bool,
    succeeded: bool,
    exit: Exit
  )

  function RunAttempt(t: Turn): Attempt {
    var flow := Played(START, t);
    Attempt(flow.frame.countedKey, flow.frame.endpointLogged, flow.exit.Returned?, flow.exit)
  }

  /** The message of the last application answer that was examined. */
  function MessageOf(t: Turn, before: Option<ErrorText>): Option<ErrorText> {
    if t.session.Active? && t.reply.WithMessage? && !t.reply.preservedBatch then Some(t.reply.msg.text) else before
  }

  /** The loop state an attempt leaves, in terms of its summary. */
  function Summed(l: Loop, a: Attempt, message: Option<ErrorText>): Loop {
    Loop(Books(l.books.sent + Listed(a.sent, true),
               l.books.usage + Listed(a.sent, true),
               l.books.logs + Listed(a.sent, a.logged),
               l.books.successes + Listed(a.sent, a.succeeded),
               l.books.failures, l.books.sleeps, l.books.attempts + 1),
         if a.sent.Some? then a.sent else l.lastKey,
         if a.exit.Caught? then Some(a.exit.text) else l.lastError,
         message)
  }

  /** Frames that differ in the books at most. */
  predicate Alike(f: Frame, g: Frame) {
    f.countedKey == g.countedKey && f.endpointLogged == g.endpointLogged
  }

  predicate SameFlow(a: Flow, b: Flow) {
    a.exit == b.exit && Alike(a.frame, b.frame)
  }

  lemma FinishVerdict(f: Frame, g: Frame, key: Key, t: Turn)
    requires Alike(f, g)
    ensures SameFlow(Finish(f, key, t), Finish(g, key, t))
  {
  }

  lemma ExamineVerdict(f: Frame, g: Frame, key: Key, msg: RetMsg, t: Turn)
    requires Alike(f, g)
    ensures SameFlow(Examine(f, key, msg, t), Examine(g, key, msg, t))
  {
    FinishVerdict(f.(loop := f.loop.(lastMessage := Some(msg.text))),
                  g.(loop := g.loop.(lastMessage := Some(msg.text))), key, t);
    hide Finish, Raised;
  }

  lemma TryVerdict(f: Frame, g: Frame, t: Turn)
    requires Alike(f, g)
    ensures SameFlow(TryBlock(f, t), TryBlock(g, t))
  {
    if t.session.Active? {
      var key := t.session.key;
      var p := Fetched(Incremented(f.(loop := f.loop.(lastKey := Some(key))), key), key);
      var q := Fetched(Incremented(g.(loop := g.loop.(lastKey := Some(key))), key), key);
      assert Alike(p, q);
      hide Finish, Examine, Fetched, Incremented, Alike;
      FinishVerdict(p, q, key, t);
      if t.reply.WithMessage? {
        ExamineVerdict(p, q, key, t.reply.msg, t);
      }
    }
  }

  /** How an attempt goes does not depend on what was recorded before it. */
  lemma TurnVerdict(l: Loop, t: Turn)
    ensures SameFlow(Played(l, t), Played(START, t))
  {
    hide TryBlock;
    TryVerdict(Begun(l), Begun(START), t);
  }

  lemma SentKey(t: Turn)
    ensures RunAttempt(t).sent == if t.session.Active? then Some(t.session.key) else None
  {
    hide Raised;
  }

  /** The books of a frame are those of `l` and what its own variables say. */
  predicate Adds(f: Frame, l: Loop, succeeded: bool) {
    && f.loop.books.sent == l.books.sent + Listed(f.countedKey, true)
    && f.loop.books.usage == l.books.usage + Listed(f.countedKey, true)
    && f.loop.books.logs == l.books.logs + Listed(f.countedKey, f.endpointLogged)
    && f.loop.books.successes == l.books.successes + Listed(f.countedKey, succeeded)
    && f.loop.books.failures == l.books.failures
    && f.loop.books.sleeps == l.books.sleeps
    && f.loop.books.attempts == l.books.attempts + 1
    && f.loop.lastKey == (if f.countedKey.Some? then f.countedKey else l.lastKey)
    && f.loop.lastError == l.lastError
  }

  lemma LogAdds(f: Frame, l: Loop, failure: Option<ErrorText>)
    requires Adds(f, l, false)
    ensures Adds(LogCounted(f, failure).frame, l, false)
    ensures LogCounted(f, failure).frame.countedKey == f.countedKey
    ensures LogCounted(f, failure).frame.loop.lastMessage == f.loop.lastMessage
  {
    NothingAdded(l.books.logs);
  }

  lemma FinishAdds(f: Frame, l: Loop, key: Key, t: Turn)
    requires Adds(f, l, false) && f.countedKey == Some(key)
    ensures Adds(Finish(f, key, t).frame, l, Finish(f, key, t).exit.Returned?)
    ensures Finish(f, key, t).frame.loop.lastMessage == f.loop.lastMessage
  {
    LogAdds(f, l, t.firstLog);
    hide LogCounted;
    NothingAdded(l.books.successes);
  }

  lemma ExamineAdds(f: Frame, l: Loop, key: Key, msg: RetMsg, t: Turn)
    requires Adds(f, l, false) && f.countedKey == Some(key)
    ensures Adds(Examine(f, key, msg, t).frame, l, Examine(f, key, msg, t).exit.Returned?)
    ensures Examine(f, key, msg, t).frame.loop.lastMessage == Some(msg.text)
  {
    var noted := f.(loop := f.loop.(lastMessage := Some(msg.text)));
    assert Adds(noted, l, false);
    FinishAdds(noted, l, key, t);
    LogAdds(noted, l, t.firstLog);
    hide Finish, LogCounted, Adds, Raised;
  }

  lemma TryAdds(l: Loop, t: Turn)
    ensures var flow := TryBlock(Begun(l), t);
            Adds(flow.frame, l, flow.exit.Returned?) && flow.frame.loop.lastMessage == MessageOf(t, l.lastMessage)
  {
    var begun := Begun(l);
    NothingAdded(l.books.sent);
    NothingAdded(l.books.usage);
    NothingAdded(l.books.logs);
    NothingAdded(l.books.successes);
    if t.session.Active? {
      var key := t.session.key;
      var sent := Fetched(Incremented(begun.(loop := begun.loop.(lastKey := Some(key))), key), key);
      assert Adds(sent, l, false) && sent.countedKey == Some(key);
      FinishAdds(sent, l, key, t);
      if t.reply.WithMessage? {
        ExamineAdds(sent, l, key, t.reply.msg, t);
      }
      hide Finish, Examine, Adds;
    }
  }

  /** The books of an attempt, in terms of the variables it ends with. */
  lemma TurnBooks(l: Loop, t: Turn)
    ensures var flow := Played(l, t);
            var a := Attempt(flow.frame.countedKey, flow.frame.endpointLogged, flow.exit.Returned?, flow.exit);
            Note(l, t) == Summed(l, a, MessageOf(t, l.lastMessage))
  {
    TryAdds(l, t);
    CatchBooks(TryBlock(Begun(l), t), l, t);
    hide TryBlock, CatchBlock, Adds, Summed, MessageOf, Begun;
  }

  lemma CatchBooks(flow: Flow, l: Loop, t: Turn)
    requires Adds(flow.frame, l, flow.exit.Returned?)
    ensures var end := CatchBlock(flow, t);
            var a := Attempt(end.frame.countedKey, end.frame.endpointLogged, end.exit.Returned?, end.exit);
            end.frame.loop == Summed(l, a, flow.frame.loop.lastMessage)
  {
    hide Relogged, Adds, Summed;
    RelogAdds(flow.frame, l, t);
    AddsMeans(if flow.exit.Caught? then Relogged(flow.frame, t) else flow.frame, l, flow.exit);
  }

  lemma RelogAdds(f: Frame, l: Loop, t: Turn)
    requires Adds(f, l, false) || Adds(f, l, true)
    ensures Adds(f, l, false) ==> Adds(Relogged(f, t), l, false)
    ensures Relogged(f, t).loop.lastMessage == f.loop.lastMessage
  {
    if Adds(f, l, false) {
      LogAdds(f, l, if t.retryLogFails then Some(NO_TEXT) else None);
    }
    LogKeepsMessage(f, if t.retryLogFails then Some(NO_TEXT) else None);
    hide LogCounted, Adds;
  }

  lemma LogKeepsMessage(f: Frame, failure: Option<ErrorText>)
    ensures LogCounted(f, failure).frame.loop.lastMessage == f.loop.lastMessage
  {
  }

  lemma AddsMeans(f: Frame, l: Loop, exit: Exit)
    requires Adds(f, l, exit.Returned?)
    ensures f.loop.(lastError := if exit.Caught? then Some(exit.text) else f.loop.lastError)
            == Summed(l, Attempt(f.countedKey, f.endpointLogged, exit.Returned?, exit), f.loop.lastMessage)
  {
    hide Listed;
  }

  /**
   * An attempt counts usage exactly for the request it sends, writes at most one log row, for that
   * key, credits it only when it returns, and does so on top of any books whatever.
   */
  lemma TurnExactly(l: Loop, t: Turn)
    ensures Played(l, t).exit == RunAttempt(t).exit
    ensures Note(l, t) == Summed(l, RunAttempt(t), MessageOf(t, l.lastMessage))
    ensures RunAttempt(t).sent == if t.session.Active? then Some(t.session.key) else None
    ensures RunAttempt(t).succeeded <==> RunAttempt(t).exit.Returned?
  {
    TurnVerdict(l, t);
    SentKey(t);
    hide Played, Summed;
    TurnBooks(l, t);
  }

  /** An attempt that settles the request by itself. */
  predicate Settles(a: Attempt) {
    a.exit.Returned? || (a.exit.Caught? && (a.exit.text.has503 || a.exit.text.hasTerminalCode))
  }

  predicate Sleeps(a: Attempt) {
    a.exit.Caught? && !Settles(a)
  }

  /** The books after the first `n` turns, read off the turns alone. */
  function Ledger(play: nat -> Turn, n: nat, pick: Attempt -> bool): seq<Key> {
    if n == 0 then []
    else Ledger(play, n - 1, pick) + Listed(RunAttempt(play(n - 1)).sent, pick(RunAttempt(play(n - 1))))
  }

  function SleepList(play: nat -> Turn, n: nat, maxRetries: int): seq<nat> {
    if n == 0 then []
    else
      SleepList(play, n - 1, maxRetries)
      + if Sleeps(RunAttempt(play(n - 1))) && n - 1 < maxRetries then [n - 1] else []
  }

  function LastKey(play: nat -> Turn, n: nat): Option<Key> {
    if n == 0 then None
    else if RunAttempt(play(n - 1)).sent.Some? then RunAttempt(play(n - 1)).sent
    else LastKey(play, n - 1)
  }

  /** The error caught last, and the message examined last. */
  function LastError(play: nat -> Turn, n: nat): Option<ErrorText> {
    if n == 0 then None
    else if RunAttempt(play(n - 1)).exit.Caught? then Some(RunAttempt(play(n - 1)).exit.text)
    else LastError(play, n - 1)
  }

  function LastMessage(play: nat -> Turn, n: nat): Option<ErrorText> {
    if n == 0 then None else MessageOf(play(n - 1), LastMessage(play, n - 1))
  }

  /** The text a failed request is judged by: an error before a message, and neither if there is none. */
  function FinalText(play: nat -> Turn, n: nat): ErrorText {
    match LastError(play, n)
    case Some(text) => text
    case None =>
      match LastMessage(play, n)
      case Some(text) => text
      case None => ErrorText(false, false, false)
  }

  function Any(): Attempt -> bool { (a: Attempt) => true }

  function Logged(): Attempt -> bool { (a: Attempt) => a.logged }

  function Won(): Attempt -> bool { (a: Attempt) => a.succeeded }

  /** Loop states whose books are exactly the ledgers of the turns played so far. */
  ghost predicate Faithful(l: Loop, play: nat -> Turn, n: nat, maxRetries: int) {
    && l.books == Books(Ledger(play, n, Any()), Ledger(play, n, Any()), Ledger(play, n, Logged()),
                        Ledger(play, n, Won()), [], SleepList(play, n, maxRetries), n)
    && l.lastKey == LastKey(play, n)
    && l.lastError == LastError(play, n)
    && l.lastMessage == LastMessage(play, n)
  }

  ghost predicate StopsAfter(play: nat -> Turn, n: nat, maxRetries: int) {
    && (forall i :: 0 <= i < n - 1 ==> !Settles(RunAttempt(play(i))))
    && n <= Max(maxRetries + 1, 0)
    && (n == Max(maxRetries + 1, 0) || (n > 0 && Settles(RunAttempt(play(n - 1)))))
  }

  /** The whole result, as a function of the turns played. */
  ghost predicate Settled(r: Result, play: nat -> Turn, maxRetries: int) {
    var n := r.books.attempts;
    && StopsAfter(play, n, maxRetries)
    && r.books.sent == Ledger(play, n, Any()) == r.books.usage
    && r.books.logs == Ledger(play, n, Logged())
    && r.books.successes == Ledger(play, n, Won())
    && r.books.sleeps == SleepList(play, n, maxRetries)
    && (r.ending.Succeeded? <==> n > 0 && RunAttempt(play(n - 1)).exit.Returned?)
    && (r.ending.Unavailable503? <==>
          n > 0 && RunAttempt(play(n - 1)).exit.Caught? && RunAttempt(play(n - 1)).exit.text.has503)
    && r.books.failures == (if r.ending.Exhausted? then Listed(LastKey(play, n), true) else [])
    && (r.ending.Exhausted? ==>
          (r.ending.keyFault <==> !FinalText(play, n).hasTerminalCode && !FinalText(play, n).excusesKey))
  }

  lemma NoteIsFaithful(l: Loop, play: nat -> Turn, n: nat, maxRetries: int)
    requires Faithful(l, play, n, maxRetries)
    ensures var noted := Note(l, play(n));
            var a := RunAttempt(play(n));
            Faithful(if Sleeps(a) && n < maxRetries then Slept(noted, n) else noted, play, n + 1, maxRetries)
  {
    TurnExactly(l, play(n));
    hide RunAttempt, Played;
  }

  lemma {:induction false} RunSettles(n: nat, maxRetries: int, play: nat -> Turn, l: Loop)
    requires Faithful(l, play, n, maxRetries)
    requires n <= Max(maxRetries + 1, 0)
    requires forall i :: 0 <= i < n ==> !Settles(RunAttempt(play(i)))
    ensures Settled(Run(n, maxRetries, play, l), play, maxRetries)
    decreases maxRetries + 1 - n
  {
    hide RunAttempt, Ledger, SleepList, Played;
    if n <= maxRetries {
      TurnExactly(l, play(n));
      var a := RunAttempt(play(n));
      var noted := Note(l, play(n));
      NoteIsFaithful(l, play, n, maxRetries);
      if !Settles(a) {
        RunSettles(n + 1, maxRetries, play, if Sleeps(a) && n < maxRetries then Slept(noted, n) else noted);
      }
    }
  }

  /**
   * Every request stops at the first attempt that settles it or at the retry bound, and its
   * books are the ledgers of exactly the turns played.
   */
  lemma RequestSettles(maxRetries: int, play: nat -> Turn)
    ensures Settled(Request(maxRetries, play), play, maxRetries)
  {
    RunSettles(0, maxRetries, play, START);
  }

  // ------------------------------------------------------------------ quota accounting

  // What a vendor message says, most pressing first.

  predicate Rotates(m: RetMsg) {
    m.invalidSession || m.dailyLimit
  }

  predicate SaysEmpty(m: RetMsg) {
    !Rotates(m) && (m.noHistory || m.privacy)
  }

  predicate Refuses(m: RetMsg) {
    !Rotates(m) && !SaysEmpty(m) && (m.notFound || !m.transient)
  }

  predicate Passing(m: RetMsg) {
    !Rotates(m) && !SaysEmpty(m) && !m.notFound && m.transient
  }

  /** The answer carries a message that is looked at. */
  predicate Examined(t: Turn, m: RetMsg) {
    t.session.Active? && t.reply == WithMessage(m, false)
  }

  /** The answer gets as far as the log write of the `try` block. */
  predicate ReachesLog(t: Turn) {
    && t.session.Active?
    && !t.reply.TransportError?
    && (t.reply.WithMessage? && !t.reply.preservedBatch ==>
          SaysEmpty(t.reply.msg) || (Rotates(t.reply.msg) && t.handlerThrows.None?))
  }

  /** A request left, its answer never reached the first log write or that failed, and so did the second. */
  predicate LogLost(t: Turn) {
    t.session.Active? && !(ReachesLog(t) && t.firstLog.None?) && t.retryLogFails
  }

  lemma LostExactly(t: Turn)
    ensures LogLost(t) <==> RunAttempt(t).sent.Some? && !RunAttempt(t).logged
  {
  }

  function LostCount(play: nat -> Turn, n: nat): nat {
    if n == 0 then 0 else LostCount(play, n - 1) + if LogLost(play(n - 1)) then 1 else 0
  }

  lemma {:induction false} LedgerCounts(play: nat -> Turn, n: nat)
    ensures |Ledger(play, n, Any())| == |Ledger(play, n, Logged())| + LostCount(play, n)
    ensures LostCount(play, n) == 0 ==> Ledger(play, n, Any()) == Ledger(play, n, Logged())
    ensures forall k :: multiset(Ledger(play, n, Logged()))[k] <= multiset(Ledger(play, n, Any()))[k]
  {
    if n == 0 {
    } else {
      hide RunAttempt, LogLost;
      LedgerCounts(play, n - 1);
      LostExactly(play(n - 1));
    }
  }

  lemma {:induction false} LostCountExactly(play: nat -> Turn, n: nat)
    ensures LostCount(play, n) == 0 <==> forall i :: 0 <= i < n ==> !LogLost(play(i))
  {
    if n == 0 {
    } else {
      hide LogLost;
      LostCountExactly(play, n - 1);
    }
  }

  /**
   * On every exit usage increments are the requests sent, key by key and in order; a key is never
   * logged more often than it was used, and the endpoint log is the same list again exactly when
   * no attempt lost both its log writes.
   */
  lemma QuotaConserved(maxRetries: int, play: nat -> Turn)
    ensures var books := Request(maxRetries, play).books;
            && books.usage == books.sent
            && |books.sent| == |books.logs| + LostCount(play, books.attempts)
            && (forall k :: multiset(books.logs)[k] <= multiset(books.usage)[k])
            && (books.logs == books.sent <==> forall i :: 0 <= i < books.attempts ==> !LogLost(play(i)))
  {
    hide RunAttempt, LogLost, Request;
    var n := Request(maxRetries, play).books.attempts;
    RequestSettles(maxRetries, play);
    LedgerCounts(play, n);
    LostCountExactly(play, n);
  }

  // ------------------------------------------------------------------ bounds and records

  /** Within the retry budget, and never past an answer that settles the request. */
  lemma AttemptsBounded(maxRetries: int, play: nat -> Turn)
    ensures var n := Request(maxRetries, play).books.attempts;
            && n <= Max(maxRetries + 1, 0)
            && forall i :: 0 <= i < n - 1 ==> !Settles(RunAttempt(play(i)))
  {
    RequestSettles(maxRetries, play);
  }

  predicate TerminalAnswer(t: Turn) {
    && t.session.Active?
    && t.reply.WithMessage? && !t.reply.preservedBatch
    && Refuses(t.reply.msg)
  }

  /** A terminal vendor return is the last attempt, and is never counted as a success. */
  lemma TerminalNeverRetried(maxRetries: int, play: nat -> Turn, i: nat)
    requires i < Request(maxRetries, play).books.attempts
    requires TerminalAnswer(play(i))
    ensures i == Request(maxRetries, play).books.attempts - 1
    ensures !Request(maxRetries, play).ending.Succeeded?
    ensures Request(maxRetries, play).books.successes == []
  {
    TerminalSettles(play(i));
    hide Request, RunAttempt, Ledger;
    RequestSettles(maxRetries, play);
    LastWon(play, i);
    WonOnlyAtTheEnd(play, i);
  }

  lemma TerminalSettles(t: Turn)
    requires TerminalAnswer(t)
    ensures Settles(RunAttempt(t)) && !RunAttempt(t).exit.Returned? && !RunAttempt(t).succeeded
  {
  }

  lemma LastWon(play: nat -> Turn, i: nat)
    ensures Ledger(play, i + 1, Won())
            == Ledger(play, i, Won()) + Listed(RunAttempt(play(i)).sent, RunAttempt(play(i)).succeeded)
  {
  }

  lemma {:induction false} WonOnlyAtTheEnd(play: nat -> Turn, n: nat)
    requires forall i :: 0 <= i < n ==> !Settles(RunAttempt(play(i)))
    ensures Ledger(play, n, Won()) == []
  {
    if n == 0 {
    } else {
      hide Listed;
      WonOnlyAtTheEnd(play, n - 1);
      NotWon(play(n - 1));
    }
  }

  lemma NotWon(t: Turn)
    requires !Settles(RunAttempt(t))
    ensures Listed(RunAttempt(t).sent, RunAttempt(t).succeeded) == []
  {
  }

  /**
   * Success and failure are recorded at most once and never both; a 503 exit records neither,
   * and a recorded failure names the last key that sent anything.
   */
  lemma OneVerdict(maxRetries: int, play: nat -> Turn)
    ensures var r := Request(maxRetries, play);
            && |r.books.successes| + |r.books.failures| <= 1
            && (|r.books.successes| == 1 <==> r.ending.Succeeded?)
            && (r.ending.Unavailable503? ==> r.books.successes == [] && r.books.failures == [])
            && (r.ending.Exhausted? ==> (|r.books.failures| == 1 <==> r.books.sent != []))
            && (r.books.failures != [] ==> r.books.failures == [r.books.sent[|r.books.sent| - 1]])
  {
    var r := Request(maxRetries, play);
    var n := r.books.attempts;
    RequestSettles(maxRetries, play);
    NothingPlayed(play);
    hide Request, Ledger, LastKey, RunAttempt;
    LastKeyIsLastSent(play, n);
    if n > 0 {
      WonOnlyAtTheEnd(play, n - 1);
      LastTurnVerdict(play, n);
    }
  }

  lemma NothingPlayed(play: nat -> Turn)
    ensures Ledger(play, 0, Won()) == []
  {
  }

  lemma LastTurnVerdict(play: nat -> Turn, n: nat)
    requires n > 0 && Ledger(play, n - 1, Won()) == []
    ensures |Ledger(play, n, Won())| == if RunAttempt(play(n - 1)).exit.Returned? then 1 else 0
  {
  }

  lemma {:induction false} LastKeyIsLastSent(play: nat -> Turn, n: nat)
    ensures var sent := Ledger(play, n, Any());
            if sent == [] then LastKey(play, n) == None else LastKey(play, n) == Some(sent[|sent| - 1])
  {
    if n == 0 {
    } else {
      hide RunAttempt;
      LastKeyIsLastSent(play, n - 1);
    }
  }
}
