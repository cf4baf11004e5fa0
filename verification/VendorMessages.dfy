/**
 * What each vendor message makes the request loop do, read off the message itself.
 */
module VendorMessages {
  import opened Seqs
  import opened RequestLoop
  import opened RequestRuns
  import opened Backoff

  /** The exit of an attempt whose log write, and then `after` it, decide. */
  function LoggedExit(t: Turn, after: Exit): Exit {
    match t.firstLog
    case Some(text) => Caught(text)
    case None => after
  }

  function CreditedExit(t: Turn): Exit {
    LoggedExit(t, match t.successThrows case Some(text) => Caught(text) case None => Returned)
  }

  lemma MessageExit(t: Turn, m: RetMsg)
    requires Examined(t, m)
    ensures Rotates(m) ==>
              RunAttempt(t).exit
              == match t.handlerThrows case Some(text) => Caught(text) case None => LoggedExit(t, Continued)
    ensures SaysEmpty(m) ==> RunAttempt(t).exit == CreditedExit(t)
    ensures Refuses(m) ==> RunAttempt(t).exit == Caught(m.text.(hasTerminalCode := true))
    ensures Passing(m) ==> RunAttempt(t).exit == Caught(m.text)
  {
  }

  /** How every other attempt ends: on the session or transport error, or like a usable answer. */
  lemma OtherExit(t: Turn)
    ensures t.session.NoSession? ==> RunAttempt(t).exit == Caught(t.session.text)
    ensures t.session.Active? && t.reply.TransportError? ==> RunAttempt(t).exit == Caught(t.reply.text)
    ensures t.session.Active? && (t.reply.Plain? || (t.reply.WithMessage? && t.reply.preservedBatch)) ==>
              RunAttempt(t).exit == CreditedExit(t)
  {
  }

  /** The attempt goes round again, with or without a delay, exactly while the budget lasts. */
  lemma GoesOn(maxRetries: int, play: nat -> Turn, i: nat)
    requires i < Request(maxRetries, play).books.attempts
    ensures var r := Request(maxRetries, play);
            && (Settles(RunAttempt(play(i))) ==> i == r.books.attempts - 1)
            && (!Settles(RunAttempt(play(i))) ==> (i + 1 < r.books.attempts <==> i < maxRetries))
            && (i in r.books.sleeps <==> Sleeps(RunAttempt(play(i))) && i < maxRetries)
  {
    hide Request, RunAttempt, Settles, Sleeps, SleepList, Ledger;
    RequestSettles(maxRetries, play);
    SleepListMembers(play, Request(maxRetries, play).books.attempts, maxRetries, i);
  }

  /** An invalid session or a spent quota, repaired and logged: the next attempt follows at once. */
  lemma SessionAndQuotaRotate(maxRetries: int, play: nat -> Turn, i: nat, m: RetMsg)
    requires i < Request(maxRetries, play).books.attempts && Examined(play(i), m)
    requires m.invalidSession || m.dailyLimit
    requires play(i).handlerThrows.None? && play(i).firstLog.None?
    ensures var r := Request(maxRetries, play);
            && (i < maxRetries ==> i + 1 < r.books.attempts)
            && i !in r.books.sleeps
            && (i == r.books.attempts - 1 ==> r.ending.Exhausted?)
  {
    hide Request, RunAttempt, SleepList, Ledger;
    MessageExit(play(i), m);
    GoesOn(maxRetries, play, i);
    RequestSettles(maxRetries, play);
  }

  /** No match history, or a private profile, is an answer: once recorded the request has succeeded. */
  lemma EmptyAnswersSucceed(maxRetries: int, play: nat -> Turn, i: nat, m: RetMsg)
    requires i < Request(maxRetries, play).books.attempts && Examined(play(i), m)
    requires !m.invalidSession && !m.dailyLimit && (m.noHistory || m.privacy)
    requires play(i).firstLog.None? && play(i).successThrows.None?
    ensures var r := Request(maxRetries, play);
            && i == r.books.attempts - 1
            && r.ending.Succeeded?
            && r.books.successes == [play(i).session.key]
  {
    hide Request, SleepList;
    MessageExit(play(i), m);
    GoesOn(maxRetries, play, i);
    RequestSettles(maxRetries, play);
    TurnExactly(START, play(i));
    LastWon(play, i);
    WonOnlyAtTheEnd(play, i);
    hide RunAttempt, Ledger;
  }

  /**
   * Not found, or a message nobody knows: the last attempt, never a success; the key is not to blame,
   * and a 503 in the text is reported as such.
   */
  lemma RefusalsEndTheRequest(maxRetries: int, play: nat -> Turn, i: nat, m: RetMsg)
    requires i < Request(maxRetries, play).books.attempts && Examined(play(i), m)
    requires !m.invalidSession && !m.dailyLimit && !m.noHistory && !m.privacy
    requires m.notFound || !m.transient
    ensures var r := Request(maxRetries, play);
            && i == r.books.attempts - 1
            && r.ending == (if m.text.has503 then Unavailable503 else Exhausted(false))
            && r.books.successes == []
  {
    hide Request, RunAttempt, SleepList, Ledger;
    MessageExit(play(i), m);
    GoesOn(maxRetries, play, i);
    RequestSettles(maxRetries, play);
    TerminalNeverRetried(maxRetries, play, i);
    LastErrorIs(play, i);
  }

  lemma LastErrorIs(play: nat -> Turn, i: nat)
    requires RunAttempt(play(i)).exit.Caught?
    ensures FinalText(play, i + 1) == RunAttempt(play(i)).exit.text
  {
  }

  /**
   * Maintenance and time-outs pass: with neither a 503 nor a terminal code in the text the attempt is
   * repeated after a sleep while the budget lasts; at its end the key is blamed unless the text excuses it.
   */
  lemma PassingFailuresAreRetried(maxRetries: int, play: nat -> Turn, i: nat, m: RetMsg)
    requires i < Request(maxRetries, play).books.attempts && Examined(play(i), m)
    requires !m.invalidSession && !m.dailyLimit && !m.noHistory && !m.privacy
    requires !m.notFound && m.transient
    requires !m.text.has503 && !m.text.hasTerminalCode
    ensures var r := Request(maxRetries, play);
            && (i < maxRetries <==> i + 1 < r.books.attempts)
            && (i < maxRetries <==> i in r.books.sleeps)
            && (i == r.books.attempts - 1 ==> r.ending == Exhausted(!m.text.excusesKey))
  {
    hide Request, RunAttempt, SleepList, Ledger;
    MessageExit(play(i), m);
    GoesOn(maxRetries, play, i);
    RequestSettles(maxRetries, play);
    LastErrorIs(play, i);
  }

  // ---------------------------------------------------------------------------- witness

  const NOT_FOUND := RetMsg(false, false, false, false, true, false, NO_TEXT)

  const MAINTENANCE := RetMsg(false, false, false, false, false, true, NO_TEXT)

  /** Every turn answers key 1 with the same message. */
  function Always(m: RetMsg): nat -> Turn {
    (i: nat) => Turn(Active(1), WithMessage(m, false), None, None, false, None, 0.5)
  }

  /** Against a vendor that never finds anything one request is sent, against one in maintenance four. */
  lemma OneRequestOrFour()
    ensures Request(3, Always(NOT_FOUND)).books.sent == [1]
    ensures Request(3, Always(NOT_FOUND)).ending == Exhausted(false)
    ensures |Request(3, Always(MAINTENANCE)).books.sent| == 4
    ensures Request(3, Always(MAINTENANCE)).ending == Exhausted(true)
  {
    hide Request, RunAttempt, Ledger, SleepList;
    SomeAttempt(3, Always(NOT_FOUND));
    SomeAttempt(3, Always(MAINTENANCE));
    RefusalsEndTheRequest(3, Always(NOT_FOUND), 0, NOT_FOUND);
    var n := Request(3, Always(MAINTENANCE)).books.attempts;
    PassingFailuresAreRetried(3, Always(MAINTENANCE), n - 1, MAINTENANCE);
    SentEverywhere(Always(NOT_FOUND), 1);
    SentEverywhere(Always(MAINTENANCE), n);
    RequestSettles(3, Always(NOT_FOUND));
    RequestSettles(3, Always(MAINTENANCE));
  }

  lemma SomeAttempt(maxRetries: nat, play: nat -> Turn)
    ensures 0 < Request(maxRetries, play).books.attempts <= maxRetries + 1
  {
    hide Request, RunAttempt, Ledger, SleepList;
    RequestSettles(maxRetries, play);
  }

  lemma {:induction false} SentEverywhere(play: nat -> Turn, n: nat)
    requires forall i :: play(i).session == Active(1)
    ensures |Ledger(play, n, Any())| == n
    ensures n == 1 ==> Ledger(play, n, Any()) == [1]
  {
    if n == 0 {
    } else {
      SentEverywhere(play, n - 1);
      TurnExactly(START, play(n - 1));
      hide RunAttempt;
    }
  }
}
