/**
 * `apiRequest`: the vendor retry loop and its quota accounting, run against an arbitrary
 * sequence of session, network and application answers.
 */
module RequestLoop {
  import opened Seqs

  type Key = nat

  /** The substrings `classifyRetMsg` and the error handling look for in a vendor message. */
  datatype RetMsg = RetMsg(
    invalidSession: bool,
    dailyLimit: bool,
    noHistory: bool,
    privacy: bool,
    notFound: bool,
    transient: bool,
    text: ErrorText
  )

  /** What later tests read out of an error message. */
  datatype ErrorText = ErrorText(has503: bool, hasTerminalCode: bool, excusesKey: bool)

  datatype Action = SessionExpired | QuotaSpent | EmptyAnswer | Retryable | Terminal | Unknown

  function Classify(m: RetMsg): Action {
    if m.invalidSession then SessionExpired
    else if m.dailyLimit then QuotaSpent
    else if m.noHistory then EmptyAnswer
    else if m.privacy then EmptyAnswer
    else if m.notFound then Terminal
    else if m.transient then Retryable
    else Unknown
  }

  /** The body of one HTTP answer. */
  datatype Reply =
    | TransportError(text: ErrorText)
    | Plain
    | WithMessage(msg: RetMsg, preservedBatch: bool)

  /**
   * One turn of the environment. `session` is the key `getActiveSession` hands out, or the error
   * it throws; the remaining fields say whether the relay's own bookkeeping calls succeed, and
   * `random` is what `Math.random()` returns for the back-off.
   */
  datatype Turn = Turn(
    session: SessionAnswer,
    reply: Reply,
    handlerThrows: Option<ErrorText>,
    firstLog: Option<ErrorText>,
    retryLogFails: bool,
    successThrows: Option<ErrorText>,
    random: real
  )

  datatype SessionAnswer = NoSession(text: ErrorText) | Active(key: Key)

  /** What one pass through the `try` block comes to. */
  datatype Exit =
    | Returned
    | Continued
    | Caught(text: ErrorText)

  /** `throw new Error(`${code}: ${retMsg}`)`: terminal and unknown answers carry their code. */
  function Raised(m: RetMsg): ErrorText {
    if Classify(m).Retryable? then m.text else m.text.(hasTerminalCode := true)
  }

  // ------------------------------------------------------------------------- the loop

  datatype Ending = Succeeded | Unavailable503 | Exhausted(keyFault: bool)

  /** The relay's books after a request. `sleeps` lists the attempts followed by a back-off. */
  datatype Books = Books(
    sent: seq<Key>,
    usage: seq<Key>,
    logs: seq<Key>,
    successes: seq<Key>,
    failures: seq<Key>,
    sleeps: seq<nat>,
    attempts: nat
  )

  datatype Loop = Loop(books: Books, lastKey: Option<Key>, lastError: Option<ErrorText>, lastMessage: Option<ErrorText>)

  datatype Result = Result(books: Books, ending: Ending)

  /**
   * What the loop carries, with the two variables of the attempt in progress: the key whose usage
   * it has counted, and whether the endpoint log has it.
   */
  datatype Frame = Frame(loop: Loop, countedKey: Option<Key>, endpointLogged: bool)

  datatype Logging = Logging(frame: Frame, thrown: Option<ErrorText>)

  datatype Flow = Flow(frame: Frame, exit: Exit)

  const CLOSED_BOOKS := Books([], [], [], [], [], [], 0)
  const START := Loop(CLOSED_BOOKS, None, None, None)
  const NO_TEXT := ErrorText(false, false, false)

  /** `incrementUsage`, and the variable that remembers it. */
  function Incremented(f: Frame, key: Key): Frame {
    f.(loop := f.loop.(books := f.loop.books.(usage := f.loop.books.usage + [key])), countedKey := Some(key))
  }

  /** The request leaves the relay. */
  function Fetched(f: Frame, key: Key): Frame {
    f.(loop := f.loop.(books := f.loop.books.(sent := f.loop.books.sent + [key])))
  }

  function Credited(f: Frame, key: Key): Frame {
    f.(loop := f.loop.(books := f.loop.books.(successes := f.loop.books.successes + [key])))
  }

  /** `logCountedAttempt`: at most one log row for a counted attempt, and only once written. */
  function LogCounted(f: Frame, failure: Option<ErrorText>): Logging {
    if f.countedKey.None? || f.endpointLogged then Logging(f, None)
    else if failure.Some? then Logging(f, failure)
    else
      var logs := f.loop.books.logs + [f.countedKey.value];
      Logging(f.(loop := f.loop.(books := f.loop.books.(logs := logs)), endpointLogged := true), None)
  }

  /** A usable answer: log it, credit the key, return. */
  function Finish(f: Frame, key: Key, t: Turn): Flow {
    var l := LogCounted(f, t.firstLog);
    if l.thrown.Some? then Flow(l.frame, Caught(l.thrown.value))
    else if t.successThrows.Some? then Flow(l.frame, Caught(t.successThrows.value))
    else Flow(Credited(l.frame, key), Returned)
  }

  /** A session or quota answer: repair, log, and go round again without a delay. */
  function Rotate(f: Frame, t: Turn): Flow {
    if t.handlerThrows.Some? then Flow(f, Caught(t.handlerThrows.value))
    else
      var l := LogCounted(f, t.firstLog);
      Flow(l.frame, if l.thrown.Some? then Caught(l.thrown.value) else Continued)
  }

  function Examine(f: Frame, key: Key, msg: RetMsg, t: Turn): Flow {
    var noted := f.(loop := f.loop.(lastMessage := Some(msg.text)));
    match Classify(msg)
    case EmptyAnswer => Finish(noted, key, t)
    case SessionExpired => Rotate(noted, t)
    case QuotaSpent => Rotate(noted, t)
    case _ => Flow(noted, Caught(Raised(msg)))
  }

  /** The `try` block, from the session to the answer. */
  function TryBlock(f: Frame, t: Turn): Flow {
    match t.session
    case NoSession(text) => Flow(f, Caught(text))
    case Active(key) =>
      var sent := Fetched(Incremented(f.(loop := f.loop.(lastKey := Some(key))), key), key);
      match t.reply
      case TransportError(text) => Flow(sent, Caught(text))
      case Plain => Finish(sent, key, t)
      case WithMessage(msg, preserved) => if preserved then Finish(sent, key, t) else Examine(sent, key, msg, t)
  }

  /** The head of the `catch` block: a counted attempt is logged now unless it was before. */
  function Relogged(f: Frame, t: Turn): Frame {
    if f.countedKey.Some? && !f.endpointLogged
    then LogCounted(f, if t.retryLogFails then Some(NO_TEXT) else None).frame else f
  }

  function CatchBlock(flow: Flow, t: Turn): Flow {
    if flow.exit.Caught? then
      var caught := Relogged(flow.frame, t);
      Flow(caught.(loop := caught.loop.(lastError := Some(flow.exit.text))), flow.exit)
    else flow
  }

  /** The variables of a new attempt. */
  function Begun(l: Loop): Frame {
    Frame(l.(books := l.books.(attempts := l.books.attempts + 1)), None, false)
  }

  /** One whole attempt. */
  function Played(l: Loop, t: Turn): Flow {
    CatchBlock(TryBlock(Begun(l), t), t)
  }

  /** The loop state after one attempt, back-off aside. */
  function Note(l: Loop, t: Turn): Loop {
    Played(l, t).frame.loop
  }

  function Listed(k: Option<Key>, yes: bool): seq<Key> {
    if k.Some? && yes then [k.value] else []
  }

  function Slept(l: Loop, attempt: nat): Loop {
    l.(books := l.books.(sleeps := l.books.sleeps + [attempt]))
  }

  /** After the loop: one failure is recorded for the last key, if there ever was one. */
  function GiveUp(l: Loop): Result {
    var text := if l.lastError.Some? then l.lastError.value
                else if l.lastMessage.Some? then l.lastMessage.value
                else NO_TEXT;
    Result(l.books.(failures := l.books.failures + Listed(l.lastKey, true)),
           Exhausted(!text.hasTerminalCode && !text.excusesKey))
  }

  /** The loop from `attempt` on, against the turns the environment plays. */
  function Run(attempt: nat, maxRetries: int, play: nat -> Turn, l: Loop): Result
    decreases maxRetries + 1 - attempt
  {
    if attempt > maxRetries then GiveUp(l)
    else
      var flow := Played(l, play(attempt));
      var noted := flow.frame.loop;
      match flow.exit
      case Returned => Result(noted.books, Succeeded)
      case Continued => Run(attempt + 1, maxRetries, play, noted)
      case Caught(text) =>
        if text.has503 then Result(noted.books, Unavailable503)
        else if text.hasTerminalCode then GiveUp(noted)
        else Run(attempt + 1, maxRetries, play, if attempt < maxRetries then Slept(noted, attempt) else noted)
  }

  function Request(maxRetries: int, play: nat -> Turn): Result {
    Run(0, maxRetries, play, START)
  }

  /**
   * The key pool and the running request. Each book is written by one statement only; the
   * variables of the attempt in progress are fields, since a closure of the source shares them.
   */
  class KeyPool {
    var usage: seq<Key>
    var logs: seq<Key>
    var successes: seq<Key>
    var failures: seq<Key>
    ghost var sent: seq<Key>
    ghost var sleeps: seq<nat>
    ghost var attempts: nat
    var lastKey: Option<Key>
    var lastError: Option<ErrorText>
    var lastMessage: Option<ErrorText>
    var countedKey: Option<Key>
    var endpointLogged: bool

    constructor ()
      ensures Progress() == START
    {
      usage, logs, successes, failures, sent, sleeps, attempts := [], [], [], [], [], [], 0;
      lastKey, lastError, lastMessage, countedKey, endpointLogged := None, None, None, None, false;
    }

    ghost function Progress(): Loop
      reads this
    {
      Loop(Books(sent, usage, logs, successes, failures, sleeps, attempts), lastKey, lastError, lastMessage)
    }

    ghost function Current(): Frame
      reads this
    {
      Frame(Progress(), countedKey, endpointLogged)
    }

    method IncrementUsage(key: Key)
      modifies this`usage
      ensures usage == old(usage) + [key]
    {
      usage := usage + [key];
    }

    /** `fetchJSON`: whatever comes of it, the request has left. */
    method FetchJson(key: Key, reply: Reply) returns (thrown: Option<ErrorText>)
      modifies this`sent
      ensures sent == old(sent) + [key]
      ensures thrown == if reply.TransportError? then Some(reply.text) else None
    {
      sent := sent + [key];
      thrown := if reply.TransportError? then Some(reply.text) else None;
    }

    method RecordSuccess(key: Key, failure: Option<ErrorText>) returns (thrown: Option<ErrorText>)
      modifies this`successes
      ensures thrown == failure
      ensures successes == if failure.Some? then old(successes) else old(successes) + [key]
    {
      thrown := failure;
      if failure.None? {
        successes := successes + [key];
      }
    }

    method LogCountedAttempt(failure: Option<ErrorText>) returns (thrown: Option<ErrorText>)
      modifies this`logs, this`endpointLogged
      ensures Logging(Current(), thrown) == LogCounted(old(Current()), failure)
    {
      if countedKey.None? || endpointLogged {
        return None;
      }
      if failure.Some? {
        return failure;
      }
      logs := logs + [countedKey.value];
      endpointLogged := true;
      return None;
    }

    method FinishAnswer(key: Key, t: Turn) returns (exit: Exit)
      modifies this`logs, this`endpointLogged, this`successes
      ensures Flow(Current(), exit) == Finish(old(Current()), key, t)
    {
      var thrown := LogCountedAttempt(t.firstLog);
      if thrown.Some? {
        return Caught(thrown.value);
      }
      thrown := RecordSuccess(key, t.successThrows);
      if thrown.Some? {
        return Caught(thrown.value);
      }
      return Returned;
    }

    /** `handleRetMsg` and what follows it. */
    method HandleMessage(key: Key, msg: RetMsg, t: Turn) returns (exit: Exit)
      modifies this`logs, this`endpointLogged, this`successes, this`lastMessage
      ensures Flow(Current(), exit) == Examine(old(Current()), key, msg, t)
    {
      lastMessage := Some(msg.text);
      var action := Classify(msg);
      if action.Retryable? || action.Terminal? || action.Unknown? {
        return Caught(Raised(msg));
      }
      if action.EmptyAnswer? {
        exit := FinishAnswer(key, t);
        return;
      }
      if t.handlerThrows.Some? {
        return Caught(t.handlerThrows.value);
      }
      var thrown := LogCountedAttempt(t.firstLog);
      if thrown.Some? {
        return Caught(thrown.value);
      }
      return Continued;
    }

    method TryAttempt(t: Turn) returns (exit: Exit)
      modifies this
      ensures Flow(Current(), exit) == TryBlock(old(Current()), t)
    {
      if t.session.NoSession? {
        return Caught(t.session.text);
      }
      var key := t.session.key;
      lastKey := Some(key);
      IncrementUsage(key);
      countedKey := Some(key);
      var thrown := FetchJson(key, t.reply);
      if thrown.Some? {
        return Caught(thrown.value);
      }
      if t.reply.WithMessage? && !t.reply.preservedBatch {
        exit := HandleMessage(key, t.reply.msg, t);
      } else {
        exit := FinishAnswer(key, t);
      }
    }

    /** One pass through the loop body up to the back-off. */
    method Attempt(t: Turn) returns (exit: Exit)
      modifies this
      ensures Flow(Current(), exit) == Played(old(Progress()), t)
    {
      hide TryBlock, LogCounted;
      attempts := attempts + 1;
      countedKey, endpointLogged := None, false;
      exit := TryAttempt(t);
      if exit.Caught? {
        if countedKey.Some? && !endpointLogged {
          var ignored := LogCountedAttempt(if t.retryLogFails then Some(NO_TEXT) else None);
        }
        lastError := Some(exit.text);
      }
    }

    method ApiRequest(maxRetries: int, play: nat -> Turn) returns (ending: Ending)
      requires Progress() == START
      modifies this
      ensures Result(Progress().books, ending) == Request(maxRetries, play)
    {
      hide Played;
      var attempt := 0;
      while attempt <= maxRetries
        invariant attempt == 0 || attempt <= maxRetries + 1
        invariant Run(attempt, maxRetries, play, Progress()) == Request(maxRetries, play)
        decreases maxRetries - attempt
      {
        var exit := Attempt(play(attempt));
        if exit.Returned? {
          return Succeeded;
        }
        if exit.Caught? {
          if exit.text.has503 {
            return Unavailable503;
          }
          if exit.text.hasTerminalCode {
            break;
          }
          if attempt < maxRetries {
            sleeps := sleeps + [attempt];
          }
        }
        attempt := attempt + 1;
      }
      var text := if lastError.Some? then lastError.value else if lastMessage.Some? then lastMessage.value else NO_TEXT;
      if lastKey.Some? {
        failures := failures + [lastKey.value];
      }
      return Exhausted(!text.hasTerminalCode && !text.excusesKey);
    }
  }
}
