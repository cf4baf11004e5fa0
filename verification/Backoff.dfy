/**
 * The back-off of the request loop: what it can cost, and exactly when the k-th sleep obeys
 * the k-th bound.
 */
module Backoff {
  import opened Seqs
  import opened RequestLoop
  import opened RequestRuns

  function LeastReal(a: real, b: real): real {
    if a <= b then a else b
  }

  /** The delay after attempt number `attempt` (from 0) in milliseconds, for `u = Math.random()`. */
  function Delay(attempt: nat, u: real): real {
    var base := (attempt as real + 1.0) * 500.0;
    var jittered := base * (0.9 + u * 0.2);
    var capped := LeastReal(jittered, 10000.0);
    if capped >= 100.0 then capped else 100.0
  }

  /** The jitter is ten percent of half a second per attempt; the lower bound of 100 ms never applies. */
  lemma DelayExactly(attempt: nat, u: real)
    requires 0.0 <= u < 1.0
    ensures var n := attempt as real + 1.0;
            Delay(attempt, u) == LeastReal(n * 450.0 + n * u * 100.0, 10000.0)
  {
    var n := attempt as real + 1.0;
    assert n * 500.0 * (0.9 + u * 0.2) == n * 450.0 + n * u * 100.0;
    assert n * u >= 0.0;
  }

  /** `min(550 * n, 10000)` for the n-th attempt, counted from 1. */
  function Cap(n: nat): real {
    LeastReal(550.0 * n as real, 10000.0)
  }

  function TotalDelay(sleeps: seq<nat>, random: nat -> real): real {
    if sleeps == [] then 0.0
    else
      var last := sleeps[|sleeps| - 1];
      TotalDelay(sleeps[..|sleeps| - 1], random) + Delay(last, random(last))
  }

  /** The caps of the attempts that were actually followed by a sleep. */
  function AttemptCaps(sleeps: seq<nat>): real {
    if sleeps == [] then 0.0 else AttemptCaps(sleeps[..|sleeps| - 1]) + Cap(sleeps[|sleeps| - 1] + 1)
  }

  /** The caps of the first `k` attempts. */
  function FirstCaps(k: nat): real {
    if k == 0 then 0.0 else FirstCaps(k - 1) + Cap(k)
  }

  ghost predicate Increasing(sleeps: seq<nat>) {
    forall i, j :: 0 <= i < j < |sleeps| ==> sleeps[i] < sleeps[j]
  }

  ghost predicate Jitter(random: nat -> real) {
    forall i :: 0.0 <= random(i) < 1.0
  }

  // --------------------------------------------------------------------- upper bounds

  /** How far the jitter `u` keeps a delay of weight `w` below its cap. */
  function Loss(u: real, w: real): real {
    (1.0 - u) * w
  }

  lemma Expand(n: real, u: real)
    ensures n * 500.0 * (0.9 + u * 0.2) == 550.0 * n - Loss(u, 100.0 * n)
  {
    assert n * (u * 0.2) == 0.2 * (u * n);
    assert (1.0 - u) * (100.0 * n) == 100.0 * n - 100.0 * (u * n);
  }

  lemma LossBounds(u: real, w: real)
    requires 0.0 <= u < 1.0 && w >= 0.0
    ensures 0.0 <= Loss(u, w) <= w
  {
    NonNegative(1.0 - u, w);
    NonNegative(u, w);
    assert (1.0 - u) * w == w - u * w;
  }

  lemma NonNegative(a: real, b: real)
    requires a >= 0.0 && b >= 0.0
    ensures a * b >= 0.0
  {
  }

  lemma LossAdds(u: real, a: real, b: real)
    ensures Loss(u, a + b) == Loss(u, a) + Loss(u, b)
  {
  }

  lemma DelayBounds(attempt: nat, u: real)
    requires 0.0 <= u < 1.0
    ensures 100.0 <= Delay(attempt, u) <= Cap(attempt + 1)
    ensures Delay(attempt, u) >= Cap(attempt + 1) - Loss(u, 100.0 * (attempt as real + 1.0))
  {
    hide Loss;
    var n := attempt as real + 1.0;
    Expand(n, u);
    LossBounds(u, 100.0 * n);
  }

  /** Any run sleeps at most the caps of the attempts it slept after. */
  lemma {:induction false} SleepsBoundedByTheirAttempts(sleeps: seq<nat>, random: nat -> real)
    requires Jitter(random)
    ensures TotalDelay(sleeps, random) <= AttemptCaps(sleeps)
  {
    if sleeps == [] {
    } else {
      SleepsBoundedByTheirAttempts(sleeps[..|sleeps| - 1], random);
      DelayBounds(sleeps[|sleeps| - 1], random(sleeps[|sleeps| - 1]));
    }
  }

  lemma {:induction false} CapsGrow(m: nat, n: nat)
    requires m <= n
    ensures Cap(m) <= Cap(n) && FirstCaps(m) <= FirstCaps(n)
  {
    if m < n {
      CapsGrow(m, n - 1);
    }
  }

  lemma {:induction false} AttemptCapsWithin(sleeps: seq<nat>, limit: nat)
    requires Increasing(sleeps)
    requires forall i :: 0 <= i < |sleeps| ==> sleeps[i] < limit
    ensures AttemptCaps(sleeps) <= FirstCaps(limit)
  {
    if sleeps == [] {
      CapsGrow(0, limit);
    } else {
      var init, last := sleeps[..|sleeps| - 1], sleeps[|sleeps| - 1];
      AttemptCapsWithin(init, last);
      CapsGrow(last + 1, limit);
    }
  }

  // ------------------------------------------------------------- the bound by position

  /** Every sleep comes after its own-numbered attempt, up to where the caps stop growing. */
  ghost predicate NoSkippedAttempt(sleeps: seq<nat>) {
    forall j :: 0 <= j < |sleeps| && j < 18 ==> sleeps[j] == j
  }

  lemma IncreasingLowerBound(sleeps: seq<nat>, j: nat)
    requires Increasing(sleeps) && j < |sleeps|
    ensures sleeps[j] >= j
  {
    if j > 0 {
      IncreasingLowerBound(sleeps, j - 1);
    }
  }

  lemma {:induction false} CapsByPosition(sleeps: seq<nat>)
    requires Increasing(sleeps)
    ensures AttemptCaps(sleeps) >= FirstCaps(|sleeps|)
    ensures AttemptCaps(sleeps) == FirstCaps(|sleeps|) <==> NoSkippedAttempt(sleeps)
  {
    if sleeps == [] {
    } else {
      var init, k := sleeps[..|sleeps| - 1], |sleeps| - 1;
      CapsByPosition(init);
      IncreasingLowerBound(sleeps, k);
      CapsGrow(k + 1, sleeps[k] + 1);
      assert NoSkippedAttempt(sleeps) <==> NoSkippedAttempt(init) && (k < 18 ==> sleeps[k] == k) by {
        assert forall j :: 0 <= j < k ==> init[j] == sleeps[j];
      }
    }
  }

  function Weight(sleeps: seq<nat>): real {
    if sleeps == [] then 0.0
    else Weight(sleeps[..|sleeps| - 1]) + 100.0 * (sleeps[|sleeps| - 1] as real + 1.0)
  }

  /** With a constant jitter close to 1 the delays come as close to their caps as wanted. */
  lemma {:induction false} DelaysApproachCaps(sleeps: seq<nat>, u: real, random: nat -> real)
    requires 0.0 <= u < 1.0 && forall i :: random(i) == u
    ensures Weight(sleeps) >= 0.0
    ensures TotalDelay(sleeps, random) >= AttemptCaps(sleeps) - Loss(u, Weight(sleeps))
  {
    if sleeps == [] {
      LossBounds(u, 0.0);
    } else {
      hide Delay, Cap, Loss;
      var init, last := sleeps[..|sleeps| - 1], sleeps[|sleeps| - 1];
      DelaysApproachCaps(init, u, random);
      DelayBounds(last, u);
      LossAdds(u, Weight(init), 100.0 * (last as real + 1.0));
    }
  }

  /** A jitter that loses less than `gap` against the caps. */
  lemma CloseJitter(gap: real, weight: real) returns (u: real)
    requires gap > 0.0 && weight >= 0.0
    ensures 0.0 <= u < 1.0 && Loss(u, weight) < gap
  {
    var m := weight + gap + 1.0;
    var d := gap / m;
    assert d * m == gap;
    assert d > 0.0;
    assert d * (gap + 1.0) > 0.0;
    assert d * m == d * weight + d * (gap + 1.0);
    assert d < 1.0;
    u := 1.0 - d;
  }

  ghost predicate BoundedByPosition(sleeps: seq<nat>) {
    forall random: nat -> real :: Jitter(random) ==> TotalDelay(sleeps, random) <= FirstCaps(|sleeps|)
  }

  /**
   * The k-th sleep obeys the k-th bound, for every jitter, exactly when no attempt without a
   * sleep comes before one of the first eighteen sleeps.
   */
  lemma BoundByPositionExactly(sleeps: seq<nat>)
    requires Increasing(sleeps)
    ensures BoundedByPosition(sleeps) <==> NoSkippedAttempt(sleeps)
  {
    hide TotalDelay, AttemptCaps, FirstCaps, NoSkippedAttempt, Increasing;
    CapsByPosition(sleeps);
    if NoSkippedAttempt(sleeps) {
      forall random: nat -> real | Jitter(random) ensures TotalDelay(sleeps, random) <= FirstCaps(|sleeps|) {
        SleepsBoundedByTheirAttempts(sleeps, random);
      }
    } else {
      var flat: nat -> real := (i: nat) => 0.5;
      DelaysApproachCaps(sleeps, 0.5, flat);
      var u := CloseJitter(AttemptCaps(sleeps) - FirstCaps(|sleeps|), Weight(sleeps));
      var random: nat -> real := (i: nat) => u;
      DelaysApproachCaps(sleeps, u, random);
      assert Jitter(random);
      assert TotalDelay(sleeps, random) > FirstCaps(|sleeps|);
    }
  }

  // --------------------------------------------------------------------- whole requests

  lemma SleepListSnoc(play: nat -> Turn, n: nat, maxRetries: int)
    ensures SleepList(play, n + 1, maxRetries)
            == SleepList(play, n, maxRetries) + if Sleeps(RunAttempt(play(n))) && n < maxRetries then [n] else []
  {
    hide RunAttempt, Sleeps;
  }

  lemma IncreasingSnoc(sleeps: seq<nat>, last: nat)
    requires Increasing(sleeps) && forall i :: i in sleeps ==> i < last
    ensures Increasing(sleeps + [last])
  {
    forall i | 0 <= i < |sleeps|
      ensures sleeps[i] < last
    {
      assert sleeps[i] in sleeps;
    }
  }

  lemma {:induction false} SleepListMembers(play: nat -> Turn, n: nat, maxRetries: int, i: nat)
    ensures i in SleepList(play, n, maxRetries) <==> i < n && i < maxRetries && Sleeps(RunAttempt(play(i)))
  {
    hide RunAttempt, Sleeps;
    if n == 0 {
    } else {
      SleepListMembers(play, n - 1, maxRetries, i);
      SleepListSnoc(play, n - 1, maxRetries);
      hide SleepList;
      NothingAdded(SleepList(play, n - 1, maxRetries));
    }
  }

  lemma {:induction false} SleepListIncreasing(play: nat -> Turn, n: nat, maxRetries: int)
    ensures Increasing(SleepList(play, n, maxRetries))
  {
    hide RunAttempt, Sleeps;
    if n == 0 {
    } else {
      SleepListIncreasing(play, n - 1, maxRetries);
      SleepListSnoc(play, n - 1, maxRetries);
      hide SleepList, Increasing;
      var init := SleepList(play, n - 1, maxRetries);
      NothingAdded(init);
      forall i | i in init
        ensures i < n - 1
      {
        SleepListMembers(play, n - 1, maxRetries, i);
      }
      IncreasingSnoc(init, n - 1);
    }
  }

  lemma SleepListContract(play: nat -> Turn, n: nat, maxRetries: int)
    ensures Increasing(SleepList(play, n, maxRetries))
    ensures forall i :: i in SleepList(play, n, maxRetries) <==>
              0 <= i < n && i < maxRetries && Sleeps(RunAttempt(play(i)))
  {
    hide RunAttempt, Sleeps, SleepList, Increasing;
    SleepListIncreasing(play, n, maxRetries);
    forall i: nat
      ensures i in SleepList(play, n, maxRetries) <==> i < n && i < maxRetries && Sleeps(RunAttempt(play(i)))
    {
      SleepListMembers(play, n, maxRetries, i);
    }
  }

  function JitterOf(play: nat -> Turn): nat -> real {
    (i: nat) => play(i).random
  }

  /** Every request, with every retry budget, sleeps at most the caps of its retry attempts. */
  lemma RequestSleepBound(maxRetries: nat, play: nat -> Turn)
    requires Jitter(JitterOf(play))
    ensures TotalDelay(Request(maxRetries, play).books.sleeps, JitterOf(play)) <= FirstCaps(maxRetries)
  {
    hide TotalDelay, AttemptCaps, FirstCaps, RunAttempt;
    var r := Request(maxRetries, play);
    RequestSettles(maxRetries, play);
    SleepListContract(play, r.books.attempts, maxRetries);
    forall i | 0 <= i < |r.books.sleeps| ensures r.books.sleeps[i] < maxRetries {
      assert r.books.sleeps[i] in r.books.sleeps;
    }
    SleepsBoundedByTheirAttempts(r.books.sleeps, JitterOf(play));
    AttemptCapsWithin(r.books.sleeps, maxRetries);
  }

  lemma SleepsFromZero(play: nat -> Turn, n: nat, maxRetries: int, j: nat)
    requires n <= Max(maxRetries + 1, 0)
    requires forall i :: 0 <= i < n - 1 ==> !Settles(RunAttempt(play(i)))
    requires j < |SleepList(play, n, maxRetries)|
    ensures SleepList(play, n, maxRetries)[j] == j
            <==> forall i :: 0 <= i <= SleepList(play, n, maxRetries)[j] ==> !RunAttempt(play(i)).exit.Continued?
  {
    hide RunAttempt, SleepList;
    var sleeps := SleepList(play, n, maxRetries);
    SleepListContract(play, n, maxRetries);
    IncreasingLowerBound(sleeps, j);
    assert sleeps[j] in sleeps;
    if forall i :: 0 <= i <= sleeps[j] ==> !RunAttempt(play(i)).exit.Continued? {
      forall i | 0 <= i <= sleeps[j] ensures i in sleeps {
        assert i < n - 1 ==> !Settles(RunAttempt(play(i)));
      }
      DenseFromZero(sleeps, j);
    } else {
      var i :| 0 <= i <= sleeps[j] && RunAttempt(play(i)).exit.Continued?;
      assert i !in sleeps;
      GapPushesUp(sleeps, i, j);
    }
  }

  lemma DenseFromZero(sleeps: seq<nat>, j: nat)
    requires Increasing(sleeps) && j < |sleeps|
    requires forall i :: 0 <= i <= sleeps[j] ==> i in sleeps
    ensures sleeps[j] == j
  {
    IncreasingLowerBound(sleeps, j);
    assert j in sleeps;
    var k :| 0 <= k < |sleeps| && sleeps[k] == j;
    if j > 0 {
      assert forall i :: 0 <= i <= sleeps[j - 1] ==> i in sleeps;
      DenseFromZero(sleeps, j - 1);
    }
  }

  lemma GapPushesUp(sleeps: seq<nat>, gap: nat, j: nat)
    requires Increasing(sleeps) && j < |sleeps|
    requires gap !in sleeps && gap <= sleeps[j]
    ensures sleeps[j] > j
  {
    assert sleeps[j] in sleeps;
    if j > 0 && sleeps[j - 1] >= gap {
      GapPushesUp(sleeps, gap, j - 1);
    } else if j > 0 {
      IncreasingLowerBound(sleeps, j - 1);
    }
  }

  /** The positional bound holds for a request exactly when no rotation precedes its first eighteen sleeps. */
  lemma RequestBoundByPositionExactly(maxRetries: int, play: nat -> Turn)
    ensures var sleeps := Request(maxRetries, play).books.sleeps;
            BoundedByPosition(sleeps)
            <==> forall j :: 0 <= j < |sleeps| && j < 18 ==>
                   forall i :: 0 <= i <= sleeps[j] ==> !RunAttempt(play(i)).exit.Continued?
  {
    hide RunAttempt, SleepList, BoundedByPosition;
    var r := Request(maxRetries, play);
    RequestSettles(maxRetries, play);
    SleepListContract(play, r.books.attempts, maxRetries);
    BoundByPositionExactly(r.books.sleeps);
    forall j | 0 <= j < |r.books.sleeps|
      ensures r.books.sleeps[j] == j
              <==> forall i :: 0 <= i <= r.books.sleeps[j] ==> !RunAttempt(play(i)).exit.Continued?
    {
      SleepsFromZero(play, r.books.attempts, maxRetries, j);
    }
  }

  const QUIET := ErrorText(false, false, false)

  /** An expired session, then a network error, then success: one sleep of almost 1100 ms, not 550. */
  function ExpiredThenFlaky(): nat -> Turn {
    (i: nat) =>
      Turn(Active(1),
           if i == 0 then WithMessage(RetMsg(true, false, false, false, false, false, QUIET), false)
           else if i == 1 then TransportError(QUIET)
           else Plain,
           None, None, false, None, 0.5)
  }

  lemma ExpiredThenFlakyAttempts()
    ensures var play := ExpiredThenFlaky();
            && RunAttempt(play(0)) == Attempt(Some(1), true, false, Continued)
            && RunAttempt(play(1)) == Attempt(Some(1), true, false, Caught(QUIET))
            && RunAttempt(play(2)) == Attempt(Some(1), true, true, Returned)
  {
  }

  lemma RotationBreaksPositionalBound()
    ensures var r := Request(3, ExpiredThenFlaky());
            r.ending.Succeeded? && r.books.sleeps == [1] && !BoundedByPosition(r.books.sleeps)
    ensures TotalDelay([1], JitterOf(ExpiredThenFlaky())) == 1000.0 && FirstCaps(1) == 550.0
  {
    ExpiredThenFlakyAttempts();
    OneLateSleep();
    BoundByPositionExactly([1]);
    hide RunAttempt, MessageOf, BoundedByPosition;
    var play := ExpiredThenFlaky();
    var l1 := Note(START, play(0));
    var l2 := Slept(Note(l1, play(1)), 1);
    assert Run(0, 3, play, START) == Run(1, 3, play, l1);
    assert Run(1, 3, play, l1) == Run(2, 3, play, l2);
    assert Run(2, 3, play, l2) == Result(Note(l2, play(2)).books, Succeeded);
  }

  lemma OneLateSleep()
    ensures TotalDelay([1], JitterOf(ExpiredThenFlaky())) == 1000.0 && FirstCaps(1) == 550.0
  {
    assert [1][..0] == [];
    assert TotalDelay([], JitterOf(ExpiredThenFlaky())) == 0.0;
    assert FirstCaps(0) == 0.0;
  }
}
