/**
 * Match-score authority: which score a set of independent observations proves.
 */
module RankedScore {
  import opened Seqs

  /** A vendor field before `Number(...)`: `undefined`, `null` or `""`, an integer, anything else. */
  datatype Field = Missing | Blank | Numeric(n: int) | Malformed

  datatype Observation = Observation(team1: Field, team2: Field, winner: Field)

  datatype Score = Score(team1: int, team2: int, winner: int)

  datatype Authority = FromDirect | FromHistory

  datatype ProvedScore = ProvedScore(score: Score, authority: Authority)

  /** `Number(field)` when it is an integer; `Number(null)` and `Number("")` are 0. */
  function ToInteger(f: Field): Option<int> {
    match f
    case Missing => None
    case Blank => Some(0)
    case Numeric(n) => Some(n)
    case Malformed => None
  }

  predicate Coherent(s: Score) {
    && s.team1 >= 0
    && s.team2 >= 0
    && (s.winner == 1 || s.winner == 2)
    && (if s.winner == 1 then s.team1 > s.team2 else s.team2 > s.team1)
  }

  /** The coherent result one observation reports, if it reports one. */
  function Reported(o: Observation): Option<Score> {
    var t1, t2, w := ToInteger(o.team1), ToInteger(o.team2), ToInteger(o.winner);
    if t1.Some? && t2.Some? && w.Some? && Coherent(Score(t1.value, t2.value, w.value))
    then Some(Score(t1.value, t2.value, w.value))
    else None
  }

  predicate Filled(f: Field) {
    f.Numeric? || f.Malformed?
  }

  predicate ScoreBearing(o: Observation) {
    Filled(o.team1) || Filled(o.team2) || Filled(o.winner)
  }

  function Bearing(observations: seq<Observation>): seq<Observation> {
    Filter(observations, ScoreBearing)
  }

  ghost predicate Unanimous(observations: seq<Observation>, s: Score) {
    forall i :: 0 <= i < |observations| && ScoreBearing(observations[i]) ==> Reported(observations[i]) == Some(s)
  }

  /** The score that at least two score-bearing observations report and none contradicts. */
  function Consensus(observations: seq<Observation>): (r: Option<Score>) {
    var bearing := Bearing(observations);
    if |bearing| < 2 then None
    else if forall o :: o in bearing ==> Reported(o).Some? && Reported(o) == Reported(bearing[0])
    then Reported(bearing[0])
    else None
  }

  function ResolveSources(direct: seq<Observation>, history: seq<Observation>): Option<ProvedScore> {
    match Consensus(direct)
    case Some(s) => Some(ProvedScore(s, FromDirect))
    case None =>
      match Consensus(history)
      case Some(s) => Some(ProvedScore(s, FromHistory))
      case None => None
  }

  /** The source's loop, with its running result and its early exits. */
  method ResolveObservedMatchScore(observations: seq<Observation>) returns (resolved: Option<Score>)
    ensures resolved == Consensus(observations)
  {
    var bearing := Bearing(observations);
    if |bearing| < 2 {
      return None;
    }
    resolved := None;
    for i := 0 to |bearing|
      invariant i == 0 ==> resolved == None
      invariant i > 0 ==> resolved.Some? && resolved == Reported(bearing[0])
      invariant forall j :: 0 <= j < i ==> Reported(bearing[j]) == resolved
    {
      var candidate := Reported(bearing[i]);
      if candidate == None {
        assert bearing[i] in bearing;
        return None;
      }
      if resolved.Some? && candidate != resolved {
        assert bearing[i] in bearing;
        return None;
      }
      resolved := candidate;
    }
  }

  /** Exactly when a score is proved, and that it is then the coherent one everybody reports. */
  lemma ConsensusExact(observations: seq<Observation>, s: Score)
    ensures Consensus(observations) == Some(s)
            <==> |Bearing(observations)| >= 2 && Unanimous(observations, s)
    ensures Consensus(observations) == Some(s) ==> Coherent(s)
  {
    var bearing := Bearing(observations);
    FilterMembers(observations, ScoreBearing);
    if |bearing| >= 2 {
      assert bearing[0] in bearing;
      if Unanimous(observations, s) {
        forall o | o in bearing ensures Reported(o) == Some(s) {
          var i :| 0 <= i < |observations| && observations[i] == o;
        }
      }
      if Consensus(observations) == Some(s) {
        forall i | 0 <= i < |observations| && ScoreBearing(observations[i])
          ensures Reported(observations[i]) == Some(s)
        {
          assert observations[i] in bearing;
        }
      }
    }
  }

  /** The order in which observations arrive never changes the score. */
  lemma ConsensusIgnoresOrder(a: seq<Observation>, b: seq<Observation>)
    requires multiset(a) == multiset(b)
    ensures Consensus(a) == Consensus(b)
  {
    FilterCount(a, ScoreBearing);
    FilterCount(b, ScoreBearing);
    assert multiset(Bearing(a)) == multiset(Bearing(b));
    assert |multiset(Bearing(a))| == |multiset(Bearing(b))|;
    forall s: Score ensures Unanimous(a, s) <==> Unanimous(b, s) {
      UnanimousByMembers(a, s);
      UnanimousByMembers(b, s);
      forall o ensures o in a <==> o in b {
        assert o in multiset(a) <==> o in multiset(b);
      }
    }
    if Consensus(a).Some? {
      ConsensusExact(a, Consensus(a).value);
      ConsensusExact(b, Consensus(a).value);
    } else if Consensus(b).Some? {
      ConsensusExact(b, Consensus(b).value);
      ConsensusExact(a, Consensus(b).value);
    }
  }

  lemma UnanimousByMembers(observations: seq<Observation>, s: Score)
    ensures Unanimous(observations, s)
            <==> forall o :: o in observations && ScoreBearing(o) ==> Reported(o) == Some(s)
  {
    if Unanimous(observations, s) {
      forall o | o in observations && ScoreBearing(o) ensures Reported(o) == Some(s) {
        var i :| 0 <= i < |observations| && observations[i] == o;
      }
    }
  }

  /** Another observation can withdraw a proved score but never replace it by a different one. */
  lemma ConsensusNeverOverturned(observations: seq<Observation>, more: seq<Observation>)
    requires Consensus(observations).Some?
    ensures Consensus(observations + more) in {Consensus(observations), None}
    ensures Consensus(observations + more) == Consensus(observations)
            <==> Unanimous(more, Consensus(observations).value)
  {
    var s := Consensus(observations).value;
    ConsensusExact(observations, s);
    FilterConcat(observations, more, ScoreBearing);
    ConsensusExact(observations + more, s);
    assert Unanimous(observations + more, s) <==> Unanimous(more, s) by {
      forall i | 0 <= i < |more| ensures (observations + more)[|observations| + i] == more[i] {}
    }
    if Consensus(observations + more).Some? {
      var t := Consensus(observations + more).value;
      ConsensusExact(observations + more, t);
      FilterMembers(observations, ScoreBearing);
      var o := Bearing(observations)[0];
      assert o in Bearing(observations);
      var i :| 0 <= i < |observations| && observations[i] == o;
      assert (observations + more)[i] == o;
    }
  }

  /** Surprise: a blank losing score is read as zero, so two rows with no loser score prove 4-0. */
  lemma BlankLoserScoreCountsAsZero()
    ensures var row := Observation(Numeric(4), Blank, Numeric(1));
            Consensus([row, row]) == Some(Score(4, 0, 1))
  {
    var row := Observation(Numeric(4), Blank, Numeric(1));
    var rows := [row, row];
    assert rows[..1] == [row];
    assert [row][..0] == [];
    assert Filter([row], ScoreBearing) == [row];
    assert Bearing(rows) == rows;
  }

  predicate AllNumeric(o: Observation) {
    o.team1.Numeric? && o.team2.Numeric? && o.winner.Numeric?
  }

  predicate BlankTeamScore(o: Observation) {
    o.team1.Blank? || o.team2.Blank?
  }

  /**
   * A proved score rests on numbers throughout exactly when no score-bearing row leaves a team's
   * score blank; if one does, the blank stands for the loser and the proved loser score is zero.
   */
  lemma BlankScoresExactly(observations: seq<Observation>)
    requires Consensus(observations).Some?
    ensures var bearing := Bearing(observations);
            var s := Consensus(observations).value;
            && ((forall o :: o in bearing ==> AllNumeric(o)) <==> forall o :: o in bearing ==> !BlankTeamScore(o))
            && ((exists o :: o in bearing && BlankTeamScore(o)) ==> (if s.winner == 1 then s.team2 else s.team1) == 0)
  {
    var bearing := Bearing(observations);
    var s := Consensus(observations).value;
    ConsensusExact(observations, s);
    FilterMembers(observations, ScoreBearing);
    forall o | o in bearing
      ensures Reported(o) == Some(s)
      ensures AllNumeric(o) <==> !BlankTeamScore(o)
    {
      assert Reported(o) == Reported(bearing[0]);
    }
  }
}
