/**
 * The moderation ledger: community votes and alt-account relations, and the counters and flags
 * on the players that are updated beside them.
 */
module Moderation {
  import opened Seqs

  datatype Kind = Suspicious | Weirdo | HallOfFame | Dropper | AfkWintrade | Cheater | AltAccount

  /** A row of `player_community_votes`, one per player, user and type. */
  datatype Vote = Vote(player: int, user: nat, kind: Kind)

  /** A row of `player_alt_account_votes`. */
  datatype Relation = Relation(user: nat, main: int, alt: int)

  datatype Tags = Tags(sus: nat, weirdo: nat, hallOfFame: nat, dropper: bool, afkWintrade: bool, cheater: bool,
        altAccount: bool)

  datatype Db = Db(players: map<int, Tags>, votes: set<Vote>, relations: set<Relation>)

  datatype Role = MainRole | AltRole | OtherText

  /** A request that carries a valid session; `approve` and `kind` are the report type. */
  datatype Action =
    | Report(player: int, user: nat, reviewer: bool, approve: bool, kind: Kind, hasReason: bool)
    | Relate(player: int, user: nat, other: int, otherRole: Role)
    | Unrelate(player: int, user: nat, other: int)
    | Clear(player: int, admin: bool, tag: Kind)

  // ------------------------------------------------------- the projection of the votes

  function VotesOf(votes: set<Vote>, player: int, kind: Kind): set<Vote> {
    set v | v in votes && v.player == player && v.kind == kind
  }

  function Count(votes: set<Vote>, player: int, kind: Kind): nat {
    |VotesOf(votes, player, kind)|
  }

  predicate IsAlt(relations: set<Relation>, player: int) {
    exists r :: r in relations && r.alt == player
  }

  /** Everything but `cheater` is recounted. */
  function Recounted(votes: set<Vote>, relations: set<Relation>, player: int, cheater: bool): Tags {
    Tags(Count(votes, player, Suspicious), Count(votes, player, Weirdo), Count(votes, player, HallOfFame),
         Count(votes, player, Dropper) > 0, Count(votes, player, AfkWintrade) > 0, cheater, IsAlt(relations, player))
  }

  function Project(players: map<int, Tags>, votes: set<Vote>, relations: set<Relation>): map<int, Tags> {
    map p | p in players :: Recounted(votes, relations, p, players[p].cheater)
  }

  /** The same two players, in whichever order. */
  predicate SamePair(r: Relation, a: int, b: int) {
    (r.main == a && r.alt == b) || (r.main == b && r.alt == a)
  }

  ghost predicate OneDirection(relations: set<Relation>) {
    forall r, q :: r in relations && q in relations && r.user == q.user && SamePair(r, q.main, q.alt) ==> r == q
  }

  ghost predicate WellFormed(db: Db) {
    && (forall v :: v in db.votes ==> v.player in db.players && v.kind != AltAccount)
    && (forall v :: v in db.votes && v.kind == Cheater && v.player in db.players ==> db.players[v.player].cheater)
    && (forall r :: r in db.relations ==> r.main in db.players && r.alt in db.players && r.main != r.alt)
    && OneDirection(db.relations)
  }

  /** Counters and flags say exactly what a recount would say. */
  ghost predicate Sound(db: Db) {
    WellFormed(db) && db.players == Project(db.players, db.votes, db.relations)
  }

  // ------------------------------------------------------------------- specification

  predicate NeedsReason(kind: Kind) {
    kind != Dropper && kind != AfkWintrade
  }

  predicate Accepts(db: Db, a: Action) {
    a.player > 0 &&
    match a
    case Report(player, _, reviewer, approve, kind, hasReason) =>
      && (approve || (kind != AltAccount && (NeedsReason(kind) ==> hasReason)))
      && (approve || kind == Cheater ==> reviewer)
      && player in db.players
    case Relate(player, _, other, otherRole) =>
      other > 0 && player != other && otherRole != OtherText && player in db.players && other in db.players
    case Unrelate(player, _, other) => other > 0 && player != other
    case Clear(player, admin, tag) => admin && tag != Weirdo && tag != HallOfFame && player in db.players
  }

  function RelationFor(a: Action): Relation
    requires a.Relate?
  {
    if a.otherRole == MainRole then Relation(a.user, a.other, a.player) else Relation(a.user, a.player, a.other)
  }

  function WithoutPair(relations: set<Relation>, user: nat, a: int, b: int): set<Relation> {
    set r | r in relations && !(r.user == user && SamePair(r, a, b))
  }

  function WithoutAlt(relations: set<Relation>, player: int): set<Relation> {
    set r | r in relations && r.alt != player
  }

  function VotesAfter(db: Db, a: Action): set<Vote> {
    match a
    case Report(player, user, _, approve, kind, _) =>
      if approve then db.votes else db.votes + {Vote(player, user, kind)}
    case Clear(player, _, tag) => db.votes - VotesOf(db.votes, player, tag)
    case _ => db.votes
  }

  function RelationsAfter(db: Db, a: Action): set<Relation> {
    match a
    case Relate(player, user, other, _) => WithoutPair(db.relations, user, player, other) + {RelationFor(a)}
    case Unrelate(player, user, other) => WithoutPair(db.relations, user, player, other)
    case Clear(player, _, tag) => if tag == AltAccount then WithoutAlt(db.relations, player) else db.relations
    case Report(_, _, _, _, _, _) => db.relations
  }

  /** `cheater` is a decision, not a count. */
  function CheaterAfter(a: Action, player: int, before: bool): bool {
    match a
    case Report(p, _, _, approve, kind, _) => before || (p == player && (approve || kind == Cheater))
    case Clear(p, _, tag) => before && !(p == player && tag == Cheater)
    case _ => before
  }

  /** The reference: an accepted action changes rows, and every player is recounted. */
  function Recounting(db: Db, a: Action): Db {
    if !Accepts(db, a) then db
    else
      var votes, relations := VotesAfter(db, a), RelationsAfter(db, a);
      Db(map p | p in db.players :: Recounted(votes, relations, p, CheaterAfter(a, p, db.players[p].cheater)),
         votes, relations)
  }

  function Bumped(t: Tags, kind: Kind): Tags {
    match kind
    case Suspicious => t.(sus := t.sus + 1)
    case Weirdo => t.(weirdo := t.weirdo + 1)
    case HallOfFame => t.(hallOfFame := t.hallOfFame + 1)
    case Dropper => t.(dropper := true)
    case AfkWintrade => t.(afkWintrade := true)
    case _ => t
  }

  function Cleared(t: Tags, tag: Kind): Tags {
    match tag
    case Suspicious => t.(sus := 0)
    case Dropper => t.(dropper := false)
    case AfkWintrade => t.(afkWintrade := false)
    case Cheater => t.(cheater := false)
    case AltAccount => t.(altAccount := false)
    case _ => t
  }

  /** `alt_account = EXISTS (...)` for the two players of a pair. */
  function AltRefreshed(players: map<int, Tags>, relations: set<Relation>, a: int, b: int): map<int, Tags> {
    map p | p in players :: if p == a || p == b then players[p].(altAccount := IsAlt(relations, p)) else players[p]
  }

  function Confirmed(players: map<int, Tags>, player: int): map<int, Tags>
    requires player in players
  {
    players[player := players[player].(cheater := true)]
  }

  /** Insert-or-ignore: a counter moves only with a new row, a flag is set either way. */
  function Voted(db: Db, v: Vote): map<int, Tags>
    requires v.player in db.players
  {
    if v.kind == Cheater then Confirmed(db.players, v.player)
    else if v !in db.votes || v.kind == Dropper || v.kind == AfkWintrade
    then db.players[v.player := Bumped(db.players[v.player], v.kind)] else db.players
  }

  /** What the handlers do: rows, and the one or two players they touch. */
  function Next(db: Db, a: Action): Db {
    if !Accepts(db, a) then db
    else
      var votes, relations := VotesAfter(db, a), RelationsAfter(db, a);
      match a
      case Report(player, user, _, approve, kind, _) =>
        Db(if approve then Confirmed(db.players, player) else Voted(db, Vote(player, user, kind)), votes, relations)
      case Clear(player, _, tag) => Db(db.players[player := Cleared(db.players[player], tag)], votes, relations)
      case Relate(player, _, other, _) => Db(AltRefreshed(db.players, relations, player, other), votes, relations)
      case Unrelate(player, _, other) => Db(AltRefreshed(db.players, relations, player, other), votes, relations)
  }

  function Run(db: Db, actions: seq<Action>): Db {
    if actions == [] then db else Next(Run(db, actions[..|actions| - 1]), actions[|actions| - 1])
  }

  lemma RunSnoc(db: Db, actions: seq<Action>, a: Action)
    ensures Run(db, actions + [a]) == Next(Run(db, actions), a)
  {
    assert (actions + [a])[..|actions|] == actions;
  }

  // ------------------------------------------------------------------------ counting

  lemma CountInsert(votes: set<Vote>, v: Vote, player: int, kind: Kind)
    ensures Count(votes + {v}, player, kind)
            == Count(votes, player, kind) + if v !in votes && v.player == player && v.kind == kind then 1 else 0
  {
    VotesOfInsert(votes, v, player, kind);
    hide VotesOf;
    var before := VotesOf(votes, player, kind);
    if v.player == player && v.kind == kind && v in votes {
      assert before + {v} == before;
    } else if v.player != player || v.kind != kind {
      assert before + {} == before;
    }
  }

  lemma VotesOfInsert(votes: set<Vote>, v: Vote, player: int, kind: Kind)
    ensures VotesOf(votes + {v}, player, kind)
            == VotesOf(votes, player, kind) + if v.player == player && v.kind == kind then {v} else {}
    ensures v.player == player && v.kind == kind ==> (v in VotesOf(votes, player, kind) <==> v in votes)
  {
  }

  lemma CountDelete(votes: set<Vote>, cleared: int, tag: Kind, player: int, kind: Kind)
    ensures Count(votes - VotesOf(votes, cleared, tag), player, kind)
            == if cleared == player && tag == kind then 0 else Count(votes, player, kind)
  {
    var after := VotesOf(votes - VotesOf(votes, cleared, tag), player, kind);
    if cleared == player && tag == kind {
      assert after == {};
    } else {
      assert after == VotesOf(votes, player, kind);
    }
  }

  lemma CountPositive(votes: set<Vote>, player: int, kind: Kind)
    ensures Count(votes, player, kind) > 0 <==> exists user :: Vote(player, user, kind) in votes
  {
    var counted := VotesOf(votes, player, kind);
    if Count(votes, player, kind) > 0 {
      var v :| v in counted;
      assert Vote(player, v.user, kind) in votes;
    }
    forall user | Vote(player, user, kind) in votes
      ensures Count(votes, player, kind) > 0
    {
      assert Vote(player, user, kind) in counted;
    }
  }

  /** Bumping one counter of one player is a recount after inserting a new vote. */
  lemma BumpIsRecount(votes: set<Vote>, relations: set<Relation>, v: Vote, player: int, cheater: bool)
    requires v !in votes
    ensures Recounted(votes + {v}, relations, player, cheater)
            == if v.player == player then Bumped(Recounted(votes, relations, player, cheater), v.kind)
               else Recounted(votes, relations, player, cheater)
  {
    hide Count;
    CountInsert(votes, v, player, Suspicious);
    CountInsert(votes, v, player, Weirdo);
    CountInsert(votes, v, player, HallOfFame);
    CountInsert(votes, v, player, Dropper);
    CountInsert(votes, v, player, AfkWintrade);
  }

  /** Zeroing one tag of one player is a recount after deleting that player's votes for it. */
  lemma ClearIsRecount(votes: set<Vote>, relations: set<Relation>, cleared: int, tag: Kind, player: int, cheater: bool)
    requires tag != Weirdo && tag != HallOfFame && tag != AltAccount
    ensures Recounted(votes - VotesOf(votes, cleared, tag), relations, player,
                      cheater && !(cleared == player && tag == Cheater))
            == if cleared == player then Cleared(Recounted(votes, relations, player, cheater), tag)
               else Recounted(votes, relations, player, cheater)
  {
    hide Count, VotesOf;
    CountDelete(votes, cleared, tag, player, Suspicious);
    CountDelete(votes, cleared, tag, player, Weirdo);
    CountDelete(votes, cleared, tag, player, HallOfFame);
    CountDelete(votes, cleared, tag, player, Dropper);
    CountDelete(votes, cleared, tag, player, AfkWintrade);
  }

  /** Only `altAccount` depends on the relations. */
  lemma AltRecount(votes: set<Vote>, before: set<Relation>, after: set<Relation>, player: int, cheater: bool)
    ensures Recounted(votes, after, player, cheater)
            == Recounted(votes, before, player, cheater).(altAccount := IsAlt(after, player))
    ensures Recounted(votes, before, player, cheater).altAccount == IsAlt(before, player)
  {
  }

  /** Relations of other pairs decide the flags of other players. */
  lemma AltElsewhere(before: set<Relation>, after: set<Relation>, a: int, b: int, player: int)
    requires player != a && player != b
    requires forall r :: !SamePair(r, a, b) ==> (r in before <==> r in after)
    ensures IsAlt(before, player) == IsAlt(after, player)
  {
    if IsAlt(before, player) {
      var r :| r in before && r.alt == player;
      assert r in after;
    }
    if IsAlt(after, player) {
      var r :| r in after && r.alt == player;
      assert r in before;
    }
  }

  // ------------------------------------------------------------------------ handlers

  /** The handlers, statement by statement, on the three tables. */
  class Ledger {
    var players: map<int, Tags>
    var votes: set<Vote>
    var relations: set<Relation>

    function Contents(): Db
      reads this
    {
      Db(players, votes, relations)
    }

    /** Players nobody has voted on. */
    constructor (ids: set<int>)
      ensures players.Keys == ids && votes == {} && relations == {} && Sound(Contents())
    {
      players := map p | p in ids :: Tags(0, 0, 0, false, false, false, false);
      votes := {};
      relations := {};
      new;
      forall p
        ensures Recounted({}, {}, p, false) == Tags(0, 0, 0, false, false, false, false)
      {
        NoVotes(p);
      }
    }

    /** `INSERT ... ON CONFLICT DO NOTHING`, then the counter or flag of the one player. */
    method InsertVote(v: Vote) returns (created: bool)
      requires v.player in players
      modifies this
      ensures created <==> v !in old(votes)
      ensures votes == old(votes) + {v} && relations == old(relations)
      ensures players == Voted(old(Contents()), v)
    {
      created := v !in votes;
      votes := votes + {v};
      match v.kind {
        case Suspicious | Weirdo | HallOfFame =>
          if created {
            players := players[v.player := Bumped(players[v.player], v.kind)];
          }
        case Dropper =>
          players := players[v.player := players[v.player].(dropper := true)];
        case AfkWintrade =>
          players := players[v.player := players[v.player].(afkWintrade := true)];
        case Cheater =>
          players := players[v.player := players[v.player].(cheater := true)];
        case AltAccount =>
      }
    }

    method ReportPlayer(player: int, user: nat, reviewer: bool, approve: bool, kind: Kind, hasReason: bool)
      returns (created: bool)
      modifies this
      ensures Contents() == Next(old(Contents()), Report(player, user, reviewer, approve, kind, hasReason))
      ensures created <==> Accepts(old(Contents()), Report(player, user, reviewer, approve, kind, hasReason))
                           && !approve && Vote(player, user, kind) !in old(votes)
    {
      hide Voted;
      if player <= 0 || (!approve && kind == AltAccount) {
        return false;
      }
      if !approve && NeedsReason(kind) && !hasReason {
        return false;
      }
      if (approve || kind == Cheater) && !reviewer {
        return false;
      }
      if player !in players {
        return false;
      }
      if approve {
        players := players[player := players[player].(cheater := true)];
        return false;
      }
      created := InsertVote(Vote(player, user, kind));
    }

    /** `UPDATE players SET alt_account = EXISTS (...)` for the two players of a pair. */
    method RefreshAltFlags(a: int, b: int)
      modifies this`players
      ensures players == AltRefreshed(old(players), relations, a, b)
    {
      hide IsAlt;
      if a in players {
        players := players[a := players[a].(altAccount := IsAlt(relations, a))];
      }
      if b in players {
        players := players[b := players[b].(altAccount := IsAlt(relations, b))];
      }
    }

    method RelatePlayers(player: int, user: nat, other: int, otherRole: Role) returns (replaced: bool)
      modifies this
      ensures Contents() == Next(old(Contents()), Relate(player, user, other, otherRole))
      ensures replaced <==> Accepts(old(Contents()), Relate(player, user, other, otherRole))
                            && exists r :: r in old(relations) && r.user == user && SamePair(r, player, other)
    {
      hide AltRefreshed;
      if player <= 0 || other <= 0 || player == other || otherRole == OtherText {
        return false;
      }
      if player !in players || other !in players {
        return false;
      }
      replaced := exists r :: r in relations && r.user == user && SamePair(r, player, other);
      relations := set r | r in relations && !(r.user == user && SamePair(r, player, other));
      var main := if otherRole == MainRole then other else player;
      var alt := if otherRole == AltRole then other else player;
      relations := relations + {Relation(user, main, alt)};
      RefreshAltFlags(player, other);
    }

    method UnrelatePlayers(player: int, user: nat, other: int) returns (removed: bool)
      modifies this
      ensures Contents() == Next(old(Contents()), Unrelate(player, user, other))
      ensures removed <==> Accepts(old(Contents()), Unrelate(player, user, other))
                           && exists r :: r in old(relations) && r.user == user && SamePair(r, player, other)
    {
      hide AltRefreshed;
      if player <= 0 || other <= 0 || player == other {
        return false;
      }
      removed := exists r :: r in relations && r.user == user && SamePair(r, player, other);
      relations := set r | r in relations && !(r.user == user && SamePair(r, player, other));
      RefreshAltFlags(player, other);
    }

    method ClearTag(player: int, admin: bool, tag: Kind) returns (removed: nat)
      modifies this
      ensures Contents() == Next(old(Contents()), Clear(player, admin, tag))
      ensures removed == (|old(votes)| - |votes|) + (|old(relations)| - |relations|)
    {
      hide VotesOf;
      if !admin || player <= 0 || tag == Weirdo || tag == HallOfFame || player !in players {
        return 0;
      }
      players := players[player := Cleared(players[player], tag)];
      var deleted := VotesOf(votes, player, tag);
      DeletedSize(votes, player, tag);
      removed := |deleted|;
      votes := votes - deleted;
      if tag == AltAccount {
        var gone := set r | r in relations && r.alt == player;
        assert relations == (relations - gone) + gone;
        removed := removed + |gone|;
        relations := relations - gone;
        assert relations == RelationsAfter(old(Contents()), Clear(player, admin, tag));
      }
    }
  }

  lemma NoVotes(player: int)
    ensures Recounted({}, {}, player, false) == Tags(0, 0, 0, false, false, false, false)
  {
    assert forall kind :: VotesOf({}, player, kind) == {};
  }

  lemma DeletedSize(votes: set<Vote>, player: int, tag: Kind)
    ensures VotesOf(votes, player, tag) <= votes
    ensures |votes - VotesOf(votes, player, tag)| == |votes| - |VotesOf(votes, player, tag)|
  {
    assert votes == (votes - VotesOf(votes, player, tag)) + VotesOf(votes, player, tag);
  }

  lemma AlreadyFlagged(db: Db, v: Vote)
    requires Sound(db) && v in db.votes && (v.kind == Dropper || v.kind == AfkWintrade)
    ensures v.player in db.players && Bumped(db.players[v.player], v.kind) == db.players[v.player]
  {
    assert v == Vote(v.player, v.user, v.kind);
    CountPositive(db.votes, v.player, v.kind);
  }

  // ------------------------------------------------------- increments are recounts

  /** A step is a recount when each player it leaves is what a recount of the new rows gives. */
  lemma StepByPlayer(db: Db, a: Action)
    requires Accepts(db, a) && Next(db, a).players.Keys == db.players.Keys
    requires forall p :: p in db.players ==>
               Next(db, a).players[p]
               == Recounted(VotesAfter(db, a), RelationsAfter(db, a), p, CheaterAfter(a, p, db.players[p].cheater))
    ensures Next(db, a) == Recounting(db, a)
  {
    assert Next(db, a).votes == VotesAfter(db, a) && Next(db, a).relations == RelationsAfter(db, a);
    hide Recounted, VotesAfter, RelationsAfter, CheaterAfter, Accepts, Next;
    assert Next(db, a).players == Recounting(db, a).players;
  }

  lemma SoundPlayer(db: Db, player: int)
    requires Sound(db) && player in db.players
    ensures db.players[player] == Recounted(db.votes, db.relations, player, db.players[player].cheater)
  {
  }

  lemma CheaterIsKept(votes: set<Vote>, relations: set<Relation>, player: int, cheater: bool)
    ensures Recounted(votes, relations, player, cheater).(cheater := true) == Recounted(votes, relations, player, true)
  {
  }

  /** Votes for cheating are not counted. */
  lemma CheaterVotesDoNotCount(votes: set<Vote>, relations: set<Relation>, v: Vote, player: int, cheater: bool)
    requires v.kind == Cheater
    ensures Recounted(votes + {v}, relations, player, cheater) == Recounted(votes, relations, player, cheater)
  {
    hide Recounted;
    if v in votes {
      assert votes + {v} == votes;
    } else {
      BumpIsRecount(votes, relations, v, player, cheater);
    }
  }

  lemma VoteIsRecount(db: Db, v: Vote, player: int)
    requires Sound(db) && v.player in db.players && player in db.players
    ensures Voted(db, v)[player]
            == Recounted(db.votes + {v}, db.relations, player,
                         db.players[player].cheater || (player == v.player && v.kind == Cheater))
  {
    hide Recounted, WellFormed, Sound, Bumped;
    SoundPlayer(db, player);
    if v.kind == Cheater {
      CheaterVotesDoNotCount(db.votes, db.relations, v, player, db.players[player].cheater || player == v.player);
      CheaterIsKept(db.votes, db.relations, player, db.players[player].cheater);
    } else if v !in db.votes {
      BumpIsRecount(db.votes, db.relations, v, player, db.players[player].cheater);
    } else {
      assert db.votes + {v} == db.votes;
      if v.kind == Dropper || v.kind == AfkWintrade {
        AlreadyFlagged(db, v);
      }
    }
  }

  lemma ReportIsRecount(db: Db, a: Action)
    requires Sound(db) && a.Report? && Accepts(db, a)
    ensures Next(db, a) == Recounting(db, a)
  {
    hide Recounted, WellFormed, Sound, Voted;
    var v := Vote(a.player, a.user, a.kind);
    VotedKeys(db, v);
    forall p | p in db.players
      ensures Next(db, a).players[p]
              == Recounted(VotesAfter(db, a), RelationsAfter(db, a), p, CheaterAfter(a, p, db.players[p].cheater))
    {
      if a.approve {
        SoundPlayer(db, p);
        CheaterIsKept(db.votes, db.relations, p, db.players[p].cheater);
      } else {
        VoteIsRecount(db, v, p);
      }
    }
    StepByPlayer(db, a);
  }

  lemma VotedKeys(db: Db, v: Vote)
    requires v.player in db.players
    ensures Voted(db, v).Keys == db.players.Keys
  {
    hide Bumped;
  }

  lemma ClearStepIsRecount(db: Db, a: Action)
    requires Sound(db) && a.Clear? && Accepts(db, a)
    ensures Next(db, a) == Recounting(db, a)
  {
    hide Recounted, WellFormed, Sound, Cleared;
    forall p | p in db.players
      ensures Next(db, a).players[p]
              == Recounted(VotesAfter(db, a), RelationsAfter(db, a), p, CheaterAfter(a, p, db.players[p].cheater))
    {
      SoundPlayer(db, p);
      if a.tag == AltAccount {
        NoAltVotes(db, a.player);
        AltClearedTags(db, a.player, p);
      } else {
        ClearIsRecount(db.votes, db.relations, a.player, a.tag, p, db.players[p].cheater);
      }
    }
    StepByPlayer(db, a);
  }

  lemma NoAltVotes(db: Db, player: int)
    requires Sound(db)
    ensures db.votes - VotesOf(db.votes, player, AltAccount) == db.votes
  {
  }

  lemma AltCleared(relations: set<Relation>, cleared: int, player: int)
    ensures IsAlt(WithoutAlt(relations, cleared), player) == (player != cleared && IsAlt(relations, player))
  {
    if player != cleared && IsAlt(relations, player) {
      var r :| r in relations && r.alt == player;
      assert r in WithoutAlt(relations, cleared);
    }
  }

  lemma AltClearedTags(db: Db, cleared: int, player: int)
    requires Sound(db) && player in db.players
    ensures Recounted(db.votes, WithoutAlt(db.relations, cleared), player, db.players[player].cheater)
            == if player == cleared then Cleared(db.players[player], AltAccount) else db.players[player]
  {
    hide Recounted, WellFormed, IsAlt, WithoutAlt;
    var after := WithoutAlt(db.relations, cleared);
    AltRecount(db.votes, db.relations, after, player, db.players[player].cheater);
    AltCleared(db.relations, cleared, player);
  }

  lemma PairIsRecount(db: Db, a: Action)
    requires Sound(db) && (a.Relate? || a.Unrelate?) && Accepts(db, a)
    ensures Next(db, a) == Recounting(db, a)
  {
    var after := RelationsAfter(db, a);
    assert forall r :: !SamePair(r, a.player, a.other) ==> (r in db.relations <==> r in after);
    hide Recounted, WellFormed, Sound, IsAlt, RelationsAfter, SamePair;
    forall p | p in db.players
      ensures Next(db, a).players[p]
              == Recounted(VotesAfter(db, a), after, p, CheaterAfter(a, p, db.players[p].cheater))
    {
      SoundPlayer(db, p);
      AltRecount(db.votes, db.relations, after, p, db.players[p].cheater);
      if p != a.player && p != a.other {
        AltElsewhere(db.relations, after, a.player, a.other, p);
      }
    }
    StepByPlayer(db, a);
  }

  /**
   * On tables that agree, what the handlers do to one or two players is what recounting every
   * player would do.
   */
  lemma StepIsRecount(db: Db, a: Action)
    requires Sound(db)
    ensures Next(db, a) == Recounting(db, a)
  {
    hide Next, Recounting, Sound;
    if !Accepts(db, a) {
      NothingHappens(db, a);
    } else if a.Report? {
      ReportIsRecount(db, a);
    } else if a.Clear? {
      ClearStepIsRecount(db, a);
    } else {
      PairIsRecount(db, a);
    }
  }

  lemma NothingHappens(db: Db, a: Action)
    requires !Accepts(db, a)
    ensures Next(db, a) == db == Recounting(db, a)
  {
  }

  // -------------------------------------------------------------------------- results

  lemma RelationsStayWellFormed(db: Db, a: Action)
    requires WellFormed(db) && Accepts(db, a)
    ensures OneDirection(RelationsAfter(db, a))
    ensures forall r :: r in RelationsAfter(db, a) ==> r.main in db.players && r.alt in db.players && r.main != r.alt
  {
  }

  lemma VotesStayWellFormed(db: Db, a: Action)
    requires WellFormed(db) && Accepts(db, a)
    ensures forall v :: v in VotesAfter(db, a) ==> v.player in db.players && v.kind != AltAccount
    ensures forall v :: v in VotesAfter(db, a) && v.kind == Cheater && v.player in db.players
                        ==> CheaterAfter(a, v.player, db.players[v.player].cheater)
  {
  }

  lemma SoundStep(db: Db, a: Action)
    requires Sound(db)
    ensures Sound(Next(db, a))
  {
    StepIsRecount(db, a);
    RecountingIsSound(db, a);
  }

  lemma RecountingIsSound(db: Db, a: Action)
    requires Sound(db)
    ensures Sound(Recounting(db, a))
  {
    hide Count, IsAlt, VotesAfter, RelationsAfter, OneDirection, CheaterAfter;
    if Accepts(db, a) {
      RelationsStayWellFormed(db, a);
      VotesStayWellFormed(db, a);
    }
  }

  lemma {:induction false} SoundRun(db: Db, actions: seq<Action>)
    requires Sound(db)
    ensures Sound(Run(db, actions))
  {
    hide Sound, Next;
    if actions == [] {
    } else {
      SoundRun(db, actions[..|actions| - 1]);
      SoundStep(Run(db, actions[..|actions| - 1]), actions[|actions| - 1]);
    }
  }

  /** After any run of requests the players say what the rows say. */
  lemma LedgerAlwaysAgrees(db: Db, actions: seq<Action>, player: int)
    requires Sound(db) && player in Run(db, actions).players
    ensures var now := Run(db, actions);
            var t := now.players[player];
            && t.sus == Count(now.votes, player, Suspicious)
            && t.weirdo == Count(now.votes, player, Weirdo)
            && t.hallOfFame == Count(now.votes, player, HallOfFame)
            && (t.dropper <==> exists user :: Vote(player, user, Dropper) in now.votes)
            && (t.afkWintrade <==> exists user :: Vote(player, user, AfkWintrade) in now.votes)
            && (t.altAccount <==> exists r :: r in now.relations && r.alt == player)
            && ((exists user :: Vote(player, user, Cheater) in now.votes) ==> t.cheater)
  {
    hide Run, Count;
    SoundRun(db, actions);
    var now := Run(db, actions);
    assert now.players[player] == Recounted(now.votes, now.relations, player, now.players[player].cheater);
    CountPositive(now.votes, player, Dropper);
    CountPositive(now.votes, player, AfkWintrade);
  }

  /** After any run a user holds at most one direction of a pair, and no player is their own alt. */
  lemma OneDirectionPerUserAndPair(db: Db, actions: seq<Action>, r: Relation, q: Relation)
    requires Sound(db) && r in Run(db, actions).relations && q in Run(db, actions).relations
    ensures r.user == q.user && SamePair(r, q.main, q.alt) ==> r == q
    ensures r.main != r.alt
  {
    hide Run, Project;
    SoundRun(db, actions);
  }

  // --------------------------------------------------------- what stands after a run

  /** Something the tables can say: a vote, a relation, or that a player is a confirmed cheater. */
  datatype Fact = Voting(vote: Vote) | Relating(relation: Relation) | Cheating(player: int)

  predicate Holds(db: Db, f: Fact) {
    match f
    case Voting(v) => v in db.votes
    case Relating(r) => r in db.relations
    case Cheating(p) => p in db.players && db.players[p].cheater
  }

  /**
   * Who may do what: reports need a known player and, unless the type explains itself, a reason; only
   * reviewers confirm cheaters; relations need two different known players and a role; only
   * administrators clear, and not every tag.
   */
  predicate Entitled(known: set<int>, a: Action) {
    match a
    case Report(player, _, reviewer, approve, kind, hasReason) =>
      && player in known && player > 0
      && (if approve then reviewer
          else if kind == Cheater then reviewer && hasReason
          else if kind == Dropper || kind == AfkWintrade then true
          else kind != AltAccount && hasReason)
    case Relate(player, _, other, role) =>
      player in known && other in known && player > 0 && other > 0 && player != other && role in {MainRole, AltRole}
    case Unrelate(player, _, other) => player > 0 && other > 0 && player != other
    case Clear(player, admin, tag) =>
      player in known && player > 0 && admin && tag in {Suspicious, Dropper, AfkWintrade, Cheater, AltAccount}
  }

  lemma AcceptsExactly(db: Db, a: Action)
    ensures Accepts(db, a) <==> Entitled(db.players.Keys, a)
  {
  }

  /** The action brings the fact about. */
  predicate Casts(a: Action, f: Fact) {
    match f
    case Voting(v) => a.Report? && !a.approve && a.player == v.player && a.user == v.user && a.kind == v.kind
    case Relating(r) =>
      && a.Relate? && a.user == r.user
      && ((a.otherRole == MainRole && a.other == r.main && a.player == r.alt)
          || (a.otherRole == AltRole && a.player == r.main && a.other == r.alt))
    case Cheating(p) => a.Report? && a.player == p && (a.approve || a.kind == Cheater)
  }

  /** The action takes the fact away. */
  predicate Removes(a: Action, f: Fact) {
    match f
    case Voting(v) => a.Clear? && a.player == v.player && a.tag == v.kind
    case Relating(r) =>
      || ((a.Relate? || a.Unrelate?) && a.user == r.user && {a.player, a.other} == {r.main, r.alt} && !Casts(a, f))
      || (a.Clear? && a.player == r.alt && a.tag == AltAccount)
    case Cheating(p) => a.Clear? && a.player == p && a.tag == Cheater
  }

  /** No rightful action from position `i` on took the fact away. */
  ghost predicate KeptSince(known: set<int>, actions: seq<Action>, i: nat, f: Fact) {
    forall j :: i <= j < |actions| && Entitled(known, actions[j]) ==> !Removes(actions[j], f)
  }

  ghost predicate CastAndKept(known: set<int>, actions: seq<Action>, f: Fact) {
    exists i :: 0 <= i < |actions| && Entitled(known, actions[i]) && Casts(actions[i], f)
                && KeptSince(known, actions, i, f)
  }

  lemma KeptSinceSnoc(known: set<int>, actions: seq<Action>, a: Action, i: nat, f: Fact)
    requires i <= |actions|
    ensures KeptSince(known, actions + [a], i, f)
            <==> KeptSince(known, actions, i, f) && !(Entitled(known, a) && Removes(a, f))
  {
    hide Removes, Entitled;
    var more := actions + [a];
    assert more[|actions|] == a;
    forall j | 0 <= j < |actions|
      ensures more[j] == actions[j]
    {
    }
    if KeptSince(known, more, i, f) {
      forall j | i <= j < |actions| && Entitled(known, actions[j])
        ensures !Removes(actions[j], f)
      {
        assert more[j] == actions[j];
      }
    }
  }

  lemma CastAndKeptSnoc(known: set<int>, actions: seq<Action>, a: Action, f: Fact)
    ensures CastAndKept(known, actions + [a], f)
            <==> if Entitled(known, a) && Removes(a, f) then false
                 else CastAndKept(known, actions, f) || (Entitled(known, a) && Casts(a, f))
  {
    hide Removes, Entitled, KeptSince, Casts;
    var more := actions + [a];
    if CastAndKept(known, more, f) {
      var i :| 0 <= i < |more| && Entitled(known, more[i]) && Casts(more[i], f) && KeptSince(known, more, i, f);
      KeptSinceSnoc(known, actions, a, i, f);
      assert i < |actions| ==> more[i] == actions[i];
    }
    if CastAndKept(known, actions, f) {
      var i :| 0 <= i < |actions| && Entitled(known, actions[i]) && Casts(actions[i], f)
               && KeptSince(known, actions, i, f);
      KeptSinceSnoc(known, actions, a, i, f);
      assert more[i] == actions[i];
    }
    if Entitled(known, a) && Casts(a, f) {
      KeptSinceSnoc(known, actions, a, |actions|, f);
      NothingLater(known, actions, f);
      assert more[|actions|] == a;
      NotBoth(a, f);
    }
  }

  lemma NothingLater(known: set<int>, actions: seq<Action>, f: Fact)
    ensures KeptSince(known, actions, |actions|, f)
  {
  }

  lemma NotBoth(a: Action, f: Fact)
    ensures !(Casts(a, f) && Removes(a, f))
  {
  }

  /** What a handler step does to one fact. */
  lemma FactStep(db: Db, a: Action, f: Fact)
    requires f.Cheating? ==> f.player in db.players
    requires f.Relating? ==> f.relation.main != f.relation.alt
    ensures Holds(Next(db, a), f)
            <==> if Accepts(db, a) && Removes(a, f) then false else Holds(db, f) || (Accepts(db, a) && Casts(a, f))
    ensures Next(db, a).players.Keys == db.players.Keys
  {
    hide Recounted, IsAlt;
    match f
    case Voting(_) =>
    case Cheating(_) =>
    case Relating(r) =>
      if Accepts(db, a) && (a.Relate? || a.Unrelate?) {
        SamePairExactly(r, a.player, a.other);
      }
  }

  lemma SamePairExactly(r: Relation, a: int, b: int)
    requires a != b
    ensures SamePair(r, a, b) <==> {a, b} == {r.main, r.alt}
  {
    assert {a, b} == {r.main, r.alt} ==> a in {r.main, r.alt} && b in {r.main, r.alt} && r.main in {a, b};
  }

  /**
   * A vote, a relation or a confirmation stands after a run exactly when some rightful action brought it
   * about and none took it away since: repeated reports count once, a relation gives way to its reverse
   * of the same user, and only a clear of that player and tag removes the rest.
   */
  lemma {:induction false} StandsExactly(db: Db, actions: seq<Action>, f: Fact)
    requires f.Cheating? ==> f.player in db.players
    requires f.Relating? ==> f.relation.main != f.relation.alt
    ensures Holds(Run(db, actions), f)
            <==> || CastAndKept(db.players.Keys, actions, f)
                 || (Holds(db, f) && KeptSince(db.players.Keys, actions, 0, f))
    ensures Run(db, actions).players.Keys == db.players.Keys
  {
    hide Run, Next, Accepts, Entitled, Casts, Removes, CastAndKept, KeptSince, Holds;
    var known := db.players.Keys;
    if actions == [] {
      NoActions(db, f);
    } else {
      var init, a := actions[..|actions| - 1], actions[|actions| - 1];
      Snoc(actions);
      StandsExactly(db, init, f);
      RunSnoc(db, init, a);
      AcceptsExactly(Run(db, init), a);
      FactStep(Run(db, init), a, f);
      CastAndKeptSnoc(known, init, a, f);
      KeptSinceSnoc(known, init, a, 0, f);
    }
  }

  lemma NoActions(db: Db, f: Fact)
    ensures Run(db, []) == db && !CastAndKept(db.players.Keys, [], f) && KeptSince(db.players.Keys, [], 0, f)
  {
  }

  // --------------------------------------------------- the database's own recount

  /** The two trigger functions, for one player. */
  function Synced(db: Db, player: int): Db {
    if player in db.players
    then db.(players := db.players[player := Recounted(db.votes, db.relations, player, db.players[player].cheater)])
    else db
  }

  /** The triggers never find anything to repair after a handler. */
  lemma TriggersRepairNothing(db: Db, actions: seq<Action>, player: int)
    requires Sound(db)
    ensures Synced(Run(db, actions), player) == Run(db, actions)
  {
    hide Run, Recounted, WellFormed;
    SoundRun(db, actions);
  }

  /** On any tables at all, syncing every player leaves counters and flags that agree. */
  lemma {:induction false} SyncRepairs(db: Db, ids: seq<int>, player: int)
    requires player in ids && player in db.players
    ensures player in SyncedAll(db, ids).players
    ensures SyncedAll(db, ids).players[player] == Recounted(db.votes, db.relations, player, db.players[player].cheater)
  {
    hide Recounted;
    var init, last := ids[..|ids| - 1], ids[|ids| - 1];
    Snoc(ids);
    SyncKeepsRows(db, init);
    if player in init {
      SyncRepairs(db, init, player);
    }
  }

  function SyncedAll(db: Db, ids: seq<int>): Db {
    if ids == [] then db else Synced(SyncedAll(db, ids[..|ids| - 1]), ids[|ids| - 1])
  }

  lemma {:induction false} SyncKeepsRows(db: Db, ids: seq<int>)
    ensures var s := SyncedAll(db, ids);
            && s.votes == db.votes && s.relations == db.relations && s.players.Keys == db.players.Keys
            && forall p :: p in db.players ==> s.players[p].cheater == db.players[p].cheater
  {
    hide Count, IsAlt;
    if ids == [] {
    } else {
      SyncKeepsRows(db, ids[..|ids| - 1]);
    }
  }
}
