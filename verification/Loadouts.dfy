/**
 * A player's saved decks: freshness arithmetic and one `refreshPlayerLoadouts` call. Stored times
 * are in microseconds, as the database keeps them; the program reads them in whole milliseconds.
 */
module Loadouts {
  import opened Seqs

  const TTL_MS := 24 * 60 * 60 * 1000
  const COOLDOWN_MS := 10 * 60 * 1000

  /** A row of `player_loadout_fetches`. */
  datatype Fetch = Fetch(fetchedAt: nat, lastManual: Option<nat>)

  datatype Freshness = Freshness(
    expiresAt: Option<nat>,
    remainingSeconds: nat,
    expired: bool,
    availableAt: Option<nat>,
    manualRemainingSeconds: nat)

  datatype Deck = Deck(championId: nat, deckId: nat, key: string, name: string, cards: seq<(nat, nat)>)

  /** A row of `player_loadouts`. */
  datatype Stored = Stored(deck: Deck, talent: Option<nat>, fetchedAt: nat)

  /** A vendor row: whether `ret_msg` is non-blank, and what the normaliser makes of the row. */
  datatype Raw = Raw(refused: bool, deck: Option<Deck>)

  datatype Reply = Unavailable | NotAnArray | Rows(rows: seq<Raw>)

  datatype Outcome =
    | Refreshed(after: Freshness)
    | StillFresh(freshness: Freshness)
    | CoolingDown(freshness: Freshness)
    | Failed

  function Ms(microseconds: nat): nat {
    microseconds / 1000
  }

  function CeilSeconds(ms: nat): nat {
    (ms + 999) / 1000
  }

  function GetFreshness(fetch: Option<Fetch>, nowMs: nat): Freshness {
    var expiresAt := if fetch.Some? then Some(Ms(fetch.value.fetchedAt) + TTL_MS) else None;
    var availableAt := if fetch.Some? && fetch.value.lastManual.Some?
                       then Some(Ms(fetch.value.lastManual.value) + COOLDOWN_MS) else None;
    var remaining := if expiresAt.Some? then Max(0, expiresAt.value - nowMs) else 0;
    var manualRemaining := if availableAt.Some? then Max(0, availableAt.value - nowMs) else 0;
    Freshness(expiresAt, CeilSeconds(remaining), expiresAt.None? || remaining <= 0,
              availableAt, CeilSeconds(manualRemaining))
  }

  /** A refresh is blocked exactly until the full time has passed; rounding up never ends it early. */
  lemma FreshnessExactly(fetch: Option<Fetch>, nowMs: nat)
    ensures var f := GetFreshness(fetch, nowMs);
            && (f.expired <==> fetch.None? || nowMs >= Ms(fetch.value.fetchedAt) + TTL_MS)
            && (f.expired <==> f.remainingSeconds == 0)
            && (f.manualRemainingSeconds > 0
                <==> && fetch.Some?
                     && fetch.value.lastManual.Some?
                     && nowMs < Ms(fetch.value.lastManual.value) + COOLDOWN_MS)
            && (f.availableAt.Some? && f.manualRemainingSeconds > 0
                ==> && nowMs + 1000 * (f.manualRemainingSeconds - 1) < f.availableAt.value
                    && f.availableAt.value <= nowMs + 1000 * f.manualRemainingSeconds)
  {
    var f := GetFreshness(fetch, nowMs);
    if f.availableAt.Some? && f.manualRemainingSeconds > 0 {
      CeilExactly(f.availableAt.value - nowMs);
    }
  }

  lemma CeilExactly(ms: nat)
    ensures 1000 * (CeilSeconds(ms) - 1) < ms <= 1000 * CeilSeconds(ms)
  {
  }

  /** Whether a caller goes on to the vendor. */
  predicate Admitted(fetch: Option<Fetch>, manual: bool, nowMs: nat) {
    var f := GetFreshness(fetch, nowMs);
    (manual || f.expired) && f.manualRemainingSeconds == 0
  }

  /** On the stored times: an automatic caller waits for the day to end, and everybody for the cooldown. */
  lemma AdmittedExactly(fetch: Option<Fetch>, manual: bool, nowMs: nat)
    ensures Admitted(fetch, manual, nowMs)
            <==> && (fetch.Some? && fetch.value.lastManual.Some? ==>
                       Ms(fetch.value.lastManual.value) + COOLDOWN_MS <= nowMs)
                 && (!manual && fetch.Some? ==> Ms(fetch.value.fetchedAt) + TTL_MS <= nowMs)
  {
    hide GetFreshness;
    FreshnessExactly(fetch, nowMs);
  }

  function Refusal(manual: bool, freshness: Freshness): Outcome {
    if manual then CoolingDown(freshness) else StillFresh(freshness)
  }

  // -------------------------------------------------------------------- vendor reply

  predicate Rejected(reply: Reply) {
    !reply.Rows? || (reply.rows != [] && forall i :: 0 <= i < |reply.rows| ==> reply.rows[i].refused)
  }

  /** An array that is empty or in which some row carries no `ret_msg`. */
  ghost predicate HasNews(reply: Reply) {
    reply.Rows? && (reply.rows == [] || exists i :: 0 <= i < |reply.rows| && !reply.rows[i].refused)
  }

  lemma RejectedExactly(reply: Reply)
    ensures Rejected(reply) <==> !HasNews(reply)
  {
  }

  /** The decks to store: normalised rows of champions the database knows. */
  function KnownDecks(rows: seq<Raw>, known: set<nat>): seq<Deck> {
    if rows == [] then []
    else
      var last := rows[|rows| - 1];
      KnownDecks(rows[..|rows| - 1], known)
      + if !last.refused && last.deck.Some? && last.deck.value.championId in known then [last.deck.value] else []
  }

  lemma KnownDecksSnoc(rows: seq<Raw>, r: Raw, known: set<nat>)
    ensures KnownDecks(rows + [r], known)
            == KnownDecks(rows, known)
               + if !r.refused && r.deck.Some? && r.deck.value.championId in known then [r.deck.value] else []
  {
    assert (rows + [r])[..|rows|] == rows;
  }

  ghost predicate Keeps(r: Raw, known: set<nat>) {
    !r.refused && r.deck.Some? && r.deck.value.championId in known
  }

  /** `at` lists, in order, the positions of the rows that are kept, and `decks` holds their decks. */
  ghost predicate KeptAt(rows: seq<Raw>, known: set<nat>, decks: seq<Deck>, at: seq<nat>) {
    && (forall i: nat :: i in at <==> i < |rows| && Keeps(rows[i], known))
    && (forall k, l :: 0 <= k < l < |at| ==> at[k] < at[l])
    && |decks| == |at|
    && (forall k :: 0 <= k < |at| ==>
          at[k] < |rows| && Keeps(rows[at[k]], known) && decks[k] == rows[at[k]].deck.value)
  }

  lemma KeptAtSnoc(rows: seq<Raw>, r: Raw, known: set<nat>, decks: seq<Deck>, at: seq<nat>)
    requires KeptAt(rows, known, decks, at)
    ensures Keeps(r, known) ==> KeptAt(rows + [r], known, decks + [r.deck.value], at + [|rows|])
    ensures !Keeps(r, known) ==> KeptAt(rows + [r], known, decks, at)
  {
    hide Keeps;
    var more := rows + [r];
    assert more[|rows|] == r && forall i :: 0 <= i < |rows| ==> more[i] == rows[i];
    assert forall k :: 0 <= k < |at| ==> at[k] in at;
  }

  lemma KeptDeck(rows: seq<Raw>, r: Raw, known: set<nat>)
    ensures Keeps(r, known) ==> r.deck.Some?
    ensures KnownDecks(rows + [r], known)
            == if Keeps(r, known) then KnownDecks(rows, known) + [r.deck.value] else KnownDecks(rows, known)
  {
    KnownDecksSnoc(rows, r, known);
    NothingAdded(KnownDecks(rows, known));
  }

  /** The decks of exactly the rows without `ret_msg` that normalise to a known champion, in their order. */
  lemma {:induction false} KnownDecksExactly(rows: seq<Raw>, known: set<nat>)
    ensures exists at :: KeptAt(rows, known, KnownDecks(rows, known), at)
  {
    hide KnownDecks, Keeps;
    if rows == [] {
      NoDecks(known);
      assert KeptAt(rows, known, KnownDecks(rows, known), []);
    } else {
      hide KeptAt;
      var init, r := rows[..|rows| - 1], rows[|rows| - 1];
      KnownDecksExactly(init, known);
      var at :| KeptAt(init, known, KnownDecks(init, known), at);
      Snoc(rows);
      KeptDeck(init, r, known);
      KeptAtSnoc(init, r, known, KnownDecks(init, known), at);
    }
  }

  // ------------------------------------------------------------------ upsert, delete

  predicate HasKey(decks: seq<Deck>, key: string) {
    exists i :: 0 <= i < |decks| && decks[i].key == key
  }

  function Upsert(rows: map<string, Stored>, deck: Deck, at: nat): map<string, Stored> {
    rows[deck.key := Stored(deck, if deck.key in rows then rows[deck.key].talent else None, at)]
  }

  function UpsertAll(rows: map<string, Stored>, decks: seq<Deck>, at: nat): map<string, Stored> {
    if decks == [] then rows else Upsert(UpsertAll(rows, decks[..|decks| - 1], at), decks[|decks| - 1], at)
  }

  /** Upserts every deck, then deletes the rows of every other key. */
  function Replaced(rows: map<string, Stored>, decks: seq<Deck>, at: nat): map<string, Stored> {
    var upserted := UpsertAll(rows, decks, at);
    map k | k in upserted && HasKey(decks, k) :: upserted[k]
  }

  lemma UpsertAllSnoc(rows: map<string, Stored>, decks: seq<Deck>, deck: Deck, at: nat)
    ensures UpsertAll(rows, decks + [deck], at) == Upsert(UpsertAll(rows, decks, at), deck, at)
  {
    assert (decks + [deck])[..|decks|] == decks;
  }

  /** The last deck of the list with this key. */
  ghost predicate LastOf(decks: seq<Deck>, key: string, deck: Deck) {
    exists i :: 0 <= i < |decks| && decks[i] == deck && deck.key == key
                && forall j :: i < j < |decks| ==> decks[j].key != key
  }

  lemma LastOfSnoc(decks: seq<Deck>, deck: Deck, key: string, last: Deck)
    requires if deck.key == key then last == deck else LastOf(decks, key, last)
    ensures LastOf(decks + [deck], key, last)
  {
    var more := decks + [deck];
    if deck.key == key {
      assert more[|decks|] == last;
    } else {
      var i :| && 0 <= i < |decks| && decks[i] == last && last.key == key
               && forall j :: i < j < |decks| ==> decks[j].key != key;
      assert more[i] == last;
    }
  }

  lemma HasKeySnoc(decks: seq<Deck>, deck: Deck, key: string)
    ensures HasKey(decks + [deck], key) <==> HasKey(decks, key) || deck.key == key
  {
    var more := decks + [deck];
    assert more[|decks|] == deck;
    if HasKey(decks, key) {
      var i :| 0 <= i < |decks| && decks[i].key == key;
      assert more[i].key == key;
    }
  }

  lemma {:induction false} UpsertAllExactly(rows: map<string, Stored>, decks: seq<Deck>, at: nat, key: string)
    ensures key in UpsertAll(rows, decks, at) <==> key in rows || HasKey(decks, key)
    ensures !HasKey(decks, key) && key in rows ==> UpsertAll(rows, decks, at)[key] == rows[key]
    ensures HasKey(decks, key) ==>
              var row := UpsertAll(rows, decks, at)[key];
              && LastOf(decks, key, row.deck)
              && row.fetchedAt == at
              && row.talent == if key in rows then rows[key].talent else None
  {
    hide UpsertAll, HasKey, LastOf;
    if decks == [] {
      UpsertNothing(rows, at, key);
    } else {
      var init, deck := decks[..|decks| - 1], decks[|decks| - 1];
      Snoc(decks);
      UpsertAllExactly(rows, init, at, key);
      UpsertAllSnoc(rows, init, deck, at);
      HasKeySnoc(init, deck, key);
      if HasKey(decks, key) {
        LastOfSnoc(init, deck, key, if deck.key == key then deck else UpsertAll(rows, init, at)[key].deck);
      }
    }
  }

  lemma UpsertNothing(rows: map<string, Stored>, at: nat, key: string)
    ensures UpsertAll(rows, [], at) == rows && !HasKey([], key)
  {
  }

  /**
   * A committed refresh leaves exactly the last deck of every key; a row that stays keeps its
   * talent, a new one has none, and every other old row is gone.
   */
  lemma ReplacedExactly(rows: map<string, Stored>, decks: seq<Deck>, at: nat)
    ensures forall k :: k in Replaced(rows, decks, at) <==> HasKey(decks, k)
    ensures forall k :: k in Replaced(rows, decks, at) ==>
              var row := Replaced(rows, decks, at)[k];
              && LastOf(decks, k, row.deck)
              && row.fetchedAt == at
              && row.talent == if k in rows then rows[k].talent else None
  {
    hide UpsertAll, HasKey, LastOf;
    forall k
      ensures k in Replaced(rows, decks, at) <==> HasKey(decks, k)
      ensures k in Replaced(rows, decks, at) ==>
                var row := Replaced(rows, decks, at)[k];
                && LastOf(decks, k, row.deck)
                && row.fetchedAt == at
                && row.talent == if k in rows then rows[k].talent else None
    {
      UpsertAllExactly(rows, decks, at, k);
    }
  }

  /** There is only one last deck of a key. */
  lemma LastOfUnique(decks: seq<Deck>, key: string, a: Deck, b: Deck)
    requires LastOf(decks, key, a) && LastOf(decks, key, b)
    ensures a == b
  {
  }

  function DeckOf(row: Stored): Deck {
    row.deck
  }

  /** The stored decks themselves, without talents and times. */
  function DeckMap(rows: map<string, Stored>): map<string, Deck> {
    map k | k in rows :: DeckOf(rows[k])
  }

  /** What is stored after a refresh depends on the vendor's list alone, not on the old rows. */
  lemma ReplacedForgets(rows: map<string, Stored>, others: map<string, Stored>, decks: seq<Deck>, at: nat, later: nat)
    ensures DeckMap(Replaced(rows, decks, at)) == DeckMap(Replaced(others, decks, later))
  {
    hide Replaced, HasKey, LastOf;
    ReplacedExactly(rows, decks, at);
    ReplacedExactly(others, decks, later);
    var a, b := Replaced(rows, decks, at), Replaced(others, decks, later);
    assert a.Keys == b.Keys;
    forall k | k in a
      ensures a[k].deck == b[k].deck
    {
      LastOfUnique(decks, k, a[k].deck, b[k].deck);
    }
  }

  // --------------------------------------------------------------------- one refresh

  /** A manual attempt, recorded before the vendor is asked; a first one leaves the cache expired. */
  function AttemptStamp(fetch: Option<Fetch>, at: nat): Fetch {
    if fetch.Some? then fetch.value.(lastManual := Some(at)) else Fetch(0, Some(at))
  }

  function CommitStamp(fetch: Option<Fetch>, manual: bool, at: nat): Fetch {
    Fetch(at, if manual then Some(at) else if fetch.Some? then fetch.value.lastManual else None)
  }

  /** Clock readings of one call, in microseconds. */
  datatype Times = Times(decided: nat, attempted: nat, begun: nat, answered: nat)

  /** What the world does to one call. */
  datatype World = World(beforeFails: bool, reply: Reply, known: set<nat>, commitFails: bool)

  class LoadoutStore {
    var fetches: map<nat, Fetch>
    var decks: map<nat, map<string, Stored>>

    function FetchOf(player: nat): Option<Fetch>
      reads this
    {
      if player in fetches then Some(fetches[player]) else None
    }

    function DecksOf(player: nat): map<string, Stored>
      reads this
    {
      if player in decks then decks[player] else map[]
    }

    constructor ()
      ensures fetches == map[] && decks == map[]
    {
      fetches := map[];
      decks := map[];
    }

    /** The statements between BEGIN and COMMIT that write decks. */
    method ReplaceDecks(player: nat, list: seq<Deck>, at: nat)
      modifies this`decks
      ensures decks == old(decks)[player := Replaced(old(DecksOf(player)), list, at)]
    {
      hide UpsertAll, HasKey;
      ghost var before := DecksOf(player);
      var rows := DecksOf(player);
      UpsertNothing(before, at, "");
      for i := 0 to |list|
        invariant rows == UpsertAll(before, list[..i], at)
        invariant decks == old(decks)
      {
        PrefixStep(list, i);
        UpsertAllSnoc(before, list[..i], list[i], at);
        var talent := if list[i].key in rows then rows[list[i].key].talent else None;
        rows := rows[list[i].key := Stored(list[i], talent, at)];
      }
      assert list[..|list|] == list;
      if list != [] {
        rows := map k | k in rows && HasKey(list, k) :: rows[k];
      } else {
        rows := map[];
        NoKeys();
      }
      decks := decks[player := rows];
    }

    method CollectDecks(rows: seq<Raw>, known: set<nat>) returns (list: seq<Deck>)
      ensures list == KnownDecks(rows, known)
    {
      hide KnownDecks;
      list := [];
      NoDecks(known);
      for i := 0 to |rows|
        invariant list == KnownDecks(rows[..i], known)
      {
        PrefixStep(rows, i);
        KnownDecksSnoc(rows[..i], rows[i], known);
        NothingAdded(list);
        if !rows[i].refused && rows[i].deck.Some? && rows[i].deck.value.championId in known {
          list := list + [rows[i].deck.value];
        }
      }
      assert rows[..|rows|] == rows;
    }

    /** One call, from the decision to the answer. */
    method Refresh(player: nat, manual: bool, t: Times, world: World) returns (outcome: Outcome)
      modifies this
      ensures forall p :: p != player ==> FetchOf(p) == old(FetchOf(p)) && DecksOf(p) == old(DecksOf(p))
      ensures var fetch := old(FetchOf(player));
              var admitted := Admitted(fetch, manual, Ms(t.decided));
              var attempted := if manual then Some(AttemptStamp(fetch, t.attempted)) else fetch;
              && (!admitted ==> outcome == Refusal(manual, GetFreshness(fetch, Ms(t.decided))))
              && (outcome.Refreshed?
                  <==> admitted && !world.beforeFails && !Rejected(world.reply) && !world.commitFails)
              && (!outcome.Refreshed? ==> DecksOf(player) == old(DecksOf(player)))
              && (!outcome.Refreshed? ==>
                    FetchOf(player) == if admitted && !world.beforeFails then attempted else fetch)
              && (outcome.Refreshed? ==>
                    && DecksOf(player)
                       == Replaced(old(DecksOf(player)), KnownDecks(world.reply.rows, world.known), t.begun)
                    && FetchOf(player) == Some(CommitStamp(attempted, manual, t.begun))
                    && outcome == Refreshed(GetFreshness(FetchOf(player), Ms(t.answered))))
      // a reply that is no array, or only refused rows, leaves the decks and the time of the last commit
      ensures world.reply.Unavailable? || world.reply.NotAnArray?
              || (world.reply.rows != [] && forall i :: 0 <= i < |world.reply.rows| ==> world.reply.rows[i].refused) ==>
                && !outcome.Refreshed?
                && DecksOf(player) == old(DecksOf(player))
                && (old(FetchOf(player)).Some? ==>
                      FetchOf(player).Some? && FetchOf(player).value.fetchedAt == old(FetchOf(player)).value.fetchedAt)
                && (old(FetchOf(player)).None? ==>
                      FetchOf(player).None? || FetchOf(player).value.fetchedAt == 0)
      ensures Admitted(old(FetchOf(player)), manual, Ms(t.decided)) && !world.beforeFails && !world.commitFails
              && world.reply.Rows?
              && (world.reply.rows == [] || exists i :: 0 <= i < |world.reply.rows| && !world.reply.rows[i].refused) ==>
                outcome.Refreshed?
    {
      hide Replaced, KnownDecks, GetFreshness;
      RejectedExactly(world.reply);
      var freshness := GetFreshness(FetchOf(player), Ms(t.decided));
      if !manual && (!freshness.expired || freshness.manualRemainingSeconds > 0) {
        return StillFresh(freshness);
      }
      if manual && freshness.manualRemainingSeconds > 0 {
        return CoolingDown(freshness);
      }
      if world.beforeFails {
        return Failed;
      }
      if manual {
        fetches := fetches[player := AttemptStamp(FetchOf(player), t.attempted)];
      }
      if Rejected(world.reply) {
        return Failed;
      }
      var list := CollectDecks(world.reply.rows, world.known);
      var savedFetches, savedDecks := fetches, decks;
      ReplaceDecks(player, list, t.begun);
      if world.commitFails {
        fetches, decks := savedFetches, savedDecks;
        return Failed;
      }
      fetches := fetches[player := CommitStamp(FetchOf(player), manual, t.begun)];
      return Refreshed(GetFreshness(FetchOf(player), Ms(t.answered)));
    }
  }

  lemma NoKeys()
    ensures forall k :: !HasKey([], k)
  {
  }

  lemma NoDecks(known: set<nat>)
    ensures KnownDecks([], known) == []
  {
  }
}
