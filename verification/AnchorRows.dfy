/**
 * Which row a recovery takes for each missing anchor, read off the stored rows, the two caches and
 * the vendor's answers.
 */
module AnchorRows {
  import opened Seqs
  import opened RankedScore
  import opened RelayPlayers
  import opened HistoryCaches
  import opened Recovery
  import opened RecoveryCost

  // ------------------------------------------------------- what the evidence holds for `q`

  ghost predicate NoneOf(rows: seq<Player>, q: nat) {
    forall p :: p in rows ==> p.id != q
  }

  ghost predicate FirstOf(rows: seq<Player>, q: nat, p: Player) {
    p.id == q && exists i :: 0 <= i < |rows| && rows[i] == p && NoneOf(rows[..i], q)
  }

  ghost predicate LastOf(rows: seq<Player>, q: nat, p: Player) {
    p.id == q && exists i :: 0 <= i < |rows| && rows[i] == p && NoneOf(rows[i + 1..], q)
  }

  /** The history's first row of this match. */
  ghost predicate FirstRow(h: History, matchId: nat, row: HistoryRow) {
    && row.matchId == matchId
    && exists i :: 0 <= i < |h| && h[i] == row && forall j :: 0 <= j < i ==> h[j].matchId != matchId
  }

  /** A history row as a participant: player `q` when it names nobody, every other field kept. */
  ghost predicate Names(p: Player, row: HistoryRow, q: nat) {
    p == row.player.(id := if row.player.id == 0 then q else row.player.id)
  }

  /** `q` is remembered, and that history holds the match. */
  ghost predicate Remembered(matchId: nat, c: Caches, q: nat, row: HistoryRow) {
    q in c.memory && FirstRow(c.memory[q], matchId, row)
  }

  /** `q` is not remembered, but has a table row that lists the match and holds it. */
  ghost predicate Tabled(matchId: nat, c: Caches, q: nat, row: HistoryRow) {
    && q !in c.memory && q in c.durable
    && matchId in c.durable[q].matchIds
    && FirstRow(c.durable[q].matches, matchId, row)
  }

  /** Neither cache answers, and the paid history arrives, is stored, and holds the match. */
  ghost predicate PaidFor(matchId: nat, e: Evidence, c: Caches, q: nat, row: HistoryRow) {
    && q !in c.memory
    && (q in c.durable ==> matchId !in c.durable[q].matchIds)
    && e.vendor(q).Returned? && e.vendor(q).cached && e.vendor(q).entriesStored
    && FirstRow(e.vendor(q).matches, matchId, row)
  }

  ghost predicate FromHistories(matchId: nat, e: Evidence, c: Caches, q: nat, p: Player) {
    exists row :: (Remembered(matchId, c, q, row) || Tabled(matchId, c, q, row) || PaidFor(matchId, e, c, q, row))
                  && Names(p, row, q)
  }

  ghost predicate NoLocalRow(e: Evidence, q: nat) {
    NoneOf(e.recoveredRows, q) && NoneOf(e.historyRows, q) && NoneOf(e.bufferedRows, q)
  }

  /** The evidence holds `p` for `q`: the last stored row, else the first local one, else a history's row. */
  ghost predicate Supplies(matchId: nat, e: Evidence, c: Caches, q: nat, p: Player) {
    || (exists raw :: LastOf(e.recoveredRows, q, raw) && p == raw.(sentinel := false, result := UNSCORED))
    || (NoneOf(e.recoveredRows, q) && FirstOf(e.historyRows, q, p))
    || (NoneOf(e.recoveredRows, q) && NoneOf(e.historyRows, q) && FirstOf(e.bufferedRows, q, p))
    || (NoLocalRow(e, q) && FromHistories(matchId, e, c, q, p))
  }

  /** No usable direct row names the real player `q`. */
  ghost predicate Wanted(direct: Option<DirectMatch>, q: nat) {
    q > 0 && (direct.Some? ==> forall p :: p in direct.value.players ==> p.sentinel || p.id != q)
  }

  // ------------------------------------------------------------ the readers keep those rows

  lemma {:induction false} FindMatchFirst(h: History, matchId: nat, row: HistoryRow)
    ensures FindMatch(h, matchId) == Some(row) <==> FirstRow(h, matchId, row)
  {
    if h == [] {
    } else {
      FindMatchFirst(h[1..], matchId, row);
      if h[0].matchId == matchId {
        FirstRowHere(h, matchId, row);
      } else {
        FirstRowLater(h, matchId, row);
      }
    }
  }

  lemma FirstRowHere(h: History, matchId: nat, row: HistoryRow)
    requires h != [] && h[0].matchId == matchId
    ensures FirstRow(h, matchId, row) <==> row == h[0]
  {
    if row == h[0] {
      assert h[0] == row;
    }
  }

  lemma FirstRowLater(h: History, matchId: nat, row: HistoryRow)
    requires h != [] && h[0].matchId != matchId
    ensures FirstRow(h, matchId, row) <==> FirstRow(h[1..], matchId, row)
  {
    if FirstRow(h, matchId, row) {
      var i :| 0 <= i < |h| && h[i] == row && forall j :: 0 <= j < i ==> h[j].matchId != matchId;
      assert h[1..][i - 1] == row && forall j :: 0 <= j < i - 1 ==> h[1..][j] == h[j + 1];
    }
    if FirstRow(h[1..], matchId, row) {
      var i :| 0 <= i < |h[1..]| && h[1..][i] == row && forall j :: 0 <= j < i ==> h[1..][j].matchId != matchId;
      assert h[i + 1] == row;
      forall j | 0 <= j < i + 1
        ensures h[j].matchId != matchId
      {
        assert j > 0 ==> h[j] == h[1..][j - 1];
      }
    }
  }

  lemma NoneOfSnoc(rows: seq<Player>, p: Player, q: nat)
    ensures NoneOf(rows + [p], q) <==> NoneOf(rows, q) && p.id != q
  {
    assert p in rows + [p] && forall r :: r in rows ==> r in rows + [p];
  }

  lemma FirstOfSnoc(rows: seq<Player>, last: Player, q: nat, p: Player)
    ensures FirstOf(rows + [last], q, p)
            <==> FirstOf(rows, q, p) || (NoneOf(rows, q) && last.id == q && p == last)
  {
    var all := rows + [last];
    if FirstOf(all, q, p) {
      var i :| 0 <= i < |all| && all[i] == p && NoneOf(all[..i], q);
      if i < |rows| {
        assert rows[i] == p && rows[..i] == all[..i];
      } else {
        assert all[..i] == rows;
      }
    }
    if FirstOf(rows, q, p) {
      var i :| 0 <= i < |rows| && rows[i] == p && NoneOf(rows[..i], q);
      assert all[i] == p && all[..i] == rows[..i];
    }
    if NoneOf(rows, q) && last.id == q && p == last {
      assert all[|rows|] == p && all[..|rows|] == rows;
    }
  }

  lemma LastOfSnoc(rows: seq<Player>, last: Player, q: nat, p: Player)
    ensures LastOf(rows + [last], q, p) <==> if last.id == q then p == last else LastOf(rows, q, p)
  {
    var all := rows + [last];
    if LastOf(all, q, p) {
      var i :| 0 <= i < |all| && all[i] == p && NoneOf(all[i + 1..], q);
      if i < |rows| {
        assert rows[i] == p && all[i + 1..] == rows[i + 1..] + [last];
        NoneOfSnoc(rows[i + 1..], last, q);
      }
    }
    if last.id == q && p == last {
      assert all[|rows|] == p && all[|rows| + 1..] == [];
    }
    if last.id != q && LastOf(rows, q, p) {
      var i :| 0 <= i < |rows| && rows[i] == p && NoneOf(rows[i + 1..], q);
      assert all[i] == p && all[i + 1..] == rows[i + 1..] + [last];
      NoneOfSnoc(rows[i + 1..], last, q);
    }
  }

  lemma {:induction false} FirstAmongExactly(rows: seq<Player>, wanted: set<nat>, q: nat)
    requires q in wanted
    ensures q !in FirstAmong(rows, wanted) <==> NoneOf(rows, q)
    ensures forall p :: FirstOf(rows, q, p) <==> q in FirstAmong(rows, wanted) && FirstAmong(rows, wanted)[q] == p
  {
    if rows == [] {
    } else {
      hide FirstAmong, FirstOf, NoneOf;
      var init, last := rows[..|rows| - 1], rows[|rows| - 1];
      FirstAmongExactly(init, wanted, q);
      Snoc(rows);
      FirstAmongSnoc(init, last, wanted);
      NoneOfSnoc(init, last, q);
      forall p
        ensures FirstOf(rows, q, p) <==> q in FirstAmong(rows, wanted) && FirstAmong(rows, wanted)[q] == p
      {
        FirstOfSnoc(init, last, q, p);
      }
    }
  }

  lemma {:induction false} LastAmongExactly(rows: seq<Player>, wanted: set<nat>, q: nat)
    requires q in wanted
    ensures q !in LastAmong(rows, wanted) <==> NoneOf(rows, q)
    ensures forall p :: LastOf(rows, q, p) <==> q in LastAmong(rows, wanted) && LastAmong(rows, wanted)[q] == p
  {
    if rows == [] {
    } else {
      hide LastAmong, LastOf, NoneOf;
      var init, last := rows[..|rows| - 1], rows[|rows| - 1];
      LastAmongExactly(init, wanted, q);
      Snoc(rows);
      LastAmongSnoc(init, last, wanted);
      NoneOfSnoc(init, last, q);
      forall p
        ensures LastOf(rows, q, p) <==> q in LastAmong(rows, wanted) && LastAmong(rows, wanted)[q] == p
      {
        LastOfSnoc(init, last, q, p);
      }
    }
  }

  /** Stored rows lose their marks and scores and nothing else, so the same ids are found. */
  lemma StoredOf(rows: seq<Player>, q: nat, p: Player)
    ensures LastOf(Stored(rows), q, p)
            <==> exists raw :: LastOf(rows, q, raw) && p == raw.(sentinel := false, result := UNSCORED)
  {
    hide LastOf;
    if LastOf(Stored(rows), q, p) {
      var raw := StoredFrom(rows, q, p);
    }
    forall raw | LastOf(rows, q, raw) && p == raw.(sentinel := false, result := UNSCORED)
      ensures LastOf(Stored(rows), q, p)
    {
      StoredTo(rows, q, raw);
    }
  }

  lemma StoredFrom(rows: seq<Player>, q: nat, p: Player) returns (raw: Player)
    requires LastOf(Stored(rows), q, p)
    ensures LastOf(rows, q, raw) && p == raw.(sentinel := false, result := UNSCORED)
  {
    hide NoneOf;
    var stored := Stored(rows);
    var i :| 0 <= i < |stored| && stored[i] == p && NoneOf(stored[i + 1..], q);
    StoredNone(rows[i + 1..], q);
    assert Stored(rows[i + 1..]) == stored[i + 1..];
    raw := rows[i];
  }

  lemma StoredTo(rows: seq<Player>, q: nat, raw: Player)
    requires LastOf(rows, q, raw)
    ensures LastOf(Stored(rows), q, raw.(sentinel := false, result := UNSCORED))
  {
    hide NoneOf;
    var stored := Stored(rows);
    var i :| 0 <= i < |rows| && rows[i] == raw && NoneOf(rows[i + 1..], q);
    StoredNone(rows[i + 1..], q);
    assert Stored(rows[i + 1..]) == stored[i + 1..];
    assert stored[i] == raw.(sentinel := false, result := UNSCORED);
  }

  lemma StoredNone(rows: seq<Player>, q: nat)
    ensures NoneOf(Stored(rows), q) <==> NoneOf(rows, q)
  {
    var stored := Stored(rows);
    if NoneOf(stored, q) {
      forall p | p in rows
        ensures p.id != q
      {
        var i :| 0 <= i < |rows| && rows[i] == p;
        assert stored[i] in stored;
      }
    }
    if NoneOf(rows, q) {
      forall p | p in stored
        ensures p.id != q
      {
        var i :| 0 <= i < |stored| && stored[i] == p;
        assert rows[i] in rows;
      }
    }
  }

  // ------------------------------------------------------------------ one history at a time

  /** Where a lookup of `q` ends, whoever was looked up before. */
  function Used(matchId: nat, e: Evidence, c: Caches, q: nat): Lookup {
    if q in c.memory then Lookup(q, c.memory[q], true)
    else
      match ReadCached(c, q, matchId)
      case Some(h) => Lookup(q, h, true)
      case None => Answer(q, e.vendor(q))
  }

  lemma UsedExactly(matchId: nat, e: Evidence, c: Caches, q: nat)
    requires q > 0
    ensures |Harvest([Used(matchId, e, c, q)], matchId)| <= 1
    ensures forall p :: Harvest([Used(matchId, e, c, q)], matchId) == [p] <==> FromHistories(matchId, e, c, q, p)
  {
    hide FindMatch, FirstRow, Harvest, FromHistories;
    var used := Used(matchId, e, c, q);
    HarvestOne(used, matchId);
    forall p
      ensures Harvest([used], matchId) == [p] <==> FromHistories(matchId, e, c, q, p)
    {
      if FromHistories(matchId, e, c, q, p) {
        SuppliedIsUsed(matchId, e, c, q, p);
      } else if Harvest([used], matchId) == [p] {
        UsedIsSupplied(matchId, e, c, q, p);
      }
    }
  }

  lemma HarvestOne(r: Lookup, matchId: nat)
    ensures Harvest([r], matchId)
            == var found := FindMatch(r.matches, matchId);
               if r.success && found.Some? then [TargetRow(found.value, r.playerId)] else []
  {
    assert [r][..0] == [];
  }

  lemma UsedIsSupplied(matchId: nat, e: Evidence, c: Caches, q: nat, p: Player)
    requires Harvest([Used(matchId, e, c, q)], matchId) == [p] && q > 0
    ensures FromHistories(matchId, e, c, q, p)
  {
    hide FindMatch, FirstRow, Harvest;
    var used := Used(matchId, e, c, q);
    HarvestOne(used, matchId);
    var row := FindMatch(used.matches, matchId).value;
    FindMatchFirst(used.matches, matchId, row);
    assert Names(p, row, q);
  }

  lemma SuppliedIsUsed(matchId: nat, e: Evidence, c: Caches, q: nat, p: Player)
    requires FromHistories(matchId, e, c, q, p) && q > 0
    ensures Harvest([Used(matchId, e, c, q)], matchId) == [p]
  {
    hide FindMatch, FirstRow, Harvest;
    var used := Used(matchId, e, c, q);
    HarvestOne(used, matchId);
    var row :| (Remembered(matchId, c, q, row) || Tabled(matchId, c, q, row) || PaidFor(matchId, e, c, q, row))
               && Names(p, row, q);
    FindMatchFirst(used.matches, matchId, row);
  }

  // ------------------------------------------------------------------------- all histories

  /** What the lookups and paid calls for `ids` bring in. */
  function Harvested(ids: seq<nat>, matchId: nat, e: Evidence, c: Caches): seq<Player> {
    var k := Classify(ids, matchId, c);
    Harvest(k.hits + Fetch(k.toFetch, e.vendor, k.caches).results, matchId)
  }

  /** Memory during the lookups: what it knew, and table rows that list the match. */
  ghost predicate Backfilled(now: Caches, c: Caches, matchId: nat) {
    && now.durable == c.durable
    && (forall q :: q in c.memory ==> q in now.memory && now.memory[q] == c.memory[q])
    && (forall q :: q in now.memory && q !in c.memory ==> ReadCached(c, q, matchId) == Some(now.memory[q]))
  }

  lemma {:induction false} ClassifiedIsBackfilled(ids: seq<nat>, matchId: nat, c: Caches)
    ensures Backfilled(Classify(ids, matchId, c).caches, c, matchId)
  {
    if ids == [] {
    } else {
      hide Classify;
      var init, last := ids[..|ids| - 1], ids[|ids| - 1];
      ClassifiedIsBackfilled(init, matchId, c);
      Snoc(ids);
      ClassifySnoc(init, last, matchId, c);
    }
  }

  lemma FetchSnoc(ids: seq<nat>, id: nat, vendor: nat -> VendorHistory, c: Caches)
    ensures Fetch(ids + [id], vendor, c).results == Fetch(ids, vendor, c).results + [Answer(id, vendor(id))]
  {
    assert (ids + [id])[..|ids|] == ids;
  }

  /** Results of paid calls do not depend on the caches they are stored in. */
  lemma {:induction false} FetchIgnoresCaches(ids: seq<nat>, vendor: nat -> VendorHistory, a: Caches, b: Caches)
    ensures Fetch(ids, vendor, a).results == Fetch(ids, vendor, b).results
  {
    if ids == [] {
    } else {
      FetchIgnoresCaches(ids[..|ids| - 1], vendor, a, b);
    }
  }

  lemma HarvestSnoc(results: seq<Lookup>, r: Lookup, matchId: nat)
    ensures Harvest(results + [r], matchId) == Harvest(results, matchId) + Harvest([r], matchId)
  {
    HarvestOne(r, matchId);
    assert (results + [r])[..|results|] == results;
  }

  lemma {:induction false} HarvestConcat(a: seq<Lookup>, b: seq<Lookup>, matchId: nat)
    ensures Harvest(a + b, matchId) == Harvest(a, matchId) + Harvest(b, matchId)
  {
    if b == [] {
      NothingAdded(a);
      NothingAdded(Harvest(a, matchId));
      assert Harvest(b, matchId) == [];
    } else {
      hide Harvest;
      var init, r := b[..|b| - 1], b[|b| - 1];
      HarvestConcat(a, init, matchId);
      Snoc(b);
      Associative(a, init, [r]);
      HarvestSnoc(a + init, r, matchId);
      HarvestSnoc(init, r, matchId);
      Associative(Harvest(a, matchId), Harvest(init, matchId), Harvest([r], matchId));
    }
  }

  /** One more player looked up brings in what is used for that player, wherever it is filed. */
  lemma HarvestedSnoc(ids: seq<nat>, q: nat, matchId: nat, e: Evidence, c: Caches)
    ensures multiset(Harvested(ids + [q], matchId, e, c))
            == multiset(Harvested(ids, matchId, e, c)) + multiset(Harvest([Used(matchId, e, c, q)], matchId))
  {
    hide Harvest, Classify, Fetch, Answer;
    var k, next := Classify(ids, matchId, c), Classify(ids + [q], matchId, c);
    var used := Used(matchId, e, c, q);
    ClassifySnoc(ids, q, matchId, c);
    ClassifiedIsBackfilled(ids, matchId, c);
    var paid := Fetch(k.toFetch, e.vendor, k.caches).results;
    HarvestConcat(k.hits, paid, matchId);
    FetchIgnoresCaches(next.toFetch, e.vendor, k.caches, next.caches);
    if next.toFetch == k.toFetch {
      assert next.hits == k.hits + [used];
      HarvestConcat(next.hits, paid, matchId);
      HarvestSnoc(k.hits, used, matchId);
    } else {
      assert next.hits == k.hits && next.toFetch == k.toFetch + [q];
      FetchSnoc(k.toFetch, q, e.vendor, k.caches);
      HarvestConcat(k.hits, paid + [used], matchId);
      HarvestSnoc(paid, used, matchId);
    }
  }

  // ------------------------------------------------------------------- all missing anchors

  /** What a full pass takes for one missing anchor. */
  function Taken(l: LocalRows, matchId: nat, e: Evidence, c: Caches, q: nat): seq<Player> {
    if q in l.recovered then [l.recovered[q]]
    else if q in l.history then [l.history[q]]
    else if q in l.buffered then [l.buffered[q]]
    else Harvest([Used(matchId, e, c, q)], matchId)
  }

  lemma TakenExactly(missing: set<nat>, matchId: nat, e: Evidence, c: Caches, q: nat)
    requires q in missing && q > 0
    ensures var taken := Taken(Locals(missing, e), matchId, e, c, q);
            && |taken| <= 1
            && (forall p :: taken == [p] <==> Supplies(matchId, e, c, q, p))
  {
    hide FirstAmong, LastAmong, FirstOf, LastOf, NoneOf, Harvest, FromHistories, Stored;
    var l := Locals(missing, e);
    LastAmongExactly(Stored(e.recoveredRows), missing, q);
    StoredNone(e.recoveredRows, q);
    UsedExactly(matchId, e, c, q);
    if q !in l.recovered {
      FirstAmongExactly(e.historyRows, missing - l.recovered.Keys, q);
      if q !in l.history {
        FirstAmongExactly(e.bufferedRows, missing - l.recovered.Keys - l.history.Keys, q);
      }
    }
    forall p
      ensures Taken(l, matchId, e, c, q) == [p] <==> Supplies(matchId, e, c, q, p)
    {
      StoredOf(e.recoveredRows, q, p);
    }
  }

  /** The row the evidence holds for `q`, if it holds one. */
  ghost function Supply(matchId: nat, e: Evidence, c: Caches, q: nat): seq<Player> {
    if p :| Supplies(matchId, e, c, q, p) then [p] else []
  }

  lemma SupplyExactly(matchId: nat, e: Evidence, c: Caches, q: nat)
    requires q > 0
    ensures |Supply(matchId, e, c, q)| <= 1
    ensures forall p :: Supply(matchId, e, c, q) == [p] <==> Supplies(matchId, e, c, q, p)
  {
    hide Supplies, Locals, Taken;
    TakenExactly({q}, matchId, e, c, q);
  }

  ghost function Gathered(ids: seq<nat>, matchId: nat, e: Evidence, c: Caches): seq<Player> {
    if ids == [] then []
    else Gathered(ids[..|ids| - 1], matchId, e, c) + Supply(matchId, e, c, ids[|ids| - 1])
  }

  lemma GatheredSnoc(ids: seq<nat>, q: nat, matchId: nat, e: Evidence, c: Caches)
    ensures Gathered(ids + [q], matchId, e, c) == Gathered(ids, matchId, e, c) + Supply(matchId, e, c, q)
  {
    assert (ids + [q])[..|ids|] == ids;
  }

  function Picked(ids: seq<nat>, l: LocalRows): seq<Player> {
    Pick(ids, l.recovered) + Pick(ids, l.history) + Pick(ids, l.buffered)
  }

  lemma PickedSnoc(ids: seq<nat>, q: nat, l: LocalRows)
    requires l.recovered.Keys !! l.history.Keys !! l.buffered.Keys
    ensures multiset(Picked(ids + [q], l))
            == multiset(Picked(ids, l)) + if q in l.recovered then multiset{l.recovered[q]}
                                          else if q in l.history then multiset{l.history[q]}
                                          else if q in l.buffered then multiset{l.buffered[q]}
                                          else multiset{}
  {
    hide Pick;
    PickSnoc(ids, q, l.recovered);
    PickSnoc(ids, q, l.history);
    PickSnoc(ids, q, l.buffered);
  }

  function TakenFor(ids: seq<nat>, l: LocalRows, matchId: nat, e: Evidence, c: Caches): multiset<Player> {
    multiset(Picked(ids, l)) + multiset(Harvested(Filter(ids, NotIn(l.Keys())), matchId, e, c))
  }

  lemma TakenSnoc(ids: seq<nat>, q: nat, missing: set<nat>, matchId: nat, e: Evidence, c: Caches)
    requires q in missing && q > 0
    ensures var l := Locals(missing, e);
            TakenFor(ids + [q], l, matchId, e, c)
            == TakenFor(ids, l, matchId, e, c) + multiset(Supply(matchId, e, c, q))
  {
    hide Pick, Filter, Harvested, Harvest, Locals, Supplies, Supply, Picked, Used;
    var l := Locals(missing, e);
    LocalsAreDisjoint(missing, e);
    PickedSnoc(ids, q, l);
    FilterSnoc(ids, q, NotIn(l.Keys()));
    TakenIsSupply(missing, matchId, e, c, q);
    if q in l.Keys() {
      NothingAdded(Filter(ids, NotIn(l.Keys())));
    } else {
      HarvestedSnoc(Filter(ids, NotIn(l.Keys())), q, matchId, e, c);
    }
  }

  /** Local stores and histories together bring in exactly the row of each anchor. */
  lemma {:induction false} TakenTogether(ids: seq<nat>, missing: set<nat>, matchId: nat, e: Evidence, c: Caches)
    requires forall q :: q in ids ==> q in missing && q > 0
    ensures TakenFor(ids, Locals(missing, e), matchId, e, c) == multiset(Gathered(ids, matchId, e, c))
  {
    if ids == [] {
      NothingTaken(Locals(missing, e), matchId, e, c);
    } else {
      hide TakenFor, Locals, Supply, Gathered;
      var init, q := ids[..|ids| - 1], ids[|ids| - 1];
      assert q in ids && forall o :: o in init ==> o in ids;
      TakenTogether(init, missing, matchId, e, c);
      Snoc(ids);
      TakenSnoc(init, q, missing, matchId, e, c);
      GatheredSnoc(init, q, matchId, e, c);
    }
  }

  lemma NothingTaken(l: LocalRows, matchId: nat, e: Evidence, c: Caches)
    ensures Picked([], l) == [] && Gathered([], matchId, e, c) == []
    ensures Harvested(Filter<nat>([], NotIn(l.Keys())), matchId, e, c) == []
  {
    assert Filter<nat>([], NotIn(l.Keys())) == [];
    var k := Classify([], matchId, c);
    assert k.hits + Fetch(k.toFetch, e.vendor, k.caches).results == [];
  }

  lemma TakenIsSupply(missing: set<nat>, matchId: nat, e: Evidence, c: Caches, q: nat)
    requires q in missing && q > 0
    ensures Taken(Locals(missing, e), matchId, e, c, q) == Supply(matchId, e, c, q)
  {
    hide Supplies, Locals, Taken, Supply;
    TakenExactly(missing, matchId, e, c, q);
    SupplyExactly(matchId, e, c, q);
    var taken, supply := Taken(Locals(missing, e), matchId, e, c, q), Supply(matchId, e, c, q);
    if |taken| == 1 {
      assert taken == [taken[0]];
    }
    if |supply| == 1 {
      assert supply == [supply[0]];
    }
  }

  // -------------------------------------------------------------- the rows of a full pass

  lemma MissingSnoc(direct: Option<DirectMatch>, entries: seq<nat>, q: nat)
    ensures MissingIds(direct, entries + [q])
            == MissingIds(direct, entries) + if Wanted(direct, q) then [q] else []
  {
    hide Filter, KnownPlayers, RealIds;
    WantedExactly(direct, q);
    FilterSnoc(entries, q, (id: nat) => id > 0);
    if q > 0 {
      FilterSnoc(Positive(entries), q, NotIn(RealIds(KnownPlayers(direct))));
    } else {
      NothingAdded(Positive(entries));
    }
    NothingAdded(MissingIds(direct, entries));
  }

  lemma WantedExactly(direct: Option<DirectMatch>, q: nat)
    ensures Wanted(direct, q) <==> q > 0 && q !in RealIds(KnownPlayers(direct))
  {
    hide Filter;
    if direct.Some? {
      var rows, unscored := direct.value.players, Unscored(direct.value.players);
      FilterMembers(unscored, Usable);
      forall p | p in rows && !p.sentinel
        ensures p.(result := UNSCORED) in unscored
      {
        var i :| 0 <= i < |rows| && rows[i] == p;
        assert unscored[i] == p.(result := UNSCORED);
      }
      forall p | p in unscored
        ensures exists raw :: raw in rows && p == raw.(result := UNSCORED)
      {
        var i :| 0 <= i < |unscored| && unscored[i] == p;
        assert rows[i] in rows;
      }
    }
  }

  lemma {:induction false} WantedAreMissing(direct: Option<DirectMatch>, entries: seq<nat>)
    ensures forall q :: q in MissingIds(direct, entries) <==> q in entries && Wanted(direct, q)
  {
    if entries == [] {
    } else {
      hide MissingIds, Wanted;
      var init, q := entries[..|entries| - 1], entries[|entries| - 1];
      WantedAreMissing(direct, init);
      Snoc(entries);
      MissingSnoc(direct, init, q);
    }
  }

  lemma {:induction false} GatheredMembers(ids: seq<nat>, matchId: nat, e: Evidence, c: Caches)
    requires forall q :: q in ids ==> q > 0
    ensures forall p :: p in Gathered(ids, matchId, e, c) <==> exists q :: q in ids && Supplies(matchId, e, c, q, p)
  {
    if ids == [] {
    } else {
      hide Gathered, Supplies, Supply;
      var init, q := ids[..|ids| - 1], ids[|ids| - 1];
      assert q in ids && forall o :: o in init ==> o in ids;
      GatheredMembers(init, matchId, e, c);
      Snoc(ids);
      GatheredSnoc(init, q, matchId, e, c);
      SupplyMembers(matchId, e, c, q);
    }
  }

  lemma SupplyMembers(matchId: nat, e: Evidence, c: Caches, q: nat)
    requires q > 0
    ensures forall p :: p in Supply(matchId, e, c, q) <==> Supplies(matchId, e, c, q, p)
  {
    hide Supplies, Supply;
    SupplyExactly(matchId, e, c, q);
    var supply := Supply(matchId, e, c, q);
    if |supply| == 1 {
      assert supply == [supply[0]];
    }
    forall p
      ensures p in supply <==> Supplies(matchId, e, c, q, p)
    {
      assert p in supply ==> supply == [p];
    }
  }

  /** The rows of a full pass: one for every missing anchor the evidence supplies, and the known private rows. */
  lemma RecoveredRows(matchId: nat, direct: Option<DirectMatch>, entries: seq<nat>, e: Evidence, c: Caches)
    ensures multiset(RunFullPass(matchId, direct, entries, e, c).recovered)
            == multiset(Gathered(MissingIds(direct, entries), matchId, e, c))
               + multiset(Privates(KnownPlayers(direct)))
  {
    hide Pick, Filter, Classify, Fetch, Harvest, Locals, Supplies, Supply, Gathered, MissingIds, KnownPlayers,
         Wanted, ResolveSources;
    var missing := MissingIds(direct, entries);
    var l := Locals(SetOf(missing), e);
    WantedAreMissing(direct, entries);
    WantedArePositive(direct);
    TakenTogether(missing, SetOf(missing), matchId, e, c);
    var pass := RunFullPass(matchId, direct, entries, e, c);
    assert pass.recovered == Picked(missing, l) + Harvested(Filter(missing, NotIn(l.Keys())), matchId, e, c)
                             + Privates(KnownPlayers(direct));
  }

  lemma WantedArePositive(direct: Option<DirectMatch>)
    ensures forall q :: Wanted(direct, q) ==> q > 0
  {
  }

  /** A row is recovered exactly when the evidence supplies it for a missing anchor, or it is a known private row. */
  lemma RecoveredExactly(matchId: nat, direct: Option<DirectMatch>, entries: seq<nat>, e: Evidence, c: Caches,
        p: Player)
    ensures p in RunFullPass(matchId, direct, entries, e, c).recovered
            <==> || (exists q :: q in entries && Wanted(direct, q) && Supplies(matchId, e, c, q, p))
                 || p in Privates(KnownPlayers(direct))
  {
    hide RunFullPass, Supplies, Gathered, MissingIds, KnownPlayers, Wanted, Filter;
    RecoveredRows(matchId, direct, entries, e, c);
    WantedAreMissing(direct, entries);
    WantedArePositive(direct);
    GatheredMembers(MissingIds(direct, entries), matchId, e, c);
    var recovered := RunFullPass(matchId, direct, entries, e, c).recovered;
    var gathered, privates := Gathered(MissingIds(direct, entries), matchId, e, c), Privates(KnownPlayers(direct));
    assert p in recovered <==> p in multiset(recovered);
    assert p in gathered <==> p in multiset(gathered);
    assert p in privates <==> p in multiset(privates);
  }

  /** A remembered history that holds the match is used. */
  lemma RememberedRowIsRecovered(matchId: nat, direct: Option<DirectMatch>, entries: seq<nat>, e: Evidence, c: Caches,
        q: nat, row: HistoryRow, p: Player)
    requires q in entries && Wanted(direct, q) && NoLocalRow(e, q)
    requires Remembered(matchId, c, q, row) && Names(p, row, q)
    ensures p in RunFullPass(matchId, direct, entries, e, c).recovered
  {
    hide RunFullPass, Wanted;
    RecoveredExactly(matchId, direct, entries, e, c, p);
    assert Supplies(matchId, e, c, q, p);
  }

  /** A table row that lists and holds the match is used. */
  lemma TabledRowIsRecovered(matchId: nat, direct: Option<DirectMatch>, entries: seq<nat>, e: Evidence, c: Caches,
        q: nat, row: HistoryRow, p: Player)
    requires q in entries && Wanted(direct, q) && NoLocalRow(e, q)
    requires Tabled(matchId, c, q, row) && Names(p, row, q)
    ensures p in RunFullPass(matchId, direct, entries, e, c).recovered
  {
    hide RunFullPass, Wanted;
    RecoveredExactly(matchId, direct, entries, e, c, p);
    assert Supplies(matchId, e, c, q, p);
  }

  /** A history that was paid for and stored is used. */
  lemma PaidRowIsRecovered(matchId: nat, direct: Option<DirectMatch>, entries: seq<nat>, e: Evidence, c: Caches,
        q: nat, row: HistoryRow, p: Player)
    requires q in entries && Wanted(direct, q) && NoLocalRow(e, q)
    requires PaidFor(matchId, e, c, q, row) && Names(p, row, q)
    ensures p in RunFullPass(matchId, direct, entries, e, c).recovered
  {
    hide RunFullPass, Wanted;
    RecoveredExactly(matchId, direct, entries, e, c, p);
    assert Supplies(matchId, e, c, q, p);
  }
}
