/**
 * Participant rows of one match and the direct/recovered roster merge.
 */
module RelayPlayers {
  import opened Seqs
  import opened RankedScore

  /**
   * One participant row. `id` 0 is a private account; `sentinel` marks a vendor row carrying a
   * `ret_msg`; `stats` stands for every column the relay copies without looking at it.
   */
  datatype Player = Player(
    id: nat,
    sentinel: bool,
    taskForce: int,
    nameKey: int,
    champion: int,
    result: Observation,
    stats: int
  )

  predicate Usable(p: Player) {
    !p.sentinel
  }

  predicate UsablePublic(p: Player) {
    !p.sentinel && p.id > 0
  }

  predicate UsablePrivate(p: Player) {
    !p.sentinel && p.id == 0
  }

  function Publics(rows: seq<Player>): seq<Player> {
    Filter(rows, UsablePublic)
  }

  function Privates(rows: seq<Player>): seq<Player> {
    Filter(rows, UsablePrivate)
  }

  function Ids(rows: seq<Player>): set<nat> {
    set p | p in rows :: p.id
  }

  function PublicIds(rows: seq<Player>): set<nat> {
    Ids(Publics(rows))
  }

  function Outside(ids: set<nat>): Player -> bool {
    (p: Player) => p.id !in ids
  }

  ghost predicate DistinctIds(rows: seq<Player>) {
    forall i, j :: 0 <= i < j < |rows| ==> rows[i].id != rows[j].id
  }

  // ---------------------------------------------------------------- the merge

  /** What the merge has kept after reading `rows`, when it may keep `quota` private rows. */
  function Merged(rows: seq<Player>, quota: nat): (kept: seq<Player>) {
    if rows == [] then []
    else
      var kept, p := Merged(rows[..|rows| - 1], quota), rows[|rows| - 1];
      if p.sentinel then kept
      else if p.id > 0 then (if p.id in PublicIds(kept) then kept else kept + [p])
      else if |Privates(kept)| >= quota then kept
      else kept + [p]
  }

  function PrivateQuota(direct: seq<Player>, recovered: seq<Player>): nat {
    Max(|Privates(direct)|, |Privates(recovered)|)
  }

  function Merge(direct: seq<Player>, recovered: seq<Player>): seq<Player> {
    Merged(direct + recovered, PrivateQuota(direct, recovered))
  }

  /** The source's loop over `[...directPlayers, ...recoveredPlayers]`. */
  method MergeRelayPlayers(direct: seq<Player>, recovered: seq<Player>) returns (merged: seq<Player>)
    ensures merged == Merge(direct, recovered)
  {
    merged := [];
    var rows := direct + recovered;
    var publicIds: set<nat> := {};
    var privateCount: nat := 0;
    for i := 0 to |rows|
      invariant merged == Merged(rows[..i], PrivateQuota(direct, recovered))
      invariant publicIds == PublicIds(merged)
      invariant privateCount == |Privates(merged)|
    {
      PrefixStep(rows, i);
      var player := rows[i];
      AppendEffect(merged, player);
      if player.sentinel {
        continue;
      }
      if player.id > 0 {
        if player.id !in publicIds {
          publicIds := publicIds + {player.id};
          merged := merged + [player];
        }
        continue;
      }
      if privateCount < PrivateQuota(direct, recovered) {
        privateCount := privateCount + 1;
        merged := merged + [player];
      }
    }
    assert rows[..|rows|] == rows;
  }

  lemma AppendEffect(kept: seq<Player>, p: Player)
    ensures Publics(kept + [p]) == Publics(kept) + if UsablePublic(p) then [p] else []
    ensures Privates(kept + [p]) == Privates(kept) + if UsablePrivate(p) then [p] else []
    ensures PublicIds(kept + [p]) == PublicIds(kept) + if UsablePublic(p) then {p.id} else {}
  {
    assert (kept + [p])[..|kept|] == kept;
  }

  lemma MergedSnoc(rows: seq<Player>, p: Player, quota: nat)
    ensures var kept := Merged(rows, quota);
            Merged(rows + [p], quota)
            == if p.sentinel then kept
               else if p.id > 0 then (if p.id in PublicIds(kept) then kept else kept + [p])
               else if |Privates(kept)| >= quota then kept
               else kept + [p]
  {
    assert (rows + [p])[..|rows|] == rows;
  }

  lemma PublicIdsConcat(a: seq<Player>, b: seq<Player>)
    ensures PublicIds(a + b) == PublicIds(a) + PublicIds(b)
  {
    hide Filter;
    FilterConcat(a, b, UsablePublic);
  }

  // ------------------------------------------------- what the merge guarantees

  /** The first usable row of every public id, in order of appearance. */
  function FirstPublics(rows: seq<Player>): seq<Player> {
    if rows == [] then []
    else
      var firsts, p := FirstPublics(rows[..|rows| - 1]), rows[|rows| - 1];
      if UsablePublic(p) && p.id !in Ids(firsts) then firsts + [p] else firsts
  }

  lemma FirstPublicsSnoc(rows: seq<Player>, p: Player)
    ensures FirstPublics(rows + [p])
         == FirstPublics(rows) + if UsablePublic(p) && p.id !in Ids(FirstPublics(rows)) then [p] else []
  {
    assert (rows + [p])[..|rows|] == rows;
  }

  lemma IdsSnoc(rows: seq<Player>, p: Player)
    ensures Ids(rows + [p]) == Ids(rows) + {p.id}
  {
  }

  lemma {:induction false} FirstPublicsIds(rows: seq<Player>)
    ensures Ids(FirstPublics(rows)) == PublicIds(rows)
  {
    hide FirstPublics, Filter, Ids;
    if rows == [] {
      FirstPublicsOfNothing();
    } else {
      var init, last := rows[..|rows| - 1], rows[|rows| - 1];
      FirstPublicsIds(init);
      Snoc(rows);
      FirstPublicsSnoc(init, last);
      AppendEffect(init, last);
      IdsSnoc(FirstPublics(init), last);
      assert FirstPublics(init) + [] == FirstPublics(init);
    }
  }

  lemma FirstPublicsOfNothing()
    ensures FirstPublics([]) == [] && PublicIds([]) == {} && Ids([]) == {}
  {
  }

  /** Row `i` opens its public id: no earlier usable row carries it. */
  ghost predicate Opens(rows: seq<Player>, i: nat)
    requires i < |rows|
  {
    UsablePublic(rows[i]) && forall j :: 0 <= j < i && UsablePublic(rows[j]) ==> rows[j].id != rows[i].id
  }

  /** `FirstPublics` is what its name says: exactly the opening rows, one per public id. */
  lemma {:induction false} FirstPublicsExact(rows: seq<Player>)
    ensures forall p :: p in FirstPublics(rows) <==> exists i :: 0 <= i < |rows| && rows[i] == p && Opens(rows, i)
    ensures DistinctIds(FirstPublics(rows))
    ensures forall p :: p in FirstPublics(rows) ==> UsablePublic(p)
    ensures Ids(FirstPublics(rows)) == PublicIds(rows)
  {
    if rows == [] {
    } else {
      var init, last := rows[..|rows| - 1], rows[|rows| - 1];
      FirstPublicsExact(init);
      assert rows == init + [last];
      AppendEffect(init, last);
      FilterMembers(init, UsablePublic);
      forall i | 0 <= i < |init| ensures Opens(init, i) <==> Opens(rows, i) {}
      assert Opens(rows, |init|) <==> UsablePublic(last) && last.id !in PublicIds(init) by {
        forall j | 0 <= j < |init| && UsablePublic(init[j]) ensures init[j].id in PublicIds(init) {
          assert init[j] in Publics(init);
        }
      }
      forall p ensures p in FirstPublics(rows)
                       <==> exists i :: 0 <= i < |rows| && rows[i] == p && Opens(rows, i)
      {
        if p in FirstPublics(init) {
          var i :| 0 <= i < |init| && init[i] == p && Opens(init, i);
          assert rows[i] == p && Opens(rows, i);
        }
      }
    }
  }

  /**
   * The merged roster is exactly the first row of every public id plus the first
   * `quota` private rows, whatever sentinels surround them.
   */
  lemma {:induction false} MergedExact(rows: seq<Player>, quota: nat)
    ensures Publics(Merged(rows, quota)) == FirstPublics(rows)
    ensures Privates(Merged(rows, quota)) == Privates(rows)[..Min(quota, |Privates(rows)|)]
    ensures forall p :: p in Merged(rows, quota) ==> p in rows && !p.sentinel
    ensures |Merged(rows, quota)| == |FirstPublics(rows)| + Min(quota, |Privates(rows)|)
  {
    if rows == [] {
    } else {
      hide Merged, FirstPublics, Filter, Ids;
      var init, last := rows[..|rows| - 1], rows[|rows| - 1];
      MergedExact(init, quota);
      Snoc(rows);
      MergedSnoc(init, last, quota);
      FirstPublicsSnoc(init, last);
      AppendEffect(init, last);
      AppendEffect(Merged(init, quota), last);
      assert FirstPublics(init) + [] == FirstPublics(init);
      assert Privates(init) + [] == Privates(init);
    }
  }

  /** Direct wins: recovered rows only contribute the ids no direct row opened. */
  lemma {:induction false} FirstPublicsAppend(a: seq<Player>, b: seq<Player>)
    ensures FirstPublics(a + b) == FirstPublics(a) + Filter(FirstPublics(b), Outside(PublicIds(a)))
  {
    var isNew := Outside(PublicIds(a));
    if b == [] {
      assert a + b == a;
    } else {
      hide FirstPublics, Filter, Ids, PublicIds;
      var init, last := b[..|b| - 1], b[|b| - 1];
      FirstPublicsAppend(a, init);
      Snoc(b);
      Associative(a, init, [last]);
      FirstPublicsSnoc(init, last);
      FirstPublicsSnoc(a + init, last);
      FirstPublicsIds(init);
      FirstPublicsIds(a + init);
      PublicIdsConcat(a, init);
      FilterSnoc(FirstPublics(init), last, isNew);
      NothingAdded(FirstPublics(init));
      NothingAdded(FirstPublics(a + init));
      NothingAdded(Filter(FirstPublics(init), isNew));
      Associative(FirstPublics(a), Filter(FirstPublics(init), isNew), [last]);
    }
  }

  lemma PublicsOfMerge(direct: seq<Player>, recovered: seq<Player>)
    ensures Publics(Merge(direct, recovered)) == FirstPublics(direct + recovered)
  {
    MergedExact(direct + recovered, PrivateQuota(direct, recovered));
  }

  /** The participants of a merge: every public id once, and the larger private count. */
  lemma MergeRoster(direct: seq<Player>, recovered: seq<Player>)
    ensures PublicIds(Merge(direct, recovered)) == PublicIds(direct) + PublicIds(recovered)
    ensures DistinctIds(Publics(Merge(direct, recovered)))
    ensures |Privates(Merge(direct, recovered))| == PrivateQuota(direct, recovered)
    ensures |Merge(direct, recovered)|
         == |PublicIds(direct) + PublicIds(recovered)| + PrivateQuota(direct, recovered)
  {
    var rows := direct + recovered;
    MergedExact(rows, PrivateQuota(direct, recovered));
    FirstPublicsExact(rows);
    FilterConcat(direct, recovered, UsablePublic);
    FilterConcat(direct, recovered, UsablePrivate);
    assert PublicIds(rows) == PublicIds(direct) + PublicIds(recovered);
    DistinctIdsSize(FirstPublics(rows));
  }

  /** No sentinel survives and no row is invented. */
  lemma MergeInventsNothing(direct: seq<Player>, recovered: seq<Player>)
    ensures forall p :: p in Merge(direct, recovered) ==> !p.sentinel && (p in direct || p in recovered)
  {
    MergedExact(direct + recovered, PrivateQuota(direct, recovered));
  }

  lemma DistinctIdsSize(rows: seq<Player>)
    requires DistinctIds(rows)
    ensures |Ids(rows)| == |rows|
  {
    if rows == [] {
    } else {
      var init, last := rows[..|rows| - 1], rows[|rows| - 1];
      DistinctIdsSize(init);
      assert rows == init + [last];
      assert Ids(rows) == Ids(init) + {last.id};
      assert last.id !in Ids(init);
    }
  }

  // ------------------------------------------------------ algebra of the merge

  /** Rows the merge would keep unchanged. */
  ghost predicate Settled(rows: seq<Player>, quota: nat) {
    && (forall p :: p in rows ==> !p.sentinel)
    && DistinctIds(Publics(rows))
    && |Privates(rows)| <= quota
  }

  lemma {:induction false} SettledIsKept(rows: seq<Player>, quota: nat)
    requires Settled(rows, quota)
    ensures Merged(rows, quota) == rows
  {
    if rows == [] {
    } else {
      var init, last := rows[..|rows| - 1], rows[|rows| - 1];
      assert rows == init + [last];
      AppendEffect(init, last);
      assert last in rows;
      assert forall i :: 0 <= i < |Publics(init)| ==> Publics(rows)[i] == Publics(init)[i];
      SettledIsKept(init, quota);
      forall p | UsablePublic(last) && p in Publics(init) ensures p.id != last.id {
        var i :| 0 <= i < |Publics(init)| && Publics(init)[i] == p;
        assert Publics(rows)[i] == p && Publics(rows)[|Publics(init)|] == last;
      }
    }
  }

  /** Rows that add nothing to a roster that has already used its private quota. */
  lemma {:induction false} AbsorbedRows(kept: seq<Player>, more: seq<Player>, quota: nat)
    requires Settled(kept, quota)
    requires PublicIds(more) <= PublicIds(kept)
    requires Privates(more) == [] || |Privates(kept)| == quota
    ensures Merged(kept + more, quota) == kept
  {
    if more == [] {
      assert kept + more == kept;
      SettledIsKept(kept, quota);
    } else {
      var init, last := more[..|more| - 1], more[|more| - 1];
      assert more == init + [last];
      AppendEffect(init, last);
      assert (kept + more)[..|kept + more| - 1] == kept + init;
      AbsorbedRows(kept, init, quota);
    }
  }

  /** Merging the recovered rows a second time changes nothing. */
  lemma MergeIdempotent(direct: seq<Player>, recovered: seq<Player>)
    ensures Merge(Merge(direct, recovered), recovered) == Merge(direct, recovered)
  {
    var m := Merge(direct, recovered);
    MergeRoster(direct, recovered);
    MergeInventsNothing(direct, recovered);
    AbsorbedRows(m, recovered, PrivateQuota(direct, recovered));
  }

  lemma MergedIds(rows: seq<Player>, quota: nat)
    ensures PublicIds(Merged(rows, quota)) == PublicIds(rows)
  {
    MergedExact(rows, quota);
    FirstPublicsIds(rows);
  }

  /** `FirstPublics` sees through an inner merge on the right. */
  lemma {:induction false} FirstPublicsRight(a: seq<Player>, rows: seq<Player>, quota: nat)
    ensures FirstPublics(a + Merged(rows, quota)) == FirstPublics(a + rows)
  {
    if rows == [] {
    } else {
      hide FirstPublics, Filter, Ids, PublicIds, Merged;
      var init, last := rows[..|rows| - 1], rows[|rows| - 1];
      var kept := Merged(init, quota);
      FirstPublicsRight(a, init, quota);
      Snoc(rows);
      MergedSnoc(init, last, quota);
      MergedIds(init, quota);
      FirstPublicsIds(a + init);
      PublicIdsConcat(a, init);
      FirstPublicsSnoc(a + init, last);
      FirstPublicsSnoc(a + kept, last);
      Associative(a, init, [last]);
      Associative(a, kept, [last]);
      NothingAdded(FirstPublics(a + init));
    }
  }

  /** ... and on the left. */
  lemma {:induction false} FirstPublicsLeft(rows: seq<Player>, quota: nat, c: seq<Player>)
    ensures FirstPublics(Merged(rows, quota) + c) == FirstPublics(rows + c)
  {
    hide FirstPublics, Merged;
    var m := Merged(rows, quota);
    if c == [] {
      assert m + c == [] + m && rows + c == [] + rows;
      FirstPublicsRight([], rows, quota);
    } else {
      var init, last := c[..|c| - 1], c[|c| - 1];
      FirstPublicsLeft(rows, quota, init);
      Snoc(c);
      FirstPublicsSnoc(m + init, last);
      FirstPublicsSnoc(rows + init, last);
      assert (m + init) + [last] == m + c && (rows + init) + [last] == rows + c;
    }
  }

  /** On public participants the merge is associative. */
  lemma MergeAssociativeOnPublics(a: seq<Player>, b: seq<Player>, c: seq<Player>)
    ensures Publics(Merge(Merge(a, b), c)) == Publics(Merge(a, Merge(b, c)))
    ensures Publics(Merge(a, Merge(b, c))) == FirstPublics(a + b + c)
  {
    hide FirstPublics, Filter, Merged;
    PublicsOfMerge(Merge(a, b), c);
    PublicsOfMerge(a, Merge(b, c));
    FirstPublicsLeft(a + b, PrivateQuota(a, b), c);
    FirstPublicsRight(a, b + c, PrivateQuota(b, c));
    assert a + (b + c) == a + b + c;
  }

  /** Private rows have no identity, so on them the merge is only a maximum. */
  lemma MergePrivatesAreMaximum(a: seq<Player>, b: seq<Player>, c: seq<Player>)
    ensures |Privates(Merge(Merge(a, b), c))|
         == Max(|Privates(a)|, Max(|Privates(b)|, |Privates(c)|))
  {
    MergeRoster(a, b);
    MergeRoster(Merge(a, b), c);
  }
}
