/**
 * The participant order of every published match: a comparator, a stable sort, and
 * exactly when the published order is independent of the order of arrival.
 */
module CanonicalOrder {
  import opened Seqs
  import opened RelayPlayers

  /** The source's comparator. `nameKey` stands for the collation key `localeCompare` compares. */
  function Compare(left: Player, right: Player): int {
    if left.taskForce != right.taskForce then left.taskForce - right.taskForce
    else if left.id > 0 && right.id > 0 && left.id != right.id then left.id - right.id
    else if left.id > 0 && right.id == 0 then -1
    else if left.id == 0 && right.id > 0 then 1
    else if left.nameKey != right.nameKey then left.nameKey - right.nameKey
    else left.champion - right.champion
  }

  predicate Tied(left: Player, right: Player) {
    Compare(left, right) == 0
  }

  function TiedWith(p: Player): Player -> bool {
    (q: Player) => Tied(p, q)
  }

  ghost predicate Sorted(rows: seq<Player>) {
    forall i, j :: 0 <= i < j < |rows| ==> Compare(rows[i], rows[j]) <= 0
  }

  /** The comparator is a total preorder, so `sort` has a well-defined meaning. */
  lemma CompareIsTotalPreorder(a: Player, b: Player, c: Player)
    ensures Compare(a, a) == 0
    ensures Compare(a, b) < 0 <==> Compare(b, a) > 0
    ensures Compare(a, b) <= 0 && Compare(b, c) <= 0 ==> Compare(a, c) <= 0
  {
  }

  /** What is left undistinguished: same side, same id, same name, same champion. */
  lemma TiedExactly(a: Player, b: Player)
    ensures Tied(a, b)
            <==> a.taskForce == b.taskForce && a.id == b.id && a.nameKey == b.nameKey && a.champion == b.champion
  {
  }

  /** Private accounts are listed after public ones. */
  function Rank(p: Player): nat {
    if p.id == 0 then 1 else 0
  }

  /** Earlier side; then public before private, lower id, earlier name, lower champion. */
  predicate Precedes(a: Player, b: Player) {
    || a.taskForce < b.taskForce
    || (a.taskForce == b.taskForce
        && (|| Rank(a) < Rank(b)
            || (Rank(a) == Rank(b)
                && (|| a.id < b.id
                    || (a.id == b.id
                        && (|| a.nameKey < b.nameKey
                            || (a.nameKey == b.nameKey && a.champion < b.champion)))))))
  }

  lemma ComparesExactly(a: Player, b: Player)
    ensures Compare(a, b) < 0 <==> Precedes(a, b)
    ensures Compare(a, b) > 0 <==> Precedes(b, a)
  {
  }

  function Insert(sorted: seq<Player>, p: Player): seq<Player> {
    if sorted != [] && Compare(sorted[|sorted| - 1], p) > 0
    then Insert(sorted[..|sorted| - 1], p) + [sorted[|sorted| - 1]]
    else sorted + [p]
  }

  /** `[...rows].sort(comparator)`: a stable sort. */
  function Arrange(rows: seq<Player>): seq<Player> {
    if rows == [] then [] else Insert(Arrange(rows[..|rows| - 1]), rows[|rows| - 1])
  }

  lemma {:induction false} InsertKeepsOrder(sorted: seq<Player>, p: Player)
    requires Sorted(sorted)
    ensures Sorted(Insert(sorted, p))
    ensures multiset(Insert(sorted, p)) == multiset(sorted) + multiset{p}
  {
    hide Compare;
    if sorted != [] && Compare(sorted[|sorted| - 1], p) > 0 {
      var init, last := sorted[..|sorted| - 1], sorted[|sorted| - 1];
      assert sorted == init + [last];
      InsertKeepsOrder(init, p);
      forall q | q in Insert(init, p) ensures Compare(q, last) <= 0 {
        assert q in multiset(Insert(init, p));
        assert q == p || q in multiset(init);
        CompareIsTotalPreorder(last, p, p);
      }
    } else {
      forall i | 0 <= i < |sorted| ensures Compare(sorted[i], p) <= 0 {
        CompareIsTotalPreorder(sorted[i], sorted[|sorted| - 1], p);
      }
    }
  }

  /** Arranging sorts and neither loses nor invents a participant. */
  lemma {:induction false} ArrangeSortsAndPermutes(rows: seq<Player>)
    ensures Sorted(Arrange(rows))
    ensures multiset(Arrange(rows)) == multiset(rows)
  {
    if rows == [] {
    } else {
      hide Compare, Insert, Sorted;
      ArrangeSortsAndPermutes(rows[..|rows| - 1]);
      InsertKeepsOrder(Arrange(rows[..|rows| - 1]), rows[|rows| - 1]);
      assert rows == rows[..|rows| - 1] + [rows[|rows| - 1]];
    }
  }

  /** In the published order nobody stands behind a player that belongs after them. */
  lemma ArrangedInOrder(rows: seq<Player>, i: nat, j: nat)
    requires i < j < |Arrange(rows)|
    ensures !Precedes(Arrange(rows)[j], Arrange(rows)[i])
  {
    hide Arrange, Compare, Precedes;
    ArrangeSortsAndPermutes(rows);
    ComparesExactly(Arrange(rows)[i], Arrange(rows)[j]);
  }

  lemma ArrangeMembers(rows: seq<Player>)
    ensures forall p :: p in Arrange(rows) <==> p in rows
    ensures |Arrange(rows)| == |rows|
  {
    ArrangeSortsAndPermutes(rows);
    forall p ensures p in Arrange(rows) <==> p in rows {
      assert p in multiset(Arrange(rows)) <==> p in multiset(rows);
    }
    assert |multiset(Arrange(rows))| == |multiset(rows)|;
  }

  lemma {:induction false} InsertIsStable(sorted: seq<Player>, p: Player, key: Player)
    requires Sorted(sorted)
    ensures Filter(Insert(sorted, p), TiedWith(key)) == Filter(sorted + [p], TiedWith(key))
  {
    hide Compare, Filter, Tied;
    var f := TiedWith(key);
    if sorted != [] && Compare(sorted[|sorted| - 1], p) > 0 {
      var init, last := sorted[..|sorted| - 1], sorted[|sorted| - 1];
      Snoc(sorted);
      InsertIsStable(init, p, key);
      FilterSnoc(Insert(init, p), last, f);
      FilterSnoc(init, p, f);
      FilterSnoc(init, last, f);
      FilterSnoc(sorted, p, f);
      NotBothTied(last, p, key);
    }
  }

  lemma NotBothTied(last: Player, p: Player, key: Player)
    requires Compare(last, p) > 0
    ensures !(Tied(key, last) && Tied(key, p))
  {
  }

  /** Tied participants keep their order of arrival. */
  lemma {:induction false} ArrangeIsStable(rows: seq<Player>, key: Player)
    ensures Filter(Arrange(rows), TiedWith(key)) == Filter(rows, TiedWith(key))
  {
    hide Compare, Filter, Tied, Insert;
    if rows == [] {
    } else {
      var init, last := rows[..|rows| - 1], rows[|rows| - 1];
      ArrangeIsStable(init, key);
      ArrangeSortsAndPermutes(init);
      InsertIsStable(Arrange(init), last, key);
      FilterSnoc(Arrange(init), last, TiedWith(key));
      FilterSnoc(init, last, TiedWith(key));
      Snoc(rows);
    }
  }

  ghost predicate NoAmbiguity(rows: seq<Player>) {
    forall p, q :: p in rows && q in rows && Tied(p, q) ==> p == q
  }

  lemma {:induction false} SortedIsUnique(a: seq<Player>, b: seq<Player>)
    requires Sorted(a) && Sorted(b) && multiset(a) == multiset(b) && NoAmbiguity(a)
    ensures a == b
  {
    hide Compare;
    assert |multiset(a)| == |multiset(b)|;
    if a == [] {
    } else {
      SameHead(a, b);
      assert a == [a[0]] + a[1..] && b == [b[0]] + b[1..];
      assert multiset(a[1..]) == multiset(b[1..]) by {
        assert multiset(a) == multiset([a[0]]) + multiset(a[1..]);
        assert multiset(b) == multiset([b[0]]) + multiset(b[1..]);
        assert multiset(a[1..]) == multiset(a) - multiset([a[0]]);
        assert multiset(b[1..]) == multiset(b) - multiset([a[0]]);
      }
      assert NoAmbiguity(a[1..]) by {
        assert forall p :: p in a[1..] ==> p in a;
      }
      SortedIsUnique(a[1..], b[1..]);
    }
  }

  lemma SameHead(a: seq<Player>, b: seq<Player>)
    requires Sorted(a) && Sorted(b) && multiset(a) == multiset(b) && NoAmbiguity(a)
    requires a != [] && b != []
    ensures a[0] == b[0]
  {
    hide Compare;
    assert a[0] in multiset(b) && b[0] in multiset(a);
    var i :| 0 <= i < |b| && b[i] == a[0];
    var j :| 0 <= j < |a| && a[j] == b[0];
    if i > 0 && j > 0 {
      assert Compare(b[0], b[i]) <= 0 && Compare(a[0], a[j]) <= 0;
      CompareIsTotalPreorder(a[0], b[0], a[0]);
      assert Tied(a[0], a[j]);
    }
  }

  ghost predicate ArrivalOrderIrrelevant(rows: seq<Player>) {
    forall other :: multiset(other) == multiset(rows) ==> Arrange(other) == Arrange(rows)
  }

  /** The published order is canonical exactly when no two different participants tie. */
  lemma CanonicalExactly(rows: seq<Player>)
    ensures ArrivalOrderIrrelevant(rows) <==> NoAmbiguity(rows)
  {
    hide Compare, Arrange;
    ArrangeSortsAndPermutes(rows);
    if NoAmbiguity(rows) {
      ArrangeMembers(rows);
      forall other: seq<Player> | multiset(other) == multiset(rows) ensures Arrange(other) == Arrange(rows) {
        ArrangeSortsAndPermutes(other);
        SortedIsUnique(Arrange(rows), Arrange(other));
      }
    } else {
      TiedPairShows(rows);
    }
  }

  lemma TiedPairShows(rows: seq<Player>)
    requires !NoAmbiguity(rows)
    ensures !ArrivalOrderIrrelevant(rows)
  {
    hide Compare, Arrange, Filter, ArrivalOrderIrrelevant;
    var p, q :| p in rows && q in rows && Tied(p, q) && p != q;
    var rest := WithoutBoth(rows, p, q);
    PutBack(multiset(rows), p, q, rest);
    PutBack(multiset(rows), q, p, rest);
    TwoArrivalOrders(p, q, rest);
    OrderMatters(rows, [p, q] + rest, [q, p] + rest);
  }

  lemma OrderMatters(rows: seq<Player>, one: seq<Player>, two: seq<Player>)
    requires multiset(one) == multiset(rows) && multiset(two) == multiset(rows)
    requires Arrange(one) != Arrange(two)
    ensures !ArrivalOrderIrrelevant(rows)
  {
  }

  lemma PutBack(all: multiset<Player>, p: Player, q: Player, rest: seq<Player>)
    requires p != q && p in all && q in all
    requires multiset(rest) == all - multiset{p} - multiset{q}
    ensures multiset([p, q] + rest) == all
  {
    assert multiset([p, q] + rest) == multiset{p, q} + multiset(rest);
  }

  lemma WithoutOne(rows: seq<Player>, p: Player) returns (rest: seq<Player>)
    requires p in rows
    ensures multiset(rest) == multiset(rows) - multiset{p}
  {
    var i :| 0 <= i < |rows| && rows[i] == p;
    assert rows == rows[..i] + [p] + rows[i + 1..];
    rest := rows[..i] + rows[i + 1..];
  }

  lemma WithoutBoth(rows: seq<Player>, p: Player, q: Player) returns (rest: seq<Player>)
    requires p != q && p in rows && q in rows
    ensures multiset(rest) == multiset(rows) - multiset{p} - multiset{q}
    ensures multiset(rest) == multiset(rows) - multiset{q} - multiset{p}
  {
    var some := WithoutOne(rows, p);
    assert q in multiset(some);
    rest := WithoutOne(some, q);
  }

  lemma TwoArrivalOrders(p: Player, q: Player, rest: seq<Player>)
    requires Tied(p, q) && p != q
    ensures Arrange([p, q] + rest) != Arrange([q, p] + rest)
  {
    hide Arrange, Filter, Insert;
    ArrangeIsStable([p, q] + rest, p);
    ArrangeIsStable([q, p] + rest, p);
    TiedHead(p, q, p, rest);
    TiedHead(q, p, p, rest);
  }

  lemma TiedHead(first: Player, second: Player, key: Player, rest: seq<Player>)
    requires Tied(key, first) && Tied(key, second)
    ensures Filter([first, second] + rest, TiedWith(key)) != []
    ensures Filter([first, second] + rest, TiedWith(key))[0] == first
  {
    hide Filter, Compare;
    assert [first, second] + rest == [first] + ([second] + rest);
    FilterConcat([first], [second] + rest, TiedWith(key));
    FilterOne(first, TiedWith(key));
  }
}
