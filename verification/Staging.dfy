/**
 * `dumpRawPayloads`: deduplicated, chunked, parameterised insertion into the ingest buffer.
 */
module Staging {
  import opened Seqs

  /** `entity_id` as callers pass it. */
  datatype EntityId = NoId | NumberId(n: int) | TextId(s: string)

  /** A payload; `raw` stands for its serialised JSON. */
  datatype Payload = Payload(endpoint: string, entityType: string, entityId: EntityId, raw: string)

  /** A row of `raw_ingest_buffer`; `active` means pending or processing. */
  datatype Row = Row(raw: string, active: bool, endpoint: string, entityType: string, entityId: string)

  const DEDUPED_TYPES: set<string> := {"match", "match_history", "prefetch_match"}
  const CHUNK_SIZE := 5000
  const PENDING := "pending"
  const ROW_WIDTH := 5

  function Digits(n: nat): string {
    if n < 10 then [('0' as int + n) as char] else Digits(n / 10) + [('0' as int + n % 10) as char]
  }

  /** `String(n)`. */
  function Decimal(n: int): string {
    if n < 0 then "-" + Digits(-n) else Digits(n)
  }

  /** `String(p.entity_id ?? '')`, the id used for deduplication. */
  function IdText(id: EntityId): string {
    match id
    case NoId => ""
    case NumberId(n) => Decimal(n)
    case TextId(s) => s
  }

  /** `String(p.entity_id || '')`, the id that is stored: zero becomes empty. */
  function StoredId(id: EntityId): string {
    match id
    case NoId => ""
    case NumberId(n) => if n == 0 then "" else Decimal(n)
    case TextId(s) => s
  }

  predicate Keyed(p: Payload) {
    p.entityType in DEDUPED_TYPES && IdText(p.entityId) != ""
  }

  function Key(entityType: string, id: string): string {
    entityType + "|" + id
  }

  function KeyOf(p: Payload): string {
    Key(p.entityType, IdText(p.entityId))
  }

  function RowOf(p: Payload): Row {
    Row(p.raw, true, p.endpoint, p.entityType, StoredId(p.entityId))
  }

  function Rows(payloads: seq<Payload>): seq<Row> {
    seq(|payloads|, i requires 0 <= i < |payloads| => RowOf(payloads[i]))
  }

  // ------------------------------------------------------------------- existing keys

  /** `Number(entity_id)`, with the text case left to the `parse` oracle. */
  function NumberOf(id: EntityId, parse: string -> Option<int>): Option<int> {
    match id
    case NoId => Some(0)
    case NumberId(n) => Some(n)
    case TextId(s) => parse(s)
  }

  /** Active rows selected by the two `ANY` lists. */
  function BufferKeys(payloads: seq<Payload>, rows: seq<Row>): set<string> {
    set r | r in rows && r.active
            && (exists p :: p in payloads && Keyed(p) && p.entityType == r.entityType)
            && (exists p :: p in payloads && Keyed(p) && IdText(p.entityId) == r.entityId)
      :: Key(r.entityType, r.entityId)
  }

  /** Matches already ingested, complete or limited, among the requested ones. */
  function MatchKeys(payloads: seq<Payload>, ingested: set<int>, parse: string -> Option<int>): set<string> {
    set id | id in ingested && id > 0
             && (exists p :: && p in payloads && Keyed(p)
                             && p.entityType == "match" && NumberOf(p.entityId, parse) == Some(id))
      :: Key("match", Decimal(id))
  }

  function ExistingKeys(payloads: seq<Payload>, rows: seq<Row>, ingested: set<int>,
        parse: string -> Option<int>): set<string> {
    BufferKeys(payloads, rows) + MatchKeys(payloads, ingested, parse)
  }

  // -------------------------------------------------------------------------- filter

  function KeyedKeys(payloads: seq<Payload>): set<string> {
    set p | p in payloads && Keyed(p) :: KeyOf(p)
  }

  /** Payloads to insert: everything unkeyed, and the first payload of each new key. */
  function Fresh(payloads: seq<Payload>, existing: set<string>): seq<Payload> {
    if payloads == [] then []
    else
      var kept, p := Fresh(payloads[..|payloads| - 1], existing), payloads[|payloads| - 1];
      if Keyed(p) && (KeyOf(p) in existing || KeyOf(p) in KeyedKeys(kept)) then kept else kept + [p]
  }

  lemma FreshSnoc(payloads: seq<Payload>, p: Payload, existing: set<string>)
    ensures var kept := Fresh(payloads, existing);
            Fresh(payloads + [p], existing)
            == if Keyed(p) && (KeyOf(p) in existing || KeyOf(p) in KeyedKeys(kept)) then kept else kept + [p]
  {
    assert (payloads + [p])[..|payloads|] == payloads;
  }

  lemma KeyedKeysSnoc(payloads: seq<Payload>, p: Payload)
    ensures KeyedKeys(payloads + [p]) == KeyedKeys(payloads) + if Keyed(p) then {KeyOf(p)} else {}
  {
  }

  method FilterPayloads(payloads: seq<Payload>, existing: set<string>) returns (kept: seq<Payload>)
    ensures kept == Fresh(payloads, existing)
  {
    hide Keyed, KeyOf, KeyedKeys;
    kept := [];
    var seen: set<string> := {};
    NoKeys();
    for i := 0 to |payloads|
      invariant kept == Fresh(payloads[..i], existing) && seen == KeyedKeys(kept)
    {
      PrefixStep(payloads, i);
      var p := payloads[i];
      KeyedKeysSnoc(kept, p);
      if Keyed(p) {
        if KeyOf(p) in existing || KeyOf(p) in seen {
          continue;
        }
        seen := seen + {KeyOf(p)};
      }
      kept := kept + [p];
    }
    assert payloads[..|payloads|] == payloads;
  }

  lemma NoKeys()
    ensures KeyedKeys([]) == {}
  {
  }

  // -------------------------------------------------------------------------- chunks

  /** `arr.slice(i, i + size)` for i = 0, size, 2 * size, ... */
  function Chunks<T>(arr: seq<T>, size: nat): seq<seq<T>>
    requires size > 0
  {
    if arr == [] then []
    else if |arr| <= size then [arr]
    else [arr[..size]] + Chunks(arr[size..], size)
  }

  method ChunkArray<T>(arr: seq<T>, size: nat) returns (chunks: seq<seq<T>>)
    requires size > 0
    ensures chunks == Chunks(arr, size)
  {
    chunks := [];
    var i := 0;
    while i < |arr|
      invariant 0 <= i
      invariant i <= |arr| ==> chunks + Chunks(arr[i..], size) == Chunks(arr, size)
      invariant i > |arr| ==> chunks == Chunks(arr, size)
    {
      var end := Min(i + size, |arr|);
      if i + size < |arr| {
        assert arr[i..][..size] == arr[i..end];
        assert arr[i..][size..] == arr[end..];
      } else {
        assert arr[i..end] == arr[i..];
      }
      chunks := chunks + [arr[i..end]];
      i := i + size;
    }
  }

  function Flatten<T>(chunks: seq<seq<T>>): seq<T> {
    if chunks == [] then [] else chunks[0] + Flatten(chunks[1..])
  }

  /** Chunks concatenate back to the list; all are full except possibly the last. */
  lemma {:induction false} ChunksExact<T>(arr: seq<T>, size: nat)
    requires size > 0
    ensures Flatten(Chunks(arr, size)) == arr
    ensures forall k :: 0 <= k < |Chunks(arr, size)| ==> 0 < |Chunks(arr, size)[k]| <= size
    ensures forall k :: 0 <= k < |Chunks(arr, size)| - 1 ==> |Chunks(arr, size)[k]| == size
  {
    if |arr| > size {
      ChunksExact(arr[size..], size);
      var rest := Chunks(arr[size..], size);
      assert Chunks(arr, size)[1..] == rest;
      assert arr[..size] + arr[size..] == arr;
    } else if arr != [] {
      assert [arr][1..] == [];
    }
  }

  // ---------------------------------------------------------- one parameterised insert

  /** `INSERT ... VALUES ($1, ..., $5), ($6, ...), ...` with its parameter list. */
  datatype Insert = Insert(values: seq<seq<nat>>, params: seq<string>)

  /** The row a tuple of placeholders denotes; `$1` is the first parameter. */
  predicate WellNumbered(tuple: seq<nat>, params: seq<string>) {
    |tuple| == ROW_WIDTH && forall i :: 0 <= i < ROW_WIDTH ==> 1 <= tuple[i] <= |params|
  }

  function Denoted(tuple: seq<nat>, params: seq<string>): Row
    requires WellNumbered(tuple, params)
  {
    Row(params[tuple[0] - 1], params[tuple[1] - 1] == PENDING,
        params[tuple[2] - 1], params[tuple[3] - 1], params[tuple[4] - 1])
  }

  /** The statement inserts exactly these rows, in order. */
  ghost predicate Inserts(s: Insert, rows: seq<Row>) {
    && |s.values| == |rows|
    && |s.params| == ROW_WIDTH * |rows|
    && forall k :: 0 <= k < |rows| ==> WellNumbered(s.values[k], s.params) && Denoted(s.values[k], s.params) == rows[k]
  }

  method BuildInsert(chunk: seq<Payload>) returns (s: Insert)
    ensures Inserts(s, Rows(chunk))
  {
    hide RowOf;
    var values: seq<seq<nat>> := [];
    var params: seq<string> := [];
    var idx := 1;
    for i := 0 to |chunk|
      invariant idx == ROW_WIDTH * i + 1
      invariant Inserts(Insert(values, params), Rows(chunk[..i]))
    {
      PrefixStep(chunk, i);
      var p := chunk[i];
      ghost var before := Insert(values, params);
      values := values + [[idx, idx + 1, idx + 2, idx + 3, idx + 4]];
      params := params + [p.raw, PENDING, p.endpoint, p.entityType, StoredId(p.entityId)];
      idx := idx + 5;
      InsertsOneMore(before, Rows(chunk[..i]), p);
      assert Rows(chunk[..i + 1]) == Rows(chunk[..i]) + [RowOf(p)];
    }
    assert chunk[..|chunk|] == chunk;
    s := Insert(values, params);
  }

  lemma InsertsOneMore(s: Insert, rows: seq<Row>, p: Payload)
    requires Inserts(s, rows)
    ensures var n := |s.params|;
            Inserts(Insert(s.values + [[n + 1, n + 2, n + 3, n + 4, n + 5]],
                           s.params + [p.raw, PENDING, p.endpoint, p.entityType, StoredId(p.entityId)]),
                    rows + [RowOf(p)])
  {
    var more := s.params + [p.raw, PENDING, p.endpoint, p.entityType, StoredId(p.entityId)];
    forall k | 0 <= k < |rows|
      ensures WellNumbered(s.values[k], more) && Denoted(s.values[k], more) == rows[k]
    {
    }
  }

  /** A statement determines its rows. */
  function Executed(s: Insert): seq<Row>
    requires forall k :: 0 <= k < |s.values| ==> WellNumbered(s.values[k], s.params)
  {
    seq(|s.values|, k requires 0 <= k < |s.values| => Denoted(s.values[k], s.params))
  }

  // ---------------------------------------------------------------- the staging buffer

  datatype Staged = Inserted(count: nat) | InsertFailed

  class RawIngestBuffer {
    var rows: seq<Row>

    constructor ()
      ensures rows == []
    {
      rows := [];
    }

    /** Runs one statement of the chunk loop. */
    method Execute(s: Insert, ghost expected: seq<Row>)
      requires Inserts(s, expected)
      modifies this
      ensures rows == old(rows) + expected
    {
      assert Executed(s) == expected;
      rows := rows + Executed(s);
    }

    /** The chunk loop; `failing` is the chunk whose insert throws, if any. */
    method InsertChunks(chunks: seq<seq<Payload>>, failing: Option<nat>) returns (r: Staged)
      modifies this
      ensures if failing.Some? && failing.value < |chunks|
              then r == InsertFailed && rows == old(rows) + Rows(Flatten(chunks[..failing.value]))
              else r == Inserted(|Flatten(chunks)|) && rows == old(rows) + Rows(Flatten(chunks))
    {
      hide Rows, Flatten, Inserts;
      NothingFlattened();
      var inserted := 0;
      for i := 0 to |chunks|
        invariant failing.Some? ==> i <= failing.value
        invariant inserted == |Flatten(chunks[..i])|
        invariant rows == old(rows) + Rows(Flatten(chunks[..i]))
      {
        PrefixStep(chunks, i);
        if failing == Some(i) {
          return InsertFailed;
        }
        var statement := BuildInsert(chunks[i]);
        Execute(statement, Rows(chunks[i]));
        inserted := inserted + |chunks[i]|;
        FlattenSnoc(chunks[..i], chunks[i]);
        RowsConcat(Flatten(chunks[..i]), chunks[i]);
        Associative(old(rows), Rows(Flatten(chunks[..i])), Rows(chunks[i]));
      }
      assert chunks[..|chunks|] == chunks;
      return Inserted(inserted);
    }

    /** Stages `payloads`; when chunk `failing` throws, the chunks before it stay inserted. */
    method DumpRawPayloads(payloads: seq<Payload>, ingested: set<int>, parse: string -> Option<int>,
          failing: Option<nat>)
      returns (r: Staged)
      modifies this
      ensures var staged := Fresh(payloads, ExistingKeys(payloads, old(rows), ingested, parse));
              var chunks := Chunks(staged, CHUNK_SIZE);
              if failing.Some? && failing.value < |chunks|
              then r == InsertFailed && rows == old(rows) + Rows(Flatten(chunks[..failing.value]))
              else r == Inserted(|staged|) && rows == old(rows) + Rows(staged)
    {
      hide ExistingKeys, Fresh, Chunks, Rows, Flatten;
      var existing := ExistingKeys(payloads, rows, ingested, parse);
      var toInsert := FilterPayloads(payloads, existing);
      var chunks := ChunkArray(toInsert, CHUNK_SIZE);
      ChunksExact(toInsert, CHUNK_SIZE);
      r := InsertChunks(chunks, failing);
    }
  }

  lemma NothingFlattened()
    ensures Flatten<Payload>([]) == [] && Rows([]) == []
  {
  }

  lemma RowsConcat(a: seq<Payload>, b: seq<Payload>)
    ensures Rows(a + b) == Rows(a) + Rows(b)
  {
  }

  lemma {:induction false} FlattenSnoc<T>(chunks: seq<seq<T>>, last: seq<T>)
    ensures Flatten(chunks + [last]) == Flatten(chunks) + last
  {
    if chunks == [] {
      assert Flatten([last]) == last + Flatten([]) by { assert [last][1..] == []; }
      assert [] + [last] == [last];
    } else {
      FlattenSnoc(chunks[1..], last);
      assert (chunks + [last])[1..] == chunks[1..] + [last];
    }
  }

  // ------------------------------------------------------------- what deduplication means

  ghost predicate Ascending(positions: seq<nat>, bound: nat) {
    && (forall i, j :: 0 <= i < j < |positions| ==> positions[i] < positions[j])
    && (forall i :: 0 <= i < |positions| ==> positions[i] < bound)
  }

  /** The positions of the kept payloads. */
  function Positions(payloads: seq<Payload>, existing: set<string>): seq<nat> {
    if payloads == [] then []
    else
      var n := |payloads| - 1;
      Positions(payloads[..n], existing)
      + if Fresh(payloads, existing) == Fresh(payloads[..n], existing) then [] else [n]
  }

  lemma PositionsSnoc(payloads: seq<Payload>, p: Payload, existing: set<string>)
    ensures Positions(payloads + [p], existing)
         == Positions(payloads, existing)
            + if Fresh(payloads + [p], existing) == Fresh(payloads, existing) then [] else [|payloads|]
  {
    assert (payloads + [p])[..|payloads|] == payloads;
  }

  ghost predicate Selects(kept: seq<Payload>, at: seq<nat>, payloads: seq<Payload>) {
    && |at| == |kept|
    && Ascending(at, |payloads|)
    && forall k :: 0 <= k < |at| ==> kept[k] == payloads[at[k]]
  }

  lemma SelectsSnoc(kept: seq<Payload>, at: seq<nat>, payloads: seq<Payload>, p: Payload)
    requires Selects(kept, at, payloads)
    ensures Selects(kept, at, payloads + [p])
    ensures Selects(kept + [p], at + [|payloads|], payloads + [p])
  {
  }

  /** Kept payloads form an order-preserving subsequence. */
  lemma {:induction false} FreshIsSubsequence(payloads: seq<Payload>, existing: set<string>)
    ensures Selects(Fresh(payloads, existing), Positions(payloads, existing), payloads)
  {
    if payloads == [] {
    } else {
      var init, last := payloads[..|payloads| - 1], payloads[|payloads| - 1];
      hide Fresh, Keyed, KeyOf, KeyedKeys, Positions, Selects;
      FreshIsSubsequence(init, existing);
      Snoc(payloads);
      FreshSnoc(init, last, existing);
      PositionsSnoc(init, last, existing);
      SelectsSnoc(Fresh(init, existing), Positions(init, existing), init, last);
      NothingAdded(Positions(init, existing));
    }
  }

  function Unkeyed(): Payload -> bool {
    (p: Payload) => !Keyed(p)
  }

  /** Every unkeyed payload is kept, in order. */
  lemma {:induction false} UnkeyedAreKept(payloads: seq<Payload>, existing: set<string>)
    ensures Filter(Fresh(payloads, existing), Unkeyed()) == Filter(payloads, Unkeyed())
  {
    if payloads == [] {
    } else {
      hide Fresh, Keyed, KeyOf, Filter, KeyedKeys;
      var init, last := payloads[..|payloads| - 1], payloads[|payloads| - 1];
      UnkeyedAreKept(init, existing);
      Snoc(payloads);
      FreshSnoc(init, last, existing);
      FilterSnoc(init, last, Unkeyed());
      FilterSnoc(Fresh(init, existing), last, Unkeyed());
      NothingAdded(Filter(init, Unkeyed()));
    }
  }

  /** Exactly the keys that are new are staged. */
  lemma {:induction false} NewKeysExactly(payloads: seq<Payload>, existing: set<string>)
    ensures KeyedKeys(Fresh(payloads, existing)) == KeyedKeys(payloads) - existing
  {
    hide Fresh, Keyed, KeyOf, KeyedKeys;
    if payloads == [] {
      NothingFresh([], existing);
      NoKeys();
    } else {
      var init, last := payloads[..|payloads| - 1], payloads[|payloads| - 1];
      NewKeysExactly(init, existing);
      Snoc(payloads);
      FreshSnoc(init, last, existing);
      KeyedKeysSnoc(init, last);
      KeyedKeysSnoc(Fresh(init, existing), last);
    }
  }

  ghost predicate DistinctKeys(payloads: seq<Payload>) {
    forall i, j :: 0 <= i < j < |payloads| && Keyed(payloads[i]) && Keyed(payloads[j]) ==>
      KeyOf(payloads[i]) != KeyOf(payloads[j])
  }

  lemma DistinctKeysSnoc(payloads: seq<Payload>, p: Payload)
    requires DistinctKeys(payloads)
    requires Keyed(p) ==> KeyOf(p) !in KeyedKeys(payloads)
    ensures DistinctKeys(payloads + [p])
  {
    hide Keyed, KeyOf;
    forall i | 0 <= i < |payloads| && Keyed(payloads[i]) && Keyed(p) ensures KeyOf(payloads[i]) != KeyOf(p) {
      assert payloads[i] in payloads;
    }
  }

  /** No key is staged twice by one call. */
  lemma {:induction false} NoKeyTwice(payloads: seq<Payload>, existing: set<string>)
    ensures DistinctKeys(Fresh(payloads, existing))
  {
    if payloads == [] {
    } else {
      hide Fresh, Keyed, KeyOf, KeyedKeys, DistinctKeys;
      var init, last := payloads[..|payloads| - 1], payloads[|payloads| - 1];
      NoKeyTwice(init, existing);
      Snoc(payloads);
      FreshSnoc(init, last, existing);
      if Keyed(last) ==> KeyOf(last) !in KeyedKeys(Fresh(init, existing)) {
        DistinctKeysSnoc(Fresh(init, existing), last);
      }
    }
  }

  lemma {:induction false} NothingFresh(payloads: seq<Payload>, existing: set<string>)
    requires forall p :: p in payloads ==> Keyed(p) && KeyOf(p) in existing
    ensures Fresh(payloads, existing) == []
  {
    if payloads == [] {
    } else {
      assert payloads[|payloads| - 1] in payloads;
      NothingFresh(payloads[..|payloads| - 1], existing);
    }
  }

  // ------------------------------------------------------------------------ restaging

  lemma TypesHaveNoBar(t: string)
    requires t in DEDUPED_TYPES
    ensures '|' !in t
  {
  }

  /** Keys of deduplicated types are unambiguous. */
  lemma KeyInjective(t1: string, id1: string, t2: string, id2: string)
    requires '|' !in t1 && '|' !in t2
    requires Key(t1, id1) == Key(t2, id2)
    ensures t1 == t2 && id1 == id2
  {
    var k1, k2 := Key(t1, id1), Key(t2, id2);
    assert k1[|t1|] == '|' && k2[|t2|] == '|';
    forall i | 0 <= i < |t1| ensures k1[i] == t1[i] && t1[i] != '|' {}
    forall i | 0 <= i < |t2| ensures k2[i] == t2[i] && t2[i] != '|' {}
    assert |t1| == |t2|;
    assert k1[..|t1|] == t1 && k2[..|t2|] == t2;
    assert k1[|t1| + 1..] == id1 && k2[|t2| + 1..] == id2;
  }

  /** Exactly which staged rows keep a payload out. */
  lemma BufferKeyExactly(payloads: seq<Payload>, rows: seq<Row>, p: Payload)
    requires p in payloads && Keyed(p)
    ensures KeyOf(p) in BufferKeys(payloads, rows)
            <==> exists r :: r in rows && r.active && r.entityType == p.entityType && r.entityId == IdText(p.entityId)
  {
    hide Digits;
    TypesHaveNoBar(p.entityType);
    if KeyOf(p) in BufferKeys(payloads, rows) {
      var r :| r in rows && r.active
               && (exists q :: q in payloads && Keyed(q) && q.entityType == r.entityType)
               && Key(r.entityType, r.entityId) == KeyOf(p);
      TypesHaveNoBar(r.entityType);
      KeyInjective(r.entityType, r.entityId, p.entityType, IdText(p.entityId));
    }
  }

  // Decimal text determines its number.

  function ValueOf(s: string): int {
    if s == [] then 0 else 10 * ValueOf(s[..|s| - 1]) + (s[|s| - 1] as int - '0' as int)
  }

  lemma {:induction false} DigitsExact(n: nat)
    ensures ValueOf(Digits(n)) == n
    ensures Digits(n) != "" && '-' !in Digits(n)
  {
    if n < 10 {
      assert Digits(n)[..0] == [];
    } else {
      DigitsExact(n / 10);
      assert Digits(n)[..|Digits(n)| - 1] == Digits(n / 10);
    }
  }

  lemma DecimalInjective(m: int, n: int)
    requires Decimal(m) == Decimal(n)
    ensures m == n
  {
    hide Digits, ValueOf;
    DigitsExact(if m < 0 then -m else m);
    DigitsExact(if n < 0 then -n else n);
    if m < 0 && n < 0 {
      assert Decimal(m)[1..] == Digits(-m) && Decimal(n)[1..] == Digits(-n);
    } else {
      assert Decimal(m)[0] == '-' <==> m < 0;
      assert Decimal(n)[0] == '-' <==> n < 0;
    }
  }

  /** Ids other than the number zero are stored under the text they are deduplicated by. */
  lemma StoredIdExactly(id: EntityId)
    ensures StoredId(id) == IdText(id) <==> id != NumberId(0)
  {
    DigitsExact(0);
  }

  /** `Number(String(n)) == n`. */
  ghost predicate ParsesDecimals(parse: string -> Option<int>) {
    forall n :: parse(Decimal(n)) == Some(n)
  }

  lemma IngestedStaysIngested(payloads: seq<Payload>, ingested: set<int>, parse: string -> Option<int>,
                              again: seq<Payload>, p: Payload)
    requires ParsesDecimals(parse)
    requires p in payloads && p in again && Keyed(p)
    ensures KeyOf(p) in MatchKeys(payloads, ingested, parse) ==> KeyOf(p) in MatchKeys(again, ingested, parse)
  {
    hide Digits, Decimal;
    TypesHaveNoBar(p.entityType);
    TypesHaveNoBar("match");
    if KeyOf(p) in MatchKeys(payloads, ingested, parse) {
      var id :| id in ingested && id > 0 && Key("match", Decimal(id)) == KeyOf(p);
      KeyInjective("match", Decimal(id), p.entityType, IdText(p.entityId));
      if p.entityId.NumberId? {
        DecimalInjective(id, p.entityId.n);
      }
      assert parse(Decimal(id)) == Some(id);
      NonEmptyDecimal(id);
      assert NumberOf(p.entityId, parse) == Some(id);
    }
  }

  lemma NonEmptyDecimal(n: int)
    ensures Decimal(n) != ""
  {
    DigitsExact(if n < 0 then -n else n);
  }

  /** Exactly which ingested matches keep a payload out: those whose plain decimal id it carries. */
  lemma MatchKeyExactly(payloads: seq<Payload>, ingested: set<int>, parse: string -> Option<int>, p: Payload)
    requires ParsesDecimals(parse) && p in payloads && Keyed(p)
    ensures KeyOf(p) in MatchKeys(payloads, ingested, parse)
            <==> p.entityType == "match" && exists id :: id in ingested && id > 0 && IdText(p.entityId) == Decimal(id)
  {
    hide Digits, Decimal;
    TypesHaveNoBar(p.entityType);
    TypesHaveNoBar("match");
    if KeyOf(p) in MatchKeys(payloads, ingested, parse) {
      var id :| id in ingested && id > 0 && Key("match", Decimal(id)) == KeyOf(p);
      KeyInjective("match", Decimal(id), p.entityType, IdText(p.entityId));
    }
    forall id | id in ingested && id > 0 && IdText(p.entityId) == Decimal(id) && p.entityType == "match"
      ensures KeyOf(p) in MatchKeys(payloads, ingested, parse)
    {
      if p.entityId.NumberId? {
        DecimalInjective(id, p.entityId.n);
      }
      assert parse(Decimal(id)) == Some(id);
      NonEmptyDecimal(id);
      assert NumberOf(p.entityId, parse) == Some(id);
    }
  }

  /** Its kind and id already wait in an active row, or it is a match that is ingested. */
  ghost predicate KnownAlready(p: Payload, rows: seq<Row>, ingested: set<int>) {
    || (exists r :: r in rows && r.active && r.entityType == p.entityType && r.entityId == IdText(p.entityId))
    || (p.entityType == "match" && exists id :: id in ingested && id > 0 && IdText(p.entityId) == Decimal(id))
  }

  /** The key of a keyed payload is staged exactly when neither the buffer nor the matches know it. */
  lemma StagedExactly(payloads: seq<Payload>, rows: seq<Row>, ingested: set<int>, parse: string -> Option<int>,
        p: Payload)
    requires ParsesDecimals(parse) && p in payloads && Keyed(p)
    ensures KeyOf(p) in KeyedKeys(Fresh(payloads, ExistingKeys(payloads, rows, ingested, parse)))
            <==> !KnownAlready(p, rows, ingested)
  {
    hide Keyed, KeyOf, BufferKeys, MatchKeys, Fresh, Decimal, ParsesDecimals;
    NewKeysExactly(payloads, ExistingKeys(payloads, rows, ingested, parse));
    BufferKeyExactly(payloads, rows, p);
    MatchKeyExactly(payloads, ingested, parse, p);
    assert KeyOf(p) in KeyedKeys(payloads);
  }

  /** Position `i` holds `p` and no keyed payload before it has its key. */
  ghost predicate FirstWithKey(payloads: seq<Payload>, i: nat, p: Payload) {
    && i < |payloads| && payloads[i] == p
    && forall j :: 0 <= j < i && Keyed(payloads[j]) ==> KeyOf(payloads[j]) != KeyOf(p)
  }

  /** Of the payloads with one key the first is staged. */
  lemma {:induction false} StagedIsFirst(payloads: seq<Payload>, existing: set<string>, p: Payload)
    requires p in Fresh(payloads, existing) && Keyed(p)
    ensures exists i :: FirstWithKey(payloads, i, p)
  {
    hide Keyed, KeyOf, Fresh, KeyedKeys;
    if payloads == [] {
      NothingFresh([], existing);
    } else {
      var init, last := payloads[..|payloads| - 1], payloads[|payloads| - 1];
      Snoc(payloads);
      FreshSnoc(init, last, existing);
      if p in Fresh(init, existing) {
        StagedIsFirst(init, existing, p);
        var i :| FirstWithKey(init, i, p);
        assert FirstWithKey(payloads, i, p);
      } else {
        NewKeysExactly(init, existing);
        NewcomerIsFirst(init, p, existing);
        assert FirstWithKey(payloads, |init|, p);
      }
    }
  }

  lemma NewcomerIsFirst(init: seq<Payload>, p: Payload, existing: set<string>)
    requires Keyed(p) && p in Fresh(init + [p], existing) && p !in Fresh(init, existing)
    ensures forall j :: 0 <= j < |init| && Keyed(init[j]) ==> KeyOf(init[j]) != KeyOf(p)
  {
    hide Keyed, KeyOf, Fresh;
    FreshSnoc(init, p, existing);
    NewKeysExactly(init, existing);
    forall j | 0 <= j < |init| && Keyed(init[j])
      ensures KeyOf(init[j]) != KeyOf(p)
    {
      assert init[j] in init;
      assert KeyOf(init[j]) in KeyedKeys(init);
    }
  }

  /** A staged row is its payload, waiting; the number zero is stored as an empty id. */
  lemma StagedRowsExactly(payloads: seq<Payload>, k: nat)
    requires k < |payloads|
    ensures var r, p := Rows(payloads)[k], payloads[k];
            && r.active && r.raw == p.raw && r.endpoint == p.endpoint && r.entityType == p.entityType
            && r.entityId == if p.entityId == NumberId(0) then "" else IdText(p.entityId)
  {
    hide Digits, Decimal;
    StoredIdExactly(payloads[k].entityId);
  }

  lemma StagedRowFound(staged: seq<Payload>, p: Payload)
    requires Keyed(p) && KeyOf(p) in KeyedKeys(staged) && IdText(p.entityId) != Decimal(0)
    ensures exists r :: && r in Rows(staged) && r.active
                        && r.entityType == p.entityType && r.entityId == IdText(p.entityId)
  {
    hide Digits, Decimal;
    var q :| q in staged && Keyed(q) && KeyOf(q) == KeyOf(p);
    TypesHaveNoBar(p.entityType);
    TypesHaveNoBar(q.entityType);
    KeyInjective(q.entityType, IdText(q.entityId), p.entityType, IdText(p.entityId));
    StoredIdExactly(q.entityId);
    var i :| 0 <= i < |staged| && staged[i] == q;
    assert Rows(staged)[i] == RowOf(q);
    assert RowOf(q) in Rows(staged);
  }

  lemma StagedOnce(payloads: seq<Payload>, rows: seq<Row>, ingested: set<int>, parse: string -> Option<int>,
                   again: seq<Payload>, p: Payload)
    requires ParsesDecimals(parse)
    requires p in again && p in payloads && Keyed(p) && IdText(p.entityId) != Decimal(0)
    ensures var staged := Fresh(payloads, ExistingKeys(payloads, rows, ingested, parse));
            KeyOf(p) in ExistingKeys(again, rows + Rows(staged), ingested, parse)
  {
    hide Keyed, KeyOf, BufferKeys, MatchKeys, Fresh, Rows, Decimal, ParsesDecimals;
    var existing := ExistingKeys(payloads, rows, ingested, parse);
    var staged := Fresh(payloads, existing);
    NewKeysExactly(payloads, existing);
    BufferKeyExactly(again, rows + Rows(staged), p);
    if KeyOf(p) !in existing {
      assert KeyOf(p) in KeyedKeys(payloads);
      StagedRowFound(staged, p);
    } else if KeyOf(p) in BufferKeys(payloads, rows) {
      BufferKeyExactly(payloads, rows, p);
    } else {
      IngestedStaysIngested(payloads, ingested, parse, again, p);
    }
  }

  /**
   * While the staged rows stay active, restaging any keyed payloads among those just staged
   * inserts nothing, as long as none of them is numbered zero.
   */
  lemma RestagingInsertsNothing(payloads: seq<Payload>, rows: seq<Row>, ingested: set<int>,
        parse: string -> Option<int>,
                                again: seq<Payload>)
    requires ParsesDecimals(parse)
    requires forall p :: p in again ==> p in payloads && Keyed(p) && IdText(p.entityId) != Decimal(0)
    ensures var staged := Fresh(payloads, ExistingKeys(payloads, rows, ingested, parse));
            Fresh(again, ExistingKeys(again, rows + Rows(staged), ingested, parse)) == []
  {
    hide ExistingKeys, Fresh, Keyed, KeyOf, Decimal, Rows, ParsesDecimals;
    var staged := Fresh(payloads, ExistingKeys(payloads, rows, ingested, parse));
    var existing := ExistingKeys(again, rows + Rows(staged), ingested, parse);
    forall p | p in again ensures KeyOf(p) in existing {
      StagedOnce(payloads, rows, ingested, parse, again, p);
    }
    NothingFresh(again, existing);
  }

  ghost predicate HasActive(rows: seq<Row>, entityType: string, id: string) {
    exists r :: r in rows && r.active && r.entityType == entityType && r.entityId == id
  }

  function StageOne(p: Payload, rows: seq<Row>, ingested: set<int>, parse: string -> Option<int>): seq<Payload> {
    Fresh([p], ExistingKeys([p], rows, ingested, parse))
  }

  lemma StageOneExactly(p: Payload, rows: seq<Row>, ingested: set<int>, parse: string -> Option<int>)
    requires Keyed(p)
    ensures StageOne(p, rows, ingested, parse)
         == if HasActive(rows, p.entityType, IdText(p.entityId)) || KeyOf(p) in MatchKeys([p], ingested, parse)
            then [] else [p]
  {
    hide Keyed, KeyOf, BufferKeys, MatchKeys, Fresh;
    BufferKeyExactly([p], rows, p);
    FreshSnoc([], p, ExistingKeys([p], rows, ingested, parse));
    NothingFresh([], ExistingKeys([p], rows, ingested, parse));
    NoKeys();
    assert [] + [p] == [p];
  }

  lemma ZeroIsNoMatch(p: Payload, ingested: set<int>, parse: string -> Option<int>)
    requires Keyed(p) && p.entityId == NumberId(0)
    ensures KeyOf(p) !in MatchKeys([p], ingested, parse)
  {
    hide Digits, Decimal;
    TypesHaveNoBar(p.entityType);
    TypesHaveNoBar("match");
    forall id | id in ingested && id > 0 ensures Key("match", Decimal(id)) != KeyOf(p) {
      if Key("match", Decimal(id)) == KeyOf(p) {
        KeyInjective("match", Decimal(id), p.entityType, IdText(p.entityId));
        DecimalInjective(id, 0);
      }
    }
  }

  /**
   * A payload staged alone is kept out the second time exactly when its id is not the number
   * zero, whose stored text is empty, or a row happens to carry the text "0" already.
   */
  lemma RestagedExactly(p: Payload, rows: seq<Row>, ingested: set<int>, parse: string -> Option<int>)
    requires Keyed(p)
    ensures var first := StageOne(p, rows, ingested, parse);
            StageOne(p, rows + Rows(first), ingested, parse) == []
            <==> p.entityId != NumberId(0) || HasActive(rows, p.entityType, Decimal(0))
  {
    hide Keyed, KeyOf, MatchKeys, Digits, StageOne, Decimal;
    var first := StageOne(p, rows, ingested, parse);
    StageOneExactly(p, rows, ingested, parse);
    StageOneExactly(p, rows + Rows(first), ingested, parse);
    StoredIdExactly(p.entityId);
    if p.entityId == NumberId(0) {
      ZeroIsNoMatch(p, ingested, parse);
    }
    if first == [p] {
      assert Rows(first) == [RowOf(p)];
      assert RowOf(p) in rows + Rows(first);
    }
  }
}
