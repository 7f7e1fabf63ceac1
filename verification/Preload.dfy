/**
 * Preload of orm/preload.go: parents and their children in one query each
 * (one per chunk of parent ids), grouped into one shared array.
 */
module Preload {
  import opened Basics
  import opened Predicates
  import opened InChunks
  import opened Query
  import opened KeyedPages

  // --------------------------------------------------- the N+1 plan, its spec

  /** The child query: rows in the order it asks for, and the foreign key as SQL and as Go see it. */
  datatype ChildQuery<!K(==), !C> = ChildQuery(
    table: seq<C>, view: C -> Row, where: Node, shape: Shape,
    fk: string, toValue: K -> Value, fkOf: C -> K)

  function WhereIn<K(==), C>(q: ChildQuery<K, C>, ids: seq<K>): Node {
    AddWhere(q.where, InList(q.fk, false, seq(|ids|, i requires 0 <= i < |ids| => q.toValue(ids[i]))))
  }

  /** The children of these ids, before LIMIT and OFFSET. */
  function Selected<K(==), C>(q: ChildQuery<K, C>, ids: seq<K>): seq<C> {
    Select(q.table, q.view, WhereIn(q, ids))
  }

  /** What one query per parent would fetch for the parent with this id. */
  function ChildrenOf<K(==), C>(q: ChildQuery<K, C>, id: K): seq<C> {
    Page(Selected(q, [id]), q.shape.limit, q.shape.offset)
  }

  /** A child that SQL says belongs to id is read back with id as its foreign key. */
  ghost predicate KeysReadBack<K(!new), C>(q: ChildQuery<K, C>) {
    forall c, id :: c in q.table && q.view(c).eq(q.fk, q.toValue(id)) == True ==> q.fkOf(c) == id
  }

  // ------------------------------------------------------------ the statements

  const IN_CHUNK_SIZE: int := 1000

  function Reserved<K(==), C>(q: ChildQuery<K, C>): nat {
    CountArgs(q.where) + (if q.shape.limit > 0 then 1 else 0) + (if q.shape.offset > 0 then 1 else 0)
  }

  /** preloadChunkSize */
  function ChunkSize<K(==), C>(q: ChildQuery<K, C>, maxParams: int): Result<nat, PlanError> {
    var room := maxParams - Reserved(q);
    var size := if room < IN_CHUNK_SIZE then room else IN_CHUNK_SIZE;
    if size < 1 then Err(InListTooLarge) else Ok(size)
  }

  /** Chunks are as large as the budget allows, up to a thousand ids; with no room for one there is none. */
  lemma ChunkSizeIsLargest<K, C>(q: ChildQuery<K, C>, maxParams: int, n: nat)
    ensures var others := CountArgs(q.where) + (if q.shape.limit > 0 then 1 else 0) + (if q.shape.offset > 0 then 1 else 0);
            match ChunkSize(q, maxParams)
            case Err(e) => e == InListTooLarge && (n > 0 ==> others + n > maxParams)
            case Ok(size) => 0 < size && (n <= size <==> n <= 1000 && others + n <= maxParams)
  {
  }

  /** The statement for one chunk fits the budget, tail included, and is never fanned out. */
  lemma ChunkStatementFits<K, C>(q: ChildQuery<K, C>, maxParams: int, ids: seq<K>)
    requires ChunkSize(q, maxParams).Ok? && |ids| <= ChunkSize(q, maxParams).value
    ensures CountArgs(WhereIn(q, ids)) + Reserved(q) - CountArgs(q.where) <= maxParams
    ensures Plan(WhereIn(q, ids), maxParams) == Ok([WhereIn(q, ids)]) && FitsOne(WhereIn(q, ids), maxParams)
  {
    AddWhereCount(q.where, InList(q.fk, false, seq(|ids|, i requires 0 <= i < |ids| => q.toValue(ids[i]))));
  }

  /** The rows a chunk's statement returns. */
  function ChunkRows<K(==), C>(q: ChildQuery<K, C>, ids: seq<K>): seq<C> {
    Returned(q.table, q.view, WhereIn(q, ids), q.shape)
  }

  /** The statements for ids, size at a time. */
  function FetchAll<K(==), C>(q: ChildQuery<K, C>, ids: seq<K>, size: nat): seq<seq<C>> {
    if size == 0 || ids == [] then []
    else if |ids| <= size then [ChunkRows(q, ids)]
    else [ChunkRows(q, ids[..size])] + FetchAll(q, ids[size..], size)
  }

  lemma FetchAllStep<K, C>(q: ChildQuery<K, C>, ids: seq<K>, start: nat, end: nat, size: nat)
    requires size > 0 && start < |ids| && end == Min(start + size, |ids|)
    ensures FetchAll(q, ids[start..], size) == [ChunkRows(q, ids[start..end])] + FetchAll(q, ids[end..], size)
  {
    var rest := ids[start..];
    if |rest| <= size {
      assert rest == ids[start..end] && ids[end..] == [];
    } else {
      assert rest[..size] == ids[start..end] && rest[size..] == ids[end..];
    }
  }

  method FetchChunk<K(==), C>(q: ChildQuery<K, C>, ids: seq<K>, maxParams: int) returns (rows: Result<seq<C>, QueryError>)
    ensures ChunkSize(q, maxParams).Ok? && |ids| <= ChunkSize(q, maxParams).value ==> rows == Ok(ChunkRows(q, ids))
  {
    if ChunkSize(q, maxParams).Ok? && |ids| <= ChunkSize(q, maxParams).value {
      ChunkStatementFits(q, maxParams, ids);
    }
    rows := Stream(q.table, q.view, WhereIn(q, ids), maxParams, q.shape);
  }

  /** Each chunk's statement in turn; with the size that ChunkSize gives none of them fails. */
  method FetchChunks<K(==), C>(q: ChildQuery<K, C>, ids: seq<K>, size: nat, maxParams: int)
    returns (chunks: Result<seq<seq<C>>, QueryError>)
    requires size > 0
    ensures ChunkSize(q, maxParams) == Ok(size) ==> chunks == Ok(FetchAll(q, ids, size))
  {
    ghost var fits := ChunkSize(q, maxParams) == Ok(size);
    var out: seq<seq<C>> := [];
    var start := 0;
    assert ids[0..] == ids;
    while start < |ids|
      invariant 0 <= start <= |ids|
      invariant fits ==> out + FetchAll(q, ids[start..], size) == FetchAll(q, ids, size)
    {
      var end := start + size;
      if end > |ids| {
        end := |ids|;
      }
      var rows := FetchChunk(q, ids[start..end], maxParams);
      if rows.Err? {
        return Err(rows.error);
      }
      FetchAllStep(q, ids, start, end, size);
      out := out + [rows.value];
      start := end;
    }
    assert ids[start..] == [];
    assert out + FetchAll(q, ids[start..], size) == out;
    chunks := Ok(out);
  }

  // ------------------------------------- what the chunks hold, parent by parent

  /** Which rows the statement for ids returns, of those read back with key id. */
  lemma MatchesOne<K(!new), C(!new)>(q: ChildQuery<K, C>, ids: seq<K>, id: K, c: C)
    requires KeysReadBack(q) && c in q.table
    ensures Matches(WhereIn(q, ids), q.view(c)) && q.fkOf(c) == id <==>
              id in ids && Matches(WhereIn(q, [id]), q.view(c))
  {
    var row := q.view(c);
    var values := seq(|ids|, i requires 0 <= i < |ids| => q.toValue(ids[i]));
    var one := seq(1, i requires 0 <= i < 1 => q.toValue([id][i]));
    AddWhereMatches(q.where, InList(q.fk, false, values), row);
    AddWhereMatches(q.where, InList(q.fk, false, one), row);
    InTruthByMembers(row, q.fk, values);
    InTruthByMembers(row, q.fk, one);
    assert one == [q.toValue(id)];
    if id in ids {
      var i :| 0 <= i < |ids| && ids[i] == id;
      assert values[i] in values;
    }
  }

  lemma {:induction false} FilterOfSelect<K(!new), C(!new)>(
    q: ChildQuery<K, C>, table: seq<C>, ids: seq<K>, id: K)
    requires KeysReadBack(q) && forall i :: 0 <= i < |table| ==> table[i] in q.table
    ensures Filter(Select(table, q.view, WhereIn(q, ids)), (c: C) => q.fkOf(c) == id)
            == if id in ids then Select(table, q.view, WhereIn(q, [id])) else []
  {
    if table != [] {
      FilterOfSelect(q, table[1..], ids, id);
      MatchesOne(q, ids, id, table[0]);
    }
  }

  // ---------------------------------------------------------------- grouping

  /** Where one key's children are: start moves as they are filled in. */
  datatype Span = Span(start: nat, count: nat)

  lemma OfKeyAppend<K, C>(fkOf: C -> K, children: seq<C>, c: C, k: K)
    ensures OfKey(fkOf, children + [c], k) == OfKey(fkOf, children, k) + (if fkOf(c) == k then [c] else [])
  {
    FilterConcat(children, [c], (x: C) => fkOf(x) == k);
    assert [c][1..] == [];
  }

  /** A child still to come finds room in its key's share. */
  lemma OfKeyRoom<K, C>(fkOf: C -> K, done: seq<C>, c: C, rest: seq<C>)
    ensures |OfKey(fkOf, done, fkOf(c))| < |OfKey(fkOf, done + [c] + rest, fkOf(c))|
  {
    FilterConcat(done + [c], rest, (x: C) => fkOf(x) == fkOf(c));
    OfKeyAppend(fkOf, done, c, fkOf(c));
  }

  /** LIMIT and OFFSET do no harm to any chunk of ids. */
  ghost predicate ChunksHarmless<K(!new), C>(q: ChildQuery<K, C>, ids: seq<K>, size: nat)
    decreases |ids|
  {
    size > 0 && ids != [] ==>
      && Harmless(q.fkOf, Selected(q, ids[..Min(size, |ids|)]), q.shape.limit, q.shape.offset)
      && ChunksHarmless(q, ids[Min(size, |ids|)..], size)
  }

  lemma {:induction false} UnshapedIsHarmless<K(!new), C>(q: ChildQuery<K, C>, ids: seq<K>, size: nat)
    requires q.shape.limit <= 0 && q.shape.offset <= 0
    ensures ChunksHarmless(q, ids, size)
    decreases |ids|
  {
    if size > 0 && ids != [] {
      UnshapedIsHarmless(q, ids[Min(size, |ids|)..], size);
    }
  }

  // --------------------------------------------- what the chunks hold, together

  lemma SelectedOfKey<K(!new), C(!new)>(q: ChildQuery<K, C>, ids: seq<K>, k: K)
    requires KeysReadBack(q)
    ensures OfKey(q.fkOf, Selected(q, ids), k) == if k in ids then Selected(q, [k]) else []
  {
    FilterOfSelect(q, q.table, ids, k);
  }

  /** No chunk holds children of an id that is not in it. */
  lemma ChunkHasNoOthers<K(!new), C(!new)>(q: ChildQuery<K, C>, ids: seq<K>, k: K)
    requires KeysReadBack(q) && k !in ids
    ensures OfKey(q.fkOf, ChunkRows(q, ids), k) == []
  {
    SelectedOfKey(q, ids, k);
    OfKeyLength(q.fkOf, Selected(q, ids), k);
    OfKeyLength(q.fkOf, ChunkRows(q, ids), k);
  }

  /** A parent is given what a query of its own would return. */
  ghost predicate ServedAlike<K, C>(q: ChildQuery<K, C>, fetched: seq<C>, id: K) {
    OfKey(q.fkOf, fetched, id) == ChildrenOf(q, id)
  }

  ghost predicate AllServed<K(!new), C>(q: ChildQuery<K, C>, ids: seq<K>, fetched: seq<C>) {
    forall id :: id in ids ==> ServedAlike(q, fetched, id)
  }

  lemma ServedByChunk<K(!new), C(!new)>(q: ChildQuery<K, C>, ids: seq<K>)
    requires KeysReadBack(q)
    ensures PagedAlike(q.fkOf, Selected(q, ids), q.shape.limit, q.shape.offset)
            <==> AllServed(q, ids, ChunkRows(q, ids))
  {
    forall k
      ensures AlikeFor(q.fkOf, Selected(q, ids), q.shape.limit, q.shape.offset, k)
              <==> (k in ids ==> ServedAlike(q, ChunkRows(q, ids), k))
    {
      SelectedOfKey(q, ids, k);
      if k !in ids {
        ChunkHasNoOthers(q, ids, k);
      }
    }
  }

  /** What is fetched for an id is what its own chunk holds for it. */
  lemma FetchedFrom<K(!new), C(!new)>(q: ChildQuery<K, C>, ids: seq<K>, size: nat, k: K)
    requires size > 0 && ids != []
    ensures var cut := Min(size, |ids|);
            && ids == ids[..cut] + ids[cut..]
            && OfKey(q.fkOf, Concat(FetchAll(q, ids, size)), k)
               == OfKey(q.fkOf, ChunkRows(q, ids[..cut]), k) + OfKey(q.fkOf, Concat(FetchAll(q, ids[cut..], size)), k)
  {
    var cut := Min(size, |ids|);
    FetchAllStep(q, ids, 0, cut, size);
    assert ids[0..] == ids && ids[0..cut] == ids[..cut];
    OfKeyConcat(q.fkOf, ChunkRows(q, ids[..cut]), Concat(FetchAll(q, ids[cut..], size)), k);
    assert FetchAll(q, ids, size)[1..] == FetchAll(q, ids[cut..], size);
  }

  lemma {:induction false} NothingElseFetched<K(!new), C(!new)>(q: ChildQuery<K, C>, ids: seq<K>, size: nat, k: K)
    requires KeysReadBack(q) && size > 0 && k !in ids
    ensures OfKey(q.fkOf, Concat(FetchAll(q, ids, size)), k) == []
    decreases |ids|
  {
    if ids != [] {
      var cut := Min(size, |ids|);
      FetchedFrom(q, ids, size, k);
      ChunkHasNoOthers(q, ids[..cut], k);
      NothingElseFetched(q, ids[cut..], size, k);
    }
  }

  lemma ServedFrom<K(!new), C(!new)>(q: ChildQuery<K, C>, ids: seq<K>, size: nat, id: K)
    requires KeysReadBack(q) && size > 0 && Distinct(ids) && id in ids
    ensures var cut, all := Min(size, |ids|), Concat(FetchAll(q, ids, size));
            && (id in ids[..cut] ==> (ServedAlike(q, all, id) <==> ServedAlike(q, ChunkRows(q, ids[..cut]), id)))
            && (id in ids[cut..] ==> (ServedAlike(q, all, id) <==> ServedAlike(q, Concat(FetchAll(q, ids[cut..], size)), id)))
  {
    var cut := Min(size, |ids|);
    FetchedFrom(q, ids, size, id);
    if id in ids[..cut] {
      NothingElseFetched(q, ids[cut..], size, id);
    } else {
      ChunkHasNoOthers(q, ids[..cut], id);
    }
  }

  lemma ServedSplit<K(!new), C(!new)>(q: ChildQuery<K, C>, ids: seq<K>, size: nat)
    requires KeysReadBack(q) && size > 0 && Distinct(ids) && ids != []
    ensures var cut := Min(size, |ids|);
            AllServed(q, ids, Concat(FetchAll(q, ids, size)))
            <==> AllServed(q, ids[..cut], ChunkRows(q, ids[..cut])) && AllServed(q, ids[cut..], Concat(FetchAll(q, ids[cut..], size)))
  {
    var cut := Min(size, |ids|);
    assert ids == ids[..cut] + ids[cut..];
    forall id | id in ids
      ensures id in ids[..cut] ==> (ServedAlike(q, Concat(FetchAll(q, ids, size)), id) <==> ServedAlike(q, ChunkRows(q, ids[..cut]), id))
      ensures id in ids[cut..] ==> (ServedAlike(q, Concat(FetchAll(q, ids, size)), id) <==> ServedAlike(q, Concat(FetchAll(q, ids[cut..], size)), id))
    {
      ServedFrom(q, ids, size, id);
    }
  }

  lemma {:induction false} SelectDistinct<C>(rows: seq<C>, view: C -> Row, where: Node)
    requires Distinct(rows)
    ensures Distinct(Select(rows, view, where)) && forall i :: 0 <= i < |Select(rows, view, where)| ==> Select(rows, view, where)[i] in rows
  {
    if rows != [] {
      SelectDistinct(rows[1..], view, where);
    }
  }

  /**
   * Of all chunks together every id is served as by a query of its own if, and,
   * for an OFFSET and rows that differ or no OFFSET, only if LIMIT and OFFSET do
   * no harm to any chunk.
   */
  lemma {:induction false} FetchedAsAlone<K(!new), C(!new)>(q: ChildQuery<K, C>, ids: seq<K>, size: nat)
    requires KeysReadBack(q) && size > 0 && Distinct(ids)
    ensures ChunksHarmless(q, ids, size) ==> AllServed(q, ids, Concat(FetchAll(q, ids, size)))
    ensures q.shape.offset <= 0 || Distinct(q.table) ==>
              (AllServed(q, ids, Concat(FetchAll(q, ids, size))) <==> ChunksHarmless(q, ids, size))
    decreases |ids|
  {
    if ids != [] {
      var cut := Min(size, |ids|);
      ServedSplit(q, ids, size);
      ServedByChunk(q, ids[..cut]);
      FetchedAsAlone(q, ids[cut..], size);
      if Harmless(q.fkOf, Selected(q, ids[..cut]), q.shape.limit, q.shape.offset) {
        HarmlessIsAlike(q.fkOf, Selected(q, ids[..cut]), q.shape.limit, q.shape.offset);
      } else if q.shape.offset <= 0 || Distinct(q.table) {
        if Distinct(q.table) {
          SelectDistinct(q.table, q.view, WhereIn(q, ids[..cut]));
        }
        PagedAlikeExactly(q.fkOf, Selected(q, ids[..cut]), q.shape.limit, q.shape.offset);
      }
    }
  }

  /** The counting pass has seen done. */
  ghost predicate Counted<K(!new), C>(fkOf: C -> K, done: seq<C>, grouped: map<K, Span>) {
    && (forall k :: k in grouped ==> grouped[k] == Span(0, |OfKey(fkOf, done, k)|))
    && (forall k :: k !in grouped ==> OfKey(fkOf, done, k) == [])
  }

  lemma CountStep<K(!new), C>(fkOf: C -> K, done: seq<C>, grouped: map<K, Span>, c: C)
    requires Counted(fkOf, done, grouped)
    ensures var span := if fkOf(c) in grouped then grouped[fkOf(c)] else Span(0, 0);
            Counted(fkOf, done + [c], grouped[fkOf(c) := span.(count := span.count + 1)])
  {
    forall k ensures OfKey(fkOf, done + [c], k) == OfKey(fkOf, done, k) + (if fkOf(c) == k then [c] else []) {
      OfKeyAppend(fkOf, done, c, k);
    }
  }

  /** One pass over chunks up to chunk i, child j. */
  function Seen<C>(chunks: seq<seq<C>>, i: nat, j: nat): seq<C>
    requires i <= |chunks| && (i < |chunks| ==> j <= |chunks[i]|)
  {
    Concat(chunks[..i]) + if i < |chunks| then chunks[i][..j] else []
  }

  lemma SeenNext<C>(chunks: seq<seq<C>>, i: nat, j: nat)
    requires i < |chunks| && j < |chunks[i]|
    ensures Seen(chunks, i, j + 1) == Seen(chunks, i, j) + [chunks[i][j]]
  {
    assert chunks[i][..j + 1] == chunks[i][..j] + [chunks[i][j]];
  }

  lemma SeenRow<C>(chunks: seq<seq<C>>, i: nat)
    requires i < |chunks|
    ensures Seen(chunks, i, |chunks[i]|) == Seen(chunks, i + 1, 0)
  {
    assert chunks[..i + 1] == chunks[..i] + [chunks[i]];
    ConcatAppend(chunks[..i], chunks[i]);
  }

  lemma SeenAll<C>(chunks: seq<seq<C>>)
    ensures Seen(chunks, |chunks|, 0) == Concat(chunks)
  {
    assert chunks[..|chunks|] == chunks;
  }

  /** What is still to come after chunk i, child j. */
  lemma {:induction false} SeenRest<C>(chunks: seq<seq<C>>, i: nat, j: nat)
    requires i < |chunks| && j <= |chunks[i]|
    ensures Seen(chunks, i, j) + (chunks[i][j..] + Concat(chunks[i + 1..])) == Concat(chunks)
  {
    var begun, left := chunks[i][..j], chunks[i][j..] + Concat(chunks[i + 1..]);
    if i == 0 {
      assert chunks[..0] == [] && [] + begun == begun;
      PlusAssociates(begun, chunks[0][j..], Concat(chunks[1..]));
      assert begun + chunks[0][j..] == chunks[0];
    } else {
      var rest := chunks[1..];
      SeenRest(rest, i - 1, j);
      assert rest[..i - 1] == chunks[..i][1..] && rest[i..] == chunks[i + 1..];
      PlusAssociates(chunks[0], Concat(rest[..i - 1]), begun);
      PlusAssociates(chunks[0], Seen(rest, i - 1, j), left);
    }
  }

  method CountChildren<K(==, !new), C>(fkOf: C -> K, chunks: seq<seq<C>>) returns (grouped: map<K, Span>, total: nat)
    ensures Counted(fkOf, Concat(chunks), grouped) && total == |Concat(chunks)|
  {
    grouped, total := map[], 0;
    for i := 0 to |chunks|
      invariant Counted(fkOf, Seen(chunks, i, 0), grouped) && total == |Seen(chunks, i, 0)|
    {
      for j := 0 to |chunks[i]|
        invariant Counted(fkOf, Seen(chunks, i, j), grouped) && total == |Seen(chunks, i, j)|
      {
        var child := chunks[i][j];
        SeenNext(chunks, i, j);
        CountStep(fkOf, Seen(chunks, i, j), grouped, child);
        var span := if fkOf(child) in grouped then grouped[fkOf(child)] else Span(0, 0);
        grouped := grouped[fkOf(child) := span.(count := span.count + 1)];
        total := total + 1;
      }
      SeenRow(chunks, i);
    }
    SeenAll(chunks);
  }

  // ------------------------------------------------------------- offset pass

  predicate Within(span: Span, i: int) {
    span.start <= i < span.start + span.count
  }

  /** Shares of distinct keys do not overlap. */
  ghost predicate Disjoint<K(!new)>(spans: map<K, Span>, keys: set<K>)
    requires keys <= spans.Keys
  {
    forall k, l :: k in keys && l in keys && k != l ==>
      spans[k].start + spans[k].count <= spans[l].start || spans[l].start + spans[l].count <= spans[k].start
  }

  ghost predicate SomeHolds<K(!new)>(spans: map<K, Span>, keys: set<K>, i: int)
    requires keys <= spans.Keys
  {
    exists k :: k in keys && Within(spans[k], i)
  }

  /** The shares of keys fill the array up to end, without a gap or an overlap. */
  ghost predicate Tiles<K(!new)>(spans: map<K, Span>, keys: set<K>, end: nat)
    requires keys <= spans.Keys
  {
    && Disjoint(spans, keys)
    && (forall k :: k in keys ==> spans[k].start + spans[k].count <= end)
    && (forall i :: 0 <= i < end ==> SomeHolds(spans, keys, i))
  }

  lemma TilesStep<K(!new)>(spans: map<K, Span>, keys: set<K>, end: nat, k: K)
    requires keys <= spans.Keys && Tiles(spans, keys, end) && k in spans && k !in keys
    ensures var span := Span(end, spans[k].count); Tiles(spans[k := span], keys + {k}, end + span.count)
  {
    var span := Span(end, spans[k].count);
    var spans' := spans[k := span];
    forall i | 0 <= i < end + span.count ensures SomeHolds(spans', keys + {k}, i) {
      if i < end {
        assert SomeHolds(spans, keys, i);
        var l :| l in keys && Within(spans[l], i);
        assert Within(spans'[l], i);
      } else {
        assert Within(spans'[k], i);
      }
    }
  }

  /** The counts of grouped, starting anywhere. */
  ghost predicate SameCounts<K(!new)>(grouped: map<K, Span>, spans: map<K, Span>) {
    spans.Keys == grouped.Keys && forall k :: k in grouped ==> spans[k].count == grouped[k].count
  }

  /** How many children the keys have between them. */
  ghost function ShareOf<K(!new), C>(fkOf: C -> K, children: seq<C>, keys: set<K>): nat {
    |Filter(children, (c: C) => fkOf(c) in keys)|
  }

  lemma {:induction false} ShareStep<K(!new), C>(fkOf: C -> K, children: seq<C>, keys: set<K>, k: K)
    requires k !in keys
    ensures ShareOf(fkOf, children, keys + {k}) == ShareOf(fkOf, children, keys) + |OfKey(fkOf, children, k)|
  {
    if children != [] {
      ShareStep(fkOf, children[1..], keys, k);
    }
  }

  lemma {:induction false} ShareOfAll<K(!new), C>(fkOf: C -> K, children: seq<C>, keys: set<K>)
    requires forall i :: 0 <= i < |children| ==> fkOf(children[i]) in keys
    ensures ShareOf(fkOf, children, keys) == |children|
  {
    if children != [] {
      ShareOfAll(fkOf, children[1..], keys);
    }
  }

  lemma CountedKeys<K(!new), C>(fkOf: C -> K, children: seq<C>, grouped: map<K, Span>)
    requires Counted(fkOf, children, grouped)
    ensures forall i :: 0 <= i < |children| ==> fkOf(children[i]) in grouped
  {
    forall i | 0 <= i < |children| ensures fkOf(children[i]) in grouped {
      var k := fkOf(children[i]);
      assert children == children[..i] + [children[i]] + children[i + 1..];
      OfKeyRoom(fkOf, children[..i], children[i], children[i + 1..]);
      assert OfKey(fkOf, children, k) != [];
    }
  }

  /** Map iteration order is anybody's guess; any order tiles the array. */
  method AssignOffsets<K(==, !new), C>(grouped: map<K, Span>, ghost fkOf: C -> K, ghost children: seq<C>)
    returns (spans: map<K, Span>)
    requires Counted(fkOf, children, grouped)
    ensures SameCounts(grouped, spans) && Tiles(spans, spans.Keys, |children|)
  {
    spans := grouped;
    var offset: nat := 0;
    var todo := grouped.Keys;
    ShareStart(fkOf, children);
    assert grouped.Keys - todo == {};
    while todo != {}
      invariant todo <= grouped.Keys && SameCounts(grouped, spans)
      invariant Tiles(spans, grouped.Keys - todo, offset)
      invariant offset == ShareOf(fkOf, children, grouped.Keys - todo)
      decreases todo
    {
      var key :| key in todo;
      TilesStep(spans, grouped.Keys - todo, offset, key);
      ShareStep(fkOf, children, grouped.Keys - todo, key);
      var span := Span(offset, spans[key].count);
      spans := spans[key := span];
      offset := offset + span.count;
      assert grouped.Keys - (todo - {key}) == (grouped.Keys - todo) + {key};
      todo := todo - {key};
    }
    assert grouped.Keys - {} == spans.Keys;
    CountedKeys(fkOf, children, grouped);
    ShareOfAll(fkOf, children, spans.Keys);
  }

  lemma {:induction false} ShareStart<K(!new), C>(fkOf: C -> K, children: seq<C>)
    ensures ShareOf(fkOf, children, {}) == 0
  {
    if children != [] {
      ShareStart(fkOf, children[1..]);
    }
  }

  // --------------------------------------------------------------- fill pass

  /** Key k's share of the array holds the first of its children, in order. */
  predicate FilledKey<C(==)>(arr: seq<Option<C>>, span: Span, mine: seq<C>) {
    && |mine| <= span.count && span.start + span.count <= |arr|
    && forall i :: 0 <= i < |mine| ==> arr[span.start + i] == Some(mine[i])
  }

  /** The filling pass has seen done: each start has moved past what is filled in. */
  ghost predicate Filled<K(!new), C>(
    fkOf: C -> K, done: seq<C>, arr: seq<Option<C>>, spans: map<K, Span>, grouped: map<K, Span>) {
    && grouped.Keys == spans.Keys
    && (forall k :: k in spans ==> grouped[k] == Span(spans[k].start + |OfKey(fkOf, done, k)|, spans[k].count))
    && (forall k :: k in spans ==> FilledKey(arr, spans[k], OfKey(fkOf, done, k)))
  }

  lemma FillStep<K(!new), C>(
    fkOf: C -> K, done: seq<C>, arr: seq<Option<C>>, spans: map<K, Span>, grouped: map<K, Span>, c: C)
    requires Filled(fkOf, done, arr, spans, grouped) && Disjoint(spans, spans.Keys)
    requires fkOf(c) in spans && |OfKey(fkOf, done, fkOf(c))| < spans[fkOf(c)].count
    ensures var span := grouped[fkOf(c)];
            && span.start < |arr|
            && Filled(fkOf, done + [c], arr[span.start := Some(c)], spans, grouped[fkOf(c) := span.(start := span.start + 1)])
  {
    var k := fkOf(c);
    var span := grouped[k];
    var arr' := arr[span.start := Some(c)];
    assert FilledKey(arr, spans[k], OfKey(fkOf, done, k));
    forall l | l in spans
      ensures OfKey(fkOf, done + [c], l) == OfKey(fkOf, done, l) + (if k == l then [c] else [])
      ensures FilledKey(arr', spans[l], OfKey(fkOf, done + [c], l)) {
      OfKeyAppend(fkOf, done, c, l);
      assert FilledKey(arr, spans[l], OfKey(fkOf, done, l));
    }
  }

  /** A child still to be filled in has a share with room. */
  lemma RoomFor<K(!new), C>(
    fkOf: C -> K, chunks: seq<seq<C>>, i: nat, j: nat, counted: map<K, Span>, spans: map<K, Span>)
    requires i < |chunks| && j < |chunks[i]| && Counted(fkOf, Concat(chunks), counted) && SameCounts(counted, spans)
    ensures fkOf(chunks[i][j]) in spans
    ensures |OfKey(fkOf, Seen(chunks, i, j), fkOf(chunks[i][j]))| < spans[fkOf(chunks[i][j])].count
  {
    var done, c, rest := Seen(chunks, i, j), chunks[i][j], chunks[i][j + 1..] + Concat(chunks[i + 1..]);
    SeenNext(chunks, i, j);
    SeenRest(chunks, i, j + 1);
    assert done + [c] + rest == Concat(chunks);
    OfKeyRoom(fkOf, done, c, rest);
  }

  /** One child goes to where its key's share starts, and the start moves on. */
  method FillOne<K(==, !new), C>(
    fkOf: C -> K, ghost done: seq<C>, ghost spans: map<K, Span>, grouped: map<K, Span>, child: C, all: array<Option<C>>)
    returns (grouped': map<K, Span>)
    requires Filled(fkOf, done, all[..], spans, grouped) && Disjoint(spans, spans.Keys)
    requires fkOf(child) in spans && |OfKey(fkOf, done, fkOf(child))| < spans[fkOf(child)].count
    modifies all
    ensures Filled(fkOf, done + [child], all[..], spans, grouped')
  {
    ghost var before := all[..];
    FillStep(fkOf, done, before, spans, grouped, child);
    var span := grouped[fkOf(child)];
    all[span.start] := Some(child);
    assert all[..] == before[span.start := Some(child)];
    grouped' := grouped[fkOf(child) := span.(start := span.start + 1)];
  }

  lemma NothingFilled<K(!new), C>(fkOf: C -> K, arr: seq<Option<C>>, spans: map<K, Span>)
    requires Tiles(spans, spans.Keys, |arr|)
    ensures Filled(fkOf, [], arr, spans, spans)
  {
  }

  method FillChildren<K(==, !new), C>(
    fkOf: C -> K, chunks: seq<seq<C>>, ghost counted: map<K, Span>, spans: map<K, Span>, all: array<Option<C>>)
    returns (grouped: map<K, Span>)
    requires Counted(fkOf, Concat(chunks), counted) && SameCounts(counted, spans)
    requires Tiles(spans, spans.Keys, all.Length)
    modifies all
    ensures Filled(fkOf, Concat(chunks), all[..], spans, grouped)
  {
    grouped := spans;
    NothingFilled(fkOf, all[..], spans);
    for i := 0 to |chunks|
      invariant Filled(fkOf, Seen(chunks, i, 0), all[..], spans, grouped)
    {
      for j := 0 to |chunks[i]|
        invariant Filled(fkOf, Seen(chunks, i, j), all[..], spans, grouped)
      {
        RoomFor(fkOf, chunks, i, j, counted, spans);
        grouped := FillOne(fkOf, Seen(chunks, i, j), spans, grouped, chunks[i][j], all);
        SeenNext(chunks, i, j);
      }
      SeenRow(chunks, i);
    }
    SeenAll(chunks);
  }

  // ----------------------------------------------------------------- Preload

  /** A three-index slice of the shared array: nobody can append past hi. */
  datatype Slice = Slice(lo: nat, hi: nat, cap: nat)

  datatype ParentWithChildren<P> = ParentWithChildren(parent: P, children: Option<Slice>)

  /** The children a slice shows; nil shows none. */
  function Shown<C>(arr: seq<Option<C>>, slice: Option<Slice>): seq<Option<C>>
    requires slice.Some? ==> slice.value.lo <= slice.value.hi <= |arr|
  {
    match slice
    case None => []
    case Some(s) => arr[s.lo..s.hi]
  }

  function Somes<C>(children: seq<C>): seq<Option<C>> {
    seq(|children|, i requires 0 <= i < |children| => Some(children[i]))
  }

  /** The distinct keys of the rows, each where it first appears. */
  function DistinctKeys<P, K(==, !new)>(rows: seq<P>, parentID: P -> K): (ids: seq<K>)
    ensures Distinct(ids)
    ensures forall k :: k in ids <==> exists i :: 0 <= i < |rows| && parentID(rows[i]) == k
  {
    if rows == [] then []
    else
      var last := |rows| - 1;
      var before := DistinctKeys(rows[..last], parentID);
      assert forall k :: k in before ==> exists i :: 0 <= i < last && parentID(rows[..last][i]) == k && parentID(rows[i]) == k;
      assert forall i :: 0 <= i < last ==> parentID(rows[..last][i]) in before;
      if parentID(rows[last]) in before then before else before + [parentID(rows[last])]
  }

  /** A key first met later comes later: more rows only append. */
  lemma {:induction false} LaterKeysComeLater<P, K(!new)>(rows: seq<P>, parentID: P -> K, n: nat)
    requires n <= |rows|
    ensures DistinctKeys(rows[..n], parentID) <= DistinctKeys(rows, parentID)
    decreases |rows|
  {
    if n == |rows| {
      assert rows[..n] == rows;
    } else {
      var init := rows[..|rows| - 1];
      assert init[..n] == rows[..n];
      LaterKeysComeLater(init, parentID, n);
    }
  }

  /** Distinct parent keys, in order of first appearance. */
  method DistinctIds<P, K(==, !new)>(rows: seq<P>, parentID: P -> K) returns (ids: seq<K>)
    ensures ids == DistinctKeys(rows, parentID)
    ensures Distinct(ids)
    ensures forall n :: 0 <= n <= |rows| ==> DistinctKeys(rows[..n], parentID) <= ids
    ensures forall k :: k in ids <==> exists i :: 0 <= i < |rows| && parentID(rows[i]) == k
  {
    ids := [];
    var seen: set<K> := {};
    for i := 0 to |rows|
      invariant ids == DistinctKeys(rows[..i], parentID)
      invariant forall k :: k in seen <==> k in ids
    {
      assert rows[..i + 1][..i] == rows[..i];
      var id := parentID(rows[i]);
      if id !in seen {
        seen := seen + {id};
        ids := ids + [id];
      }
    }
    assert rows[..|rows|] == rows;
    forall n | 0 <= n <= |rows| ensures DistinctKeys(rows[..n], parentID) <= ids {
      LaterKeysComeLater(rows, parentID, n);
    }
  }

  /** The slice for one parent's key, once everything is filled in. */
  function SliceOf<K(==)>(grouped: map<K, Span>, id: K): (slice: Option<Slice>)
    requires id in grouped ==> grouped[id].count <= grouped[id].start
  {
    if id in grouped && grouped[id].count > 0
    then Some(Slice(grouped[id].start - grouped[id].count, grouped[id].start, grouped[id].start))
    else None
  }

  lemma SliceShows<K(!new), C>(
    fkOf: C -> K, children: seq<C>, arr: seq<Option<C>>, counted: map<K, Span>, spans: map<K, Span>,
    grouped: map<K, Span>, id: K)
    requires Counted(fkOf, children, counted) && SameCounts(counted, spans)
    requires Filled(fkOf, children, arr, spans, grouped)
    ensures id in grouped ==> grouped[id].count <= grouped[id].start
    ensures var slice := SliceOf(grouped, id);
            && (slice.Some? ==> id in spans && slice.value.lo == spans[id].start && slice.value.hi == spans[id].start + spans[id].count <= |arr|
                                && slice.value.cap == slice.value.hi)
            && Shown(arr, slice) == Somes(OfKey(fkOf, children, id))
            && (slice == None <==> OfKey(fkOf, children, id) == [])
  {
    if id in grouped {
      assert FilledKey(arr, spans[id], OfKey(fkOf, children, id));
    }
  }

  /** What one parent's entry is: its children and no others, in a slice that cannot grow into the next. */
  ghost predicate Attached<P, K(!new), C>(
    parentID: P -> K, fkOf: C -> K, fetched: seq<C>, row: P, entry: ParentWithChildren<P>, arr: seq<Option<C>>)
  {
    && entry.parent == row
    && (entry.children.Some? ==> entry.children.value.lo <= entry.children.value.hi == entry.children.value.cap <= |arr|)
    && Shown(arr, entry.children) == Somes(OfKey(fkOf, fetched, parentID(row)))
    && (entry.children == None <==> OfKey(fkOf, fetched, parentID(row)) == [])
  }

  predicate Covers<P>(entry: ParentWithChildren<P>, i: int) {
    entry.children.Some? && entry.children.value.lo <= i < entry.children.value.hi
  }

  /** out holds the entries of the first parents. */
  ghost predicate AllAttached<P, K(!new), C>(
    parentID: P -> K, fkOf: C -> K, fetched: seq<C>, spans: map<K, Span>, rows: seq<P>,
    out: seq<ParentWithChildren<P>>, arr: seq<Option<C>>)
  {
    && |out| <= |rows|
    && (forall i :: 0 <= i < |out| ==> Attached(parentID, fkOf, fetched, rows[i], out[i], arr))
    && (forall i :: 0 <= i < |out| && out[i].children.Some? ==> Placed(spans, parentID(rows[i]), out[i].children.value))
  }

  method AttachAll<P, K(==, !new), C>(
    rows: seq<P>, parentID: P -> K, ghost fkOf: C -> K, ghost fetched: seq<C>, ghost counted: map<K, Span>,
    ghost spans: map<K, Span>, grouped: map<K, Span>, ghost arr: seq<Option<C>>)
    returns (out: seq<ParentWithChildren<P>>)
    requires Counted(fkOf, fetched, counted) && SameCounts(counted, spans) && Filled(fkOf, fetched, arr, spans, grouped)
    ensures |out| == |rows| && AllAttached(parentID, fkOf, fetched, spans, rows, out, arr)
  {
    out := [];
    for i := 0 to |rows|
      invariant |out| == i && AllAttached(parentID, fkOf, fetched, spans, rows, out, arr)
    {
      SliceShows(fkOf, fetched, arr, counted, spans, grouped, parentID(rows[i]));
      out := out + [ParentWithChildren(rows[i], SliceOf(grouped, parentID(rows[i])))];
    }
  }

  predicate Placed<K(==)>(spans: map<K, Span>, k: K, slice: Slice) {
    k in spans && slice.lo == spans[k].start && slice.hi == spans[k].start + spans[k].count
  }

  /** Each place of the array belongs to the key of the child in it. */
  lemma PlaceHasOwner<K(!new), C>(fkOf: C -> K, fetched: seq<C>, counted: map<K, Span>, spans: map<K, Span>, i: nat) returns (k: K)
    requires Counted(fkOf, fetched, counted) && SameCounts(counted, spans)
    requires Tiles(spans, spans.Keys, |fetched|) && i < |fetched|
    ensures k in spans && Within(spans[k], i) && OfKey(fkOf, fetched, k) != []
  {
    assert SomeHolds(spans, spans.Keys, i);
    k :| k in spans && Within(spans[k], i);
    assert spans[k].count == |OfKey(fkOf, fetched, k)|;
  }

  /** One query per parent would have given exactly this. */
  ghost predicate LikeNaive<P, K(!new), C>(
    parentID: P -> K, q: ChildQuery<K, C>, row: P, entry: ParentWithChildren<P>, arr: seq<Option<C>>)
  {
    && entry.parent == row
    && (entry.children.Some? ==> entry.children.value.lo <= entry.children.value.hi == entry.children.value.cap <= |arr|)
    && Shown(arr, entry.children) == Somes(ChildrenOf(q, parentID(row)))
    && (entry.children == None <==> ChildrenOf(q, parentID(row)) == [])
  }

  /** Two parents share a slice when they have one key, and nothing otherwise. */
  ghost predicate Apart<P, K>(parentID: P -> K, rows: seq<P>, out: seq<ParentWithChildren<P>>)
    requires |out| == |rows|
  {
    forall i, j | 0 <= i < |rows| && 0 <= j < |rows| && out[i].children.Some? && out[j].children.Some? ::
      if parentID(rows[i]) == parentID(rows[j]) then out[i].children == out[j].children
      else out[i].children.value.hi <= out[j].children.value.lo || out[j].children.value.hi <= out[i].children.value.lo
  }

  predicate CoveredBy<P>(out: seq<ParentWithChildren<P>>, p: int) {
    exists i :: 0 <= i < |out| && Covers(out[i], p)
  }

  /** Every place of the shared array is in some parent's slice. */
  predicate Tiled<P>(out: seq<ParentWithChildren<P>>, n: nat) {
    forall p :: 0 <= p < n ==> CoveredBy(out, p)
  }

  lemma AttachedApart<P, K(!new), C>(
    parentID: P -> K, fkOf: C -> K, fetched: seq<C>, spans: map<K, Span>, rows: seq<P>,
    out: seq<ParentWithChildren<P>>, arr: seq<Option<C>>)
    requires |out| == |rows| && AllAttached(parentID, fkOf, fetched, spans, rows, out, arr)
    requires Disjoint(spans, spans.Keys)
    ensures Apart(parentID, rows, out)
  {
  }

  /** Nothing is fetched in vain: every place shows in the slice of a parent. */
  lemma AttachedTiles<P, K(!new), C(!new)>(
    parentID: P -> K, q: ChildQuery<K, C>, ids: seq<K>, size: nat, counted: map<K, Span>, spans: map<K, Span>,
    rows: seq<P>, out: seq<ParentWithChildren<P>>, arr: seq<Option<C>>)
    requires var fetched := Concat(FetchAll(q, ids, size));
             && |out| == |rows| && AllAttached(parentID, q.fkOf, fetched, spans, rows, out, arr)
             && Counted(q.fkOf, fetched, counted) && SameCounts(counted, spans)
             && Tiles(spans, spans.Keys, |fetched|) && |arr| == |fetched|
    requires size > 0 && KeysReadBack(q) && forall k :: k in ids <==> exists i :: 0 <= i < |rows| && parentID(rows[i]) == k
    ensures Tiled(out, |arr|)
  {
    var fetched := Concat(FetchAll(q, ids, size));
    forall p: nat | p < |arr| ensures CoveredBy(out, p) {
      var k := PlaceHasOwner(q.fkOf, fetched, counted, spans, p);
      if k !in ids {
        NothingElseFetched(q, ids, size, k);
      }
      var i :| 0 <= i < |rows| && parentID(rows[i]) == k;
      assert Attached(parentID, q.fkOf, fetched, rows[i], out[i], arr);
      assert Covers(out[i], p);
    }
  }

  /** Every parent has what one query per parent would have given. */
  ghost predicate AllLikeNaive<P, K(!new), C>(
    parentID: P -> K, q: ChildQuery<K, C>, rows: seq<P>, out: seq<ParentWithChildren<P>>, arr: seq<Option<C>>)
  {
    |out| == |rows| && forall i :: 0 <= i < |rows| ==> LikeNaive(parentID, q, rows[i], out[i], arr)
  }

  lemma SomesInjective<C>(a: seq<C>, b: seq<C>)
    ensures Somes(a) == Somes(b) <==> a == b
  {
    if Somes(a) == Somes(b) {
      assert |a| == |Somes(a)| == |b|;
      forall i | 0 <= i < |a| ensures a[i] == b[i] {
        assert Somes(a)[i] == Somes(b)[i];
      }
    }
  }

  /** What is attached is what the naive plan would attach exactly when each key's children are. */
  lemma AttachedIsNaive<P, K(!new), C(!new)>(
    parentID: P -> K, q: ChildQuery<K, C>, ids: seq<K>, size: nat, spans: map<K, Span>,
    rows: seq<P>, out: seq<ParentWithChildren<P>>, arr: seq<Option<C>>)
    requires |out| == |rows| && AllAttached(parentID, q.fkOf, Concat(FetchAll(q, ids, size)), spans, rows, out, arr)
    requires forall k :: k in ids <==> exists i :: 0 <= i < |rows| && parentID(rows[i]) == k
    ensures AllLikeNaive(parentID, q, rows, out, arr)
            <==> AllServed(q, ids, Concat(FetchAll(q, ids, size)))
  {
    var fetched := Concat(FetchAll(q, ids, size));
    forall i | 0 <= i < |rows|
      ensures parentID(rows[i]) in ids
      ensures LikeNaive(parentID, q, rows[i], out[i], arr) <==> ServedAlike(q, fetched, parentID(rows[i]))
    {
      assert Attached(parentID, q.fkOf, fetched, rows[i], out[i], arr);
      SomesInjective(OfKey(q.fkOf, fetched, parentID(rows[i])), ChildrenOf(q, parentID(rows[i])));
    }
  }

  lemma AttachedRight<P, K(!new), C(!new)>(
    parentID: P -> K, q: ChildQuery<K, C>, ids: seq<K>, size: nat, counted: map<K, Span>, spans: map<K, Span>,
    rows: seq<P>, out: seq<ParentWithChildren<P>>, arr: seq<Option<C>>)
    requires var fetched := Concat(FetchAll(q, ids, size));
             && |out| == |rows| && AllAttached(parentID, q.fkOf, fetched, spans, rows, out, arr)
             && Counted(q.fkOf, fetched, counted) && SameCounts(counted, spans)
             && Tiles(spans, spans.Keys, |fetched|) && |arr| == |fetched|
    requires size > 0 && KeysReadBack(q) && ids == DistinctKeys(rows, parentID)
    ensures Tiled(out, |arr|)
    ensures q.shape.limit <= 0 && q.shape.offset <= 0 ==> AllLikeNaive(parentID, q, rows, out, arr)
    ensures ChunksHarmless(q, ids, size) ==> AllLikeNaive(parentID, q, rows, out, arr)
    ensures q.shape.offset <= 0 || Distinct(q.table) ==>
              (AllLikeNaive(parentID, q, rows, out, arr) <==> ChunksHarmless(q, ids, size))
  {
    AttachedTiles(parentID, q, ids, size, counted, spans, rows, out, arr);
    AttachedIsNaive(parentID, q, ids, size, spans, rows, out, arr);
    FetchedAsAlone(q, ids, size);
    if q.shape.limit <= 0 && q.shape.offset <= 0 {
      UnshapedIsHarmless(q, ids, size);
    }
  }

  /**
   * Preload, for parents already fetched. It fails exactly when the child
   * query's own arguments leave no room for an id. Each parent gets what a query
   * of its own would have returned, in that order, whatever the budget, chunk
   * size and map order, if LIMIT and OFFSET do no harm to any chunk; without
   * them, always. Otherwise some parent gets something else.
   */
  method Preload<P, K(==, !new), C(!new)>(rows: seq<P>, parentID: P -> K, q: ChildQuery<K, C>, maxParams: int)
    returns (r: Result<seq<ParentWithChildren<P>>, PlanError>, all: array<Option<C>>)
    ensures r.Ok? <==> rows == [] || Reserved(q) < maxParams
    ensures r.Ok? ==> |r.value| == |rows| && Apart(parentID, rows, r.value)
    ensures r.Ok? && KeysReadBack(q) ==> Tiled(r.value, all.Length)
    ensures r.Ok? && KeysReadBack(q) && q.shape.limit <= 0 && q.shape.offset <= 0 ==>
              AllLikeNaive(parentID, q, rows, r.value, all[..])
    ensures r.Ok? && rows != [] && KeysReadBack(q) ==>
              (ChunksHarmless(q, DistinctKeys(rows, parentID), ChunkSize(q, maxParams).value) ==>
                 AllLikeNaive(parentID, q, rows, r.value, all[..]))
    ensures r.Ok? && rows != [] && KeysReadBack(q) && (q.shape.offset <= 0 || Distinct(q.table)) ==>
              (ChunksHarmless(q, DistinctKeys(rows, parentID), ChunkSize(q, maxParams).value) <==>
                 AllLikeNaive(parentID, q, rows, r.value, all[..]))
  {
    all := new Option<C>[0];
    if rows == [] {
      return Ok([]), all;
    }
    var ids := DistinctIds(rows, parentID);
    var size := ChunkSize(q, maxParams);
    if size.Err? {
      return Err(size.error), all;
    }
    var chunks := FetchChunks(q, ids, size.value, maxParams);
    if chunks.Err? {
      assert false;
    }
    ghost var fetched := Concat(chunks.value);
    var counted, total := CountChildren(q.fkOf, chunks.value);
    var spans := AssignOffsets(counted, q.fkOf, fetched);
    all := new Option<C>[total](_ => None);
    var grouped := FillChildren(q.fkOf, chunks.value, counted, spans, all);
    var out := AttachAll(rows, parentID, q.fkOf, fetched, counted, spans, grouped, all[..]);
    AttachedApart(parentID, q.fkOf, fetched, spans, rows, out, all[..]);
    if KeysReadBack(q) {
      AttachedRight(parentID, q, ids, size.value, counted, spans, rows, out, all[..]);
    }
    r := Ok(out);
  }
}
