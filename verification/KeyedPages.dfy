/**
 * LIMIT and OFFSET on rows of several keys: when a page of all rows leaves each
 * key what a page of its own rows would. Preload asks this of each chunk.
 */
module KeyedPages {
  import opened Basics
  import opened Query

  /** The children with key k. */
  function OfKey<K(==), C>(fkOf: C -> K, children: seq<C>, k: K): seq<C> {
    Filter(children, (c: C) => fkOf(c) == k)
  }

  lemma OfKeyConcat<K, C>(fkOf: C -> K, a: seq<C>, b: seq<C>, k: K)
    ensures OfKey(fkOf, a + b, k) == OfKey(fkOf, a, k) + OfKey(fkOf, b, k)
  {
    FilterConcat(a, b, (c: C) => fkOf(c) == k);
  }

  lemma {:induction false} OfKeyLength<K, C>(fkOf: C -> K, s: seq<C>, k: K)
    ensures |OfKey(fkOf, s, k)| <= |s|
    ensures |OfKey(fkOf, s, k)| == |s| <==> forall i :: 0 <= i < |s| ==> fkOf(s[i]) == k
    ensures |OfKey(fkOf, s, k)| == |s| ==> OfKey(fkOf, s, k) == s
    ensures OfKey(fkOf, s, k) == [] <==> forall i :: 0 <= i < |s| ==> fkOf(s[i]) != k
  {
    if s != [] {
      OfKeyLength(fkOf, s[1..], k);
      assert s == [s[0]] + s[1..];
    }
  }

  lemma {:induction false} OfKeyDistinct<K, C>(fkOf: C -> K, s: seq<C>, k: K)
    requires Distinct(s)
    ensures Distinct(OfKey(fkOf, s, k)) && forall i :: 0 <= i < |OfKey(fkOf, s, k)| ==> OfKey(fkOf, s, k)[i] in s
  {
    if s != [] {
      OfKeyDistinct(fkOf, s[1..], k);
    }
  }

  predicate OneKey<K(==), C>(fkOf: C -> K, rows: seq<C>) {
    forall i :: 0 <= i < |rows| ==> fkOf(rows[i]) == fkOf(rows[0])
  }

  /** LIMIT and OFFSET on all rows leave each key what they leave of its own rows. */
  ghost predicate PagedAlike<K(!new), C>(fkOf: C -> K, rows: seq<C>, limit: int, offset: int) {
    forall k :: AlikeFor(fkOf, rows, limit, offset, k)
  }

  ghost predicate AlikeFor<K, C>(fkOf: C -> K, rows: seq<C>, limit: int, offset: int, k: K) {
    OfKey(fkOf, Page(rows, limit, offset), k) == Page(OfKey(fkOf, rows, k), limit, offset)
  }

  /** The rows that OFFSET skips and LIMIT lets through. */
  function Head<C>(rows: seq<C>, limit: int, offset: nat): seq<C> {
    if limit <= 0 then rows else rows[..Min(offset + limit, |rows|)]
  }

  /**
   * When they do: all rows fit, or there is one key; with an OFFSET, all rows are
   * skipped, or one key has all rows up to the end of the page and no other key
   * has more rows than are skipped.
   */
  ghost predicate Harmless<K(!new), C>(fkOf: C -> K, rows: seq<C>, limit: int, offset: int) {
    if offset <= 0 then limit <= 0 || |rows| <= limit || OneKey(fkOf, rows)
    else
      || |rows| <= offset
      || (OneKey(fkOf, Head(rows, limit, offset)) && forall k :: k != fkOf(rows[0]) ==> |OfKey(fkOf, rows, k)| <= offset)
  }

  lemma OneKeyAlike<K, C>(fkOf: C -> K, rows: seq<C>, limit: int, offset: int, k: K)
    requires OneKey(fkOf, rows)
    ensures AlikeFor(fkOf, rows, limit, offset, k)
  {
    OfKeyLength(fkOf, rows, k);
    OfKeyLength(fkOf, Page(rows, limit, offset), k);
  }

  /** A page cut from the rows of one key is that key's page. */
  lemma HeadAlike<C>(head: seq<C>, own: seq<C>, limit: int, offset: int)
    requires 0 < offset < |head| && (if limit <= 0 then own == [] else |head| == offset + limit || (own == [] && |head| < offset + limit))
    ensures Page(head + own, limit, offset) == head[offset..]
  {
  }

  lemma HeadKeyAlike<K(!new), C>(fkOf: C -> K, rows: seq<C>, limit: int, offset: int)
    requires 0 < offset < |rows| && Harmless(fkOf, rows, limit, offset)
    ensures AlikeFor(fkOf, rows, limit, offset, fkOf(rows[0]))
  {
    var head, k := Head(rows, limit, offset), fkOf(rows[0]);
    var tail := rows[|head|..];
    assert rows == head + tail;
    OfKeyConcat(fkOf, head, tail, k);
    OfKeyLength(fkOf, head, k);
    OfKeyLength(fkOf, head[offset..], k);
    HeadAlike(head, tail, limit, offset);
    HeadAlike(head, OfKey(fkOf, tail, k), limit, offset);
  }

  lemma OtherKeyAlike<K(!new), C>(fkOf: C -> K, rows: seq<C>, limit: int, offset: int, k: K)
    requires 0 < offset < |rows| && Harmless(fkOf, rows, limit, offset) && k != fkOf(rows[0])
    ensures AlikeFor(fkOf, rows, limit, offset, k)
  {
    var head := Head(rows, limit, offset);
    var tail := rows[|head|..];
    assert rows == head + tail;
    HeadAlike(head, tail, limit, offset);
    OfKeyLength(fkOf, head[offset..], k);
  }

  lemma HarmlessIsAlike<K(!new), C>(fkOf: C -> K, rows: seq<C>, limit: int, offset: int)
    requires Harmless(fkOf, rows, limit, offset)
    ensures PagedAlike(fkOf, rows, limit, offset)
  {
    forall k ensures AlikeFor(fkOf, rows, limit, offset, k) {
      OfKeyLength(fkOf, rows, k);
      if offset <= 0 && limit > 0 && |rows| > limit {
        OneKeyAlike(fkOf, rows, limit, offset, k);
      } else if 0 < offset < |rows| {
        HeadKeyAlike(fkOf, rows, limit, offset);
        if k != fkOf(rows[0]) {
          OtherKeyAlike(fkOf, rows, limit, offset, k);
        }
      }
    }
  }

  lemma LimitNeedsOneKey<K(!new), C>(fkOf: C -> K, rows: seq<C>, limit: int, offset: int)
    requires offset <= 0 < limit < |rows| && PagedAlike(fkOf, rows, limit, offset)
    ensures OneKey(fkOf, rows)
  {
    var page, rest, k := rows[..limit], rows[limit..], fkOf(rows[limit]);
    assert rows == page + rest && rest[0] == rows[limit];
    assert AlikeFor(fkOf, rows, limit, offset, k);
    OfKeyConcat(fkOf, page, rest, k);
    OfKeyLength(fkOf, page, k);
    OfKeyLength(fkOf, rest, k);
    assert forall i :: 0 <= i < limit ==> page[i] == rows[i] && fkOf(page[i]) == k;
    forall i | 0 <= i < |rows| ensures fkOf(rows[i]) == k {
      if fkOf(rows[i]) != k {
        assert AlikeFor(fkOf, rows, limit, offset, fkOf(rows[i]));
        OfKeyLength(fkOf, rows, fkOf(rows[i]));
        OfKeyLength(fkOf, page, fkOf(rows[i]));
      }
    }
  }

  /** A key with a row on the page has all the rows that are skipped. */
  lemma OffsetNeedsKey<K(!new), C>(fkOf: C -> K, rows: seq<C>, limit: int, offset: int, k: K)
    requires 0 < offset < |rows| && Distinct(rows) && AlikeFor(fkOf, rows, limit, offset, k)
    requires OfKey(fkOf, Page(rows, limit, offset), k) != []
    ensures forall i :: 0 <= i < offset ==> fkOf(rows[i]) == k
  {
    var skipped, page := rows[..offset], Page(rows, limit, offset);
    var rest := rows[offset + |page|..];
    assert rows == skipped + (page + rest);
    OfKeyConcat(fkOf, skipped, page + rest, k);
    OfKeyConcat(fkOf, page, rest, k);
    OfKeyLength(fkOf, skipped, k);
    OfKeyDistinct(fkOf, rows, k);
    var all, before := OfKey(fkOf, rows, k), |OfKey(fkOf, skipped, k)|;
    assert all[before] == OfKey(fkOf, page, k)[0] == Page(all, limit, offset)[0] == all[offset];
    assert forall i :: 0 <= i < offset ==> skipped[i] == rows[i];
  }

  lemma OffsetNeedsHead<K(!new), C>(fkOf: C -> K, rows: seq<C>, limit: int, offset: int)
    requires 0 < offset < |rows| && Distinct(rows) && PagedAlike(fkOf, rows, limit, offset)
    ensures Harmless(fkOf, rows, limit, offset)
  {
    var page, head, k := Page(rows, limit, offset), Head(rows, limit, offset), fkOf(rows[0]);
    assert head == rows[..offset] + page;
    forall i | 0 <= i < |page| ensures fkOf(page[i]) == k {
      assert AlikeFor(fkOf, rows, limit, offset, fkOf(page[i]));
      OfKeyLength(fkOf, page, fkOf(page[i]));
      OffsetNeedsKey(fkOf, rows, limit, offset, fkOf(page[i]));
    }
    assert page[0] == rows[offset];
    OfKeyLength(fkOf, page, k);
    assert AlikeFor(fkOf, rows, limit, offset, k);
    OffsetNeedsKey(fkOf, rows, limit, offset, k);
    forall x | x != k ensures |OfKey(fkOf, rows, x)| <= offset {
      assert AlikeFor(fkOf, rows, limit, offset, x);
      OfKeyLength(fkOf, page, x);
    }
  }

  /** Exactly when; with an OFFSET, of rows that differ. */
  lemma PagedAlikeExactly<K(!new), C>(fkOf: C -> K, rows: seq<C>, limit: int, offset: int)
    requires offset <= 0 || Distinct(rows)
    ensures PagedAlike(fkOf, rows, limit, offset) <==> Harmless(fkOf, rows, limit, offset)
  {
    if Harmless(fkOf, rows, limit, offset) {
      HarmlessIsAlike(fkOf, rows, limit, offset);
    } else if PagedAlike(fkOf, rows, limit, offset) {
      if offset <= 0 {
        LimitNeedsOneKey(fkOf, rows, limit, offset);
      } else {
        OffsetNeedsHead(fkOf, rows, limit, offset);
      }
    }
  }

  /** The smallest case where they do harm: two keys with a row each, and LIMIT 1. */
  lemma SecondKeyIsLost<K, C>(fkOf: C -> K, c: C, d: C)
    requires fkOf(c) != fkOf(d)
    ensures OfKey(fkOf, Page([c, d], 1, 0), fkOf(d)) == []
    ensures Page(OfKey(fkOf, [c, d], fkOf(d)), 1, 0) == [d]
  {
    assert Page([c, d], 1, 0) == [c] && [c] + [d] == [c, d];
    OfKeyConcat(fkOf, [c], [d], fkOf(d));
    OfKeyLength(fkOf, [c], fkOf(d));
    OfKeyLength(fkOf, [d], fkOf(d));
  }
}
