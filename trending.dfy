/**
 * The trending ranker of `discover_trending`: join each book with its
 * chapters, count them, sort by that count and then by `updated_at`, both
 * descending, and keep the first `limit` books.
 */
module Trending {
  import opened Wrappers
  import opened Schemas
  import opened ObjectIds
  import opened Documents

  /** A book after `$lookup` and `$addFields`: the joined chapters and `chapters_count`. */
  datatype Joined = Joined(stored: StoredBook, chapters: seq<Record<Chapter>>, chaptersCount: nat)

  /**
   * The pipeline fails unless `$limit` is a positive 64-bit integer: the server
   * refuses 0 or less, and the client's BSON encoder cannot encode a larger integer.
   */
  datatype StoreError = LimitRejected(limit: int)

  const MaxInt64: int := 0x7FFF_FFFF_FFFF_FFFF

  /** The value `$lookup` reads from a book (`localField: "_id"`): a native identifier. */
  function LocalKey(b: Record<StoredBook>): (k: IdValue)
    ensures k.Native? && Decode(IdString(k)) == Some(b.id)
  {
    Native(b.id)
  }

  /** The value it reads from a chapter (`foreignField: "book_id"`): a string. */
  function ForeignKey(c: Record<Chapter>): (k: IdValue)
    ensures k.Text? && IdString(k) == c.fields.bookId
  {
    Text(c.fields.bookId)
  }

  /** `$lookup`: the chapters whose foreign key equals the given local key, in store order. */
  function JoinChapters(key: IdValue, chs: seq<Record<Chapter>>): (r: seq<Record<Chapter>>)
    ensures |r| <= |chs|
    ensures forall c :: c in r ==> c in chs && ForeignKey(c) == key
    ensures forall c :: c in chs && ForeignKey(c) == key ==> c in r
  {
    if chs == [] then []
    else (if ForeignKey(chs[0]) == key then [chs[0]] else []) + JoinChapters(key, chs[1..])
  }

  /**
   * `$lookup` followed by `$addFields`. The `$filter` on `$ne: null` keeps every
   * joined chapter (a stored chapter is a document, never null), so the count
   * is the number of joined chapters.
   */
  function Lookup(books: seq<Record<StoredBook>>, chs: seq<Record<Chapter>>): (r: seq<Record<Joined>>)
    ensures |r| == |books|
    ensures forall i :: 0 <= i < |books| ==>
      r[i].id == books[i].id && r[i].fields.stored == books[i].fields
      && r[i].fields.chaptersCount == |r[i].fields.chapters|
    ensures forall i :: 0 <= i < |books| ==> r[i].fields.chapters == JoinChapters(LocalKey(books[i]), chs)
  {
    seq(|books|, i requires 0 <= i < |books| =>
      var joined := JoinChapters(LocalKey(books[i]), chs);
      Record(books[i].id, Joined(books[i].fields, joined, |joined|)))
  }

  /** `updated_at` descending: a missing stamp sorts below every present one. */
  predicate NewerOrSame(a: Option<int>, b: Option<int>)
  {
    b.None? || (a.Some? && a.value >= b.value)
  }

  /** `x` may come before `y` under `{"chapters_count": -1, "updated_at": -1}`. */
  predicate Outranks(x: Record<Joined>, y: Record<Joined>)
  {
    x.fields.chaptersCount > y.fields.chaptersCount
    || (x.fields.chaptersCount == y.fields.chaptersCount
        && NewerOrSame(x.fields.stored.updatedAt, y.fields.stored.updatedAt))
  }

  predicate Sorted(s: seq<Record<Joined>>)
  {
    forall i, j :: 0 <= i < j < |s| ==> Outranks(s[i], s[j])
  }

  lemma OutranksTransitive(x: Record<Joined>, y: Record<Joined>, z: Record<Joined>)
    requires Outranks(x, y) && Outranks(y, z)
    ensures Outranks(x, z)
  {
  }

  /** `h` placed before a sorted sequence that it outranks throughout keeps it sorted. */
  lemma ConsSorted(h: Record<Joined>, s: seq<Record<Joined>>)
    requires Sorted(s)
    requires forall k :: 0 <= k < |s| ==> Outranks(h, s[k])
    ensures Sorted([h] + s)
  {
    var r := [h] + s;
    forall i, j | 0 <= i < j < |r| ensures Outranks(r[i], r[j]) {
      assert r[j] == s[j - 1];
      if i > 0 {
        assert r[i] == s[i - 1];
      }
    }
  }

  /** Whatever a permutation of `tail + [x]` holds, `h` outranks it when it outranks `x` and `tail`. */
  lemma OutranksPermutation(h: Record<Joined>, x: Record<Joined>, tail: seq<Record<Joined>>, r: seq<Record<Joined>>)
    requires forall k :: 0 <= k < |tail| ==> Outranks(h, tail[k])
    requires Outranks(h, x)
    requires multiset(r) == multiset(tail) + multiset{x}
    ensures forall k :: 0 <= k < |r| ==> Outranks(h, r[k])
  {
    forall k | 0 <= k < |r| ensures Outranks(h, r[k]) {
      assert r[k] in multiset(r);
      if r[k] != x {
        assert r[k] in multiset(tail);
        var j :| 0 <= j < |tail| && tail[j] == r[k];
      }
    }
  }

  function Insert(x: Record<Joined>, s: seq<Record<Joined>>): (r: seq<Record<Joined>>)
    requires Sorted(s)
    ensures Sorted(r)
    ensures multiset(r) == multiset(s) + multiset{x}
  {
    if s == [] then [x]
    else if Outranks(x, s[0]) then
      assert forall k :: 0 <= k < |s| ==> Outranks(x, s[k]) by {
        forall k | 0 <= k < |s| ensures Outranks(x, s[k]) {
          if k > 0 { OutranksTransitive(x, s[0], s[k]); }
        }
      }
      ConsSorted(x, s);
      [x] + s
    else
      var tail := s[1..];
      var rest := Insert(x, tail);
      assert s == [s[0]] + tail;
      assert forall k :: 0 <= k < |tail| ==> Outranks(s[0], tail[k]) by {
        forall k | 0 <= k < |tail| ensures Outranks(s[0], tail[k]) {
          assert tail[k] == s[k + 1];
        }
      }
      OutranksPermutation(s[0], x, tail, rest);
      ConsSorted(s[0], rest);
      [s[0]] + rest
  }

  /**
   * `$sort`. Books equal on both keys keep their store order here; the store
   * itself promises no order among them.
   */
  function SortStage(s: seq<Record<Joined>>): (r: seq<Record<Joined>>)
    ensures Sorted(r)
    ensures multiset(r) == multiset(s)
  {
    if s == [] then []
    else
      assert s == [s[0]] + s[1..];
      Insert(s[0], SortStage(s[1..]))
  }

  /** The whole pipeline as `db["book"].aggregate` runs it. */
  function Pipeline(books: seq<Record<StoredBook>>, chs: seq<Record<Chapter>>, limit: int)
    : (r: Result<seq<Record<Joined>>, StoreError>)
    ensures r.Err? <==> limit <= 0 || limit > MaxInt64
  {
    if limit <= 0 || limit > MaxInt64 then Err(LimitRejected(limit))
    else Ok(Take(SortStage(Lookup(books, chs)), limit))
  }

  /**
   * The join compares a native identifier with a string, which are never
   * equal: no chapter is ever joined to a book.
   */
  lemma {:induction false} JoinNeverMatches(b: Record<StoredBook>, chs: seq<Record<Chapter>>)
    ensures JoinChapters(LocalKey(b), chs) == []
  {
    if chs != [] {
      JoinNeverMatches(b, chs[1..]);
    }
  }

  /** Every book is ranked with `chapters_count` 0, whatever chapters are stored. */
  lemma CountsAreZero(books: seq<Record<StoredBook>>, chs: seq<Record<Chapter>>)
    ensures forall x :: x in Lookup(books, chs) ==> x.fields.chaptersCount == 0 && x.fields.chapters == []
  {
    forall i | 0 <= i < |books| ensures JoinChapters(LocalKey(books[i]), chs) == [] {
      JoinNeverMatches(books[i], chs);
    }
  }

  /** The result holds `limit` books, or every book when there are fewer. */
  lemma TrendingLength(books: seq<Record<StoredBook>>, chs: seq<Record<Chapter>>, limit: int)
    requires Pipeline(books, chs, limit).Ok?
    ensures |Pipeline(books, chs, limit).value| == if |books| < limit then |books| else limit
  {
    var sorted := SortStage(Lookup(books, chs));
    assert |sorted| == |multiset(sorted)| == |multiset(Lookup(books, chs))|;
  }

  /** The result is non-increasing in chapter count and, among equal counts, in `updated_at`. */
  lemma TrendingOrdered(books: seq<Record<StoredBook>>, chs: seq<Record<Chapter>>, limit: int)
    requires Pipeline(books, chs, limit).Ok?
    ensures var r := Pipeline(books, chs, limit).value;
      forall i, j :: 0 <= i < j < |r| ==>
        r[i].fields.chaptersCount >= r[j].fields.chaptersCount
        && (r[i].fields.chaptersCount == r[j].fields.chaptersCount
            ==> NewerOrSame(r[i].fields.stored.updatedAt, r[j].fields.stored.updatedAt))
  {
    var sorted := SortStage(Lookup(books, chs));
    var r := Pipeline(books, chs, limit).value;
    assert forall i :: 0 <= i < |r| ==> r[i] == sorted[i];
  }

  /** With the join as written, the ranking is by `updated_at` alone. */
  lemma TrendingByRecency(books: seq<Record<StoredBook>>, chs: seq<Record<Chapter>>, limit: int)
    requires Pipeline(books, chs, limit).Ok?
    ensures var r := Pipeline(books, chs, limit).value;
      forall i, j :: 0 <= i < j < |r| ==> NewerOrSame(r[i].fields.stored.updatedAt, r[j].fields.stored.updatedAt)
  {
    var joined := Lookup(books, chs);
    var sorted := SortStage(joined);
    var r := Pipeline(books, chs, limit).value;
    CountsAreZero(books, chs);
    forall i | 0 <= i < |sorted| ensures sorted[i].fields.chaptersCount == 0 {
      assert sorted[i] in multiset(joined);
    }
    assert forall i :: 0 <= i < |r| ==> r[i] == sorted[i];
  }

  /**
   * Books without chapters are ranked, not dropped: when `limit` covers the
   * collection every stored book appears.
   */
  lemma EveryBookRanked(books: seq<Record<StoredBook>>, chs: seq<Record<Chapter>>, limit: int, b: Record<StoredBook>)
    requires Pipeline(books, chs, limit).Ok? && |books| <= limit
    requires b in books
    ensures exists x :: x in Pipeline(books, chs, limit).value && x.id == b.id && x.fields.stored == b.fields
  {
    var joined := Lookup(books, chs);
    var sorted := SortStage(joined);
    assert |sorted| == |multiset(sorted)| == |joined|;
    var i :| 0 <= i < |books| && books[i] == b;
    assert joined[i] in multiset(sorted);
  }

  /**
   * A book left out by `limit` is outranked by every book kept. This holds of
   * the sort and cut stages for any joined books, so of `Pipeline` in particular.
   */
  lemma KeptOutrankDropped(joined: seq<Record<Joined>>, limit: int, x: Record<Joined>, y: Record<Joined>)
    requires limit >= 1
    requires x in Take(SortStage(joined), limit)
    requires y in joined && y !in Take(SortStage(joined), limit)
    ensures Outranks(x, y)
  {
    var sorted := SortStage(joined);
    var r := Take(sorted, limit);
    assert y in multiset(sorted);
    var j :| 0 <= j < |sorted| && sorted[j] == y;
    var i :| 0 <= i < |r| && r[i] == x;
    assert r[i] == sorted[i];
  }

  /**
   * The ranking stage on its own: books with 5, 0 and 3 chapters and a limit
   * of 2 give the books with 5 and 3 chapters, in that order.
   */
  lemma RankingExample(a: Record<Joined>, b: Record<Joined>, c: Record<Joined>)
    requires a.fields.chaptersCount == 5 && b.fields.chaptersCount == 0 && c.fields.chaptersCount == 3
    ensures Take(SortStage([a, b, c]), 2) == [a, c]
  {
    var r := SortStage([a, b, c]);
    assert |r| == 3 by {
      assert |multiset(r)| == |multiset([a, b, c])| == 3;
    }
    forall i | 0 <= i < 3 ensures r[i] == a || r[i] == b || r[i] == c {
      assert r[i] in multiset(r);
    }
    assert a in multiset(r) && b in multiset(r) && c in multiset(r);
    assert Outranks(r[0], r[1]) && Outranks(r[1], r[2]);
  }
}
