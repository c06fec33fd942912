/**
 * A user's library: the look-up-before-insert of `add_to_library`, and the
 * assembler of `get_library`, which joins the user's saved items with the book
 * collection and returns the books in the order the items were saved.
 */
module Library {
  import opened Wrappers
  import opened Schemas
  import opened ObjectIds
  import opened Documents

  type Items = seq<Record<LibraryItem>>
  type Books = seq<Record<StoredBook>>

  // ----- add_to_library -----

  /** `find_one({"user_id": ..., "book_id": ...})`: the first record saved for the pair. */
  function FindPair(lib: Items, item: LibraryItem): (r: Option<nat>)
    ensures r.Some? ==> r.value < |lib| && lib[r.value].fields == item
    ensures r.Some? ==> forall j :: 0 <= j < r.value ==> lib[j].fields != item
    ensures r.None? ==> forall j :: 0 <= j < |lib| ==> lib[j].fields != item
  {
    if lib == [] then None
    else if lib[0].fields == item then Some(0)
    else match FindPair(lib[1..], item)
      case Some(k) => Some(k + 1)
      case None => None
  }

  /** The library after an add, and the identifier the add returns. */
  datatype Added = Added(library: Items, id: string)

  /**
   * `add_to_library`: an existing record for the pair is returned and nothing is
   * stored; otherwise a record with the store-assigned `newId` is appended.
   */
  function Add(lib: Items, item: LibraryItem, newId: ObjectId): (r: Added)
    ensures r.library == lib || r.library == lib + [Record(newId, item)]
    ensures exists i :: 0 <= i < |r.library| && r.library[i].fields == item && Encode(r.library[i].id) == r.id
  {
    match FindPair(lib, item)
    case Some(k) => Added(lib, Encode(lib[k].id))
    case None =>
      var lib' := lib + [Record(newId, item)];
      assert lib'[|lib|].fields == item;
      Added(lib', Encode(newId))
  }

  /** Adding a pair already saved returns its identifier and leaves the library unchanged. */
  lemma AddExisting(lib: Items, item: LibraryItem, newId: ObjectId, i: nat)
    requires i < |lib| && lib[i].fields == item
    ensures Add(lib, item, newId).library == lib
    ensures Add(lib, item, newId).id == Encode(lib[FindPair(lib, item).value].id)
  {
  }

  /** Adding a pair not yet saved appends exactly one record and returns its identifier. */
  lemma AddNew(lib: Items, item: LibraryItem, newId: ObjectId)
    requires forall j :: 0 <= j < |lib| ==> lib[j].fields != item
    ensures Add(lib, item, newId) == Added(lib + [Record(newId, item)], Encode(newId))
  {
  }

  /** A second add of the same pair, whatever identifier the store would assign, changes nothing. */
  lemma {:induction false} AddIdempotent(lib: Items, item: LibraryItem, id1: ObjectId, id2: ObjectId)
    ensures var first := Add(lib, item, id1);
      Add(first.library, item, id2) == first
  {
    var first := Add(lib, item, id1);
    match FindPair(lib, item)
    case Some(k) =>
    case None =>
      var lib' := lib + [Record(id1, item)];
      assert lib'[|lib|].fields == item;
      var k' := FindPair(lib', item);
      assert k'.Some? && k'.value == |lib|;
  }

  /** The number of records saved for the pair. */
  function PairCount(lib: Items, item: LibraryItem): nat
  {
    if lib == [] then 0
    else PairCount(lib[..|lib| - 1], item) + (if lib[|lib| - 1].fields == item then 1 else 0)
  }

  lemma {:induction false} PairCountZero(lib: Items, item: LibraryItem)
    ensures PairCount(lib, item) == 0 <==> forall j :: 0 <= j < |lib| ==> lib[j].fields != item
  {
    if lib != [] {
      var init := lib[..|lib| - 1];
      PairCountZero(init, item);
      assert forall j :: 0 <= j < |init| ==> init[j] == lib[j];
    }
  }

  /** After an add the pair is saved exactly as often as before, or once if it was not saved at all. */
  lemma AddStoresPairOnce(lib: Items, item: LibraryItem, newId: ObjectId)
    ensures PairCount(Add(lib, item, newId).library, item)
      == if PairCount(lib, item) == 0 then 1 else PairCount(lib, item)
  {
    PairCountZero(lib, item);
    var lib' := lib + [Record(newId, item)];
    assert lib'[..|lib'| - 1] == lib;
  }

  /** At most one record per (user_id, book_id) pair. */
  ghost predicate UniquePairs(lib: Items)
  {
    forall i, j :: 0 <= i < j < |lib| ==> lib[i].fields != lib[j].fields
  }

  /** Sequential adds keep the library free of duplicate pairs. */
  lemma AddKeepsPairsUnique(lib: Items, item: LibraryItem, newId: ObjectId)
    requires UniquePairs(lib)
    ensures UniquePairs(Add(lib, item, newId).library)
  {
  }

  // ----- get_library -----

  /** `find({"user_id": userId})` over the library items, in store order. */
  function ItemsOf(lib: Items, userId: string): (r: Items)
    ensures |r| <= |lib|
    ensures forall x :: x in r <==> x in lib && x.fields.userId == userId
  {
    if lib == [] then []
    else (if lib[0].fields.userId == userId then [lib[0]] else []) + ItemsOf(lib[1..], userId)
  }

  /** A record saved later comes later among its user's items: store order is kept. */
  lemma {:induction false} ItemsOfAppend(lib: Items, x: Record<LibraryItem>, userId: string)
    ensures ItemsOf(lib + [x], userId) == ItemsOf(lib, userId) + (if x.fields.userId == userId then [x] else [])
  {
    if lib != [] {
      assert (lib + [x])[1..] == lib[1..] + [x];
      ItemsOfAppend(lib[1..], x, userId);
    }
  }

  /** `[it["book_id"] for it in items]`. */
  function BookIds(items: Items): (ids: seq<string>)
    ensures |ids| == |items|
    ensures forall i :: 0 <= i < |items| ==> ids[i] == items[i].fields.bookId
  {
    seq(|items|, i requires 0 <= i < |items| => items[i].fields.bookId)
  }

  /** `[ObjectId(b) for b in ids if ObjectId.is_valid(b)]`: invalid strings are skipped. */
  function DecodedIds(ids: seq<string>): (r: seq<ObjectId>)
    ensures |r| <= |ids|
    ensures forall i :: 0 <= i < |ids| && IsValid(ids[i]) ==> Decode(ids[i]).value in r
    ensures forall x :: x in r ==> exists i :: 0 <= i < |ids| && IsValid(ids[i]) && Decode(ids[i]).value == x
  {
    if ids == [] then []
    else (if IsValid(ids[0]) then [Decode(ids[0]).value] else []) + DecodedIds(ids[1..])
  }

  /** `find({"_id": {"$in": wanted}})` over the books, in store order. */
  function FetchIn(books: Books, wanted: seq<ObjectId>): (r: Books)
    ensures |r| <= |books|
    ensures forall x :: x in r <==> x in books && x.id in wanted
  {
    if books == [] then []
    else
      var last := books[|books| - 1];
      FetchIn(books[..|books| - 1], wanted) + (if last.id in wanted then [last] else [])
  }

  /**
   * The stored book whose string identifier is `bid`. Identifiers are unique
   * in a collection; should several records share one, the last in store order
   * is taken, as a dictionary built over them keeps the last.
   */
  function Resolve(books: Books, bid: string): (r: Option<Record<StoredBook>>)
    ensures r.Some? ==> r.value in books && Encode(r.value.id) == bid
    ensures r.None? <==> forall x :: x in books ==> Encode(x.id) != bid
  {
    if books == [] then None
    else
      var last := books[|books| - 1];
      if Encode(last.id) == bid then Some(last) else Resolve(books[..|books| - 1], bid)
  }

  /**
   * `{str(b["_id"]): b for b in books}`. The values are the very documents of
   * the fetched list, which is stringified afterwards; the map therefore holds
   * their positions in that list.
   */
  function IndexByKey(fetched: Books): (m: map<string, nat>)
    ensures forall k :: k in m <==> Resolve(fetched, k).Some?
    ensures forall k :: k in m ==> m[k] < |fetched| && fetched[m[k]] == Resolve(fetched, k).value
  {
    if fetched == [] then map[]
    else
      var n := |fetched| - 1;
      var m := IndexByKey(fetched[..n]);
      assert forall k :: k in m ==> fetched[..n][m[k]] == fetched[m[k]];
      m[Encode(fetched[n].id) := n]
  }

  /**
   * `[book_map.get(bid) for bid in ids if book_map.get(bid)]`: each picked book
   * is the one an id maps to, and ids without a book contribute nothing.
   */
  function Pick(ids: seq<string>, m: map<string, nat>, docs: seq<Doc<StoredBook>>): (r: seq<Doc<StoredBook>>)
    requires forall k :: k in m ==> m[k] < |docs|
    ensures |r| <= |ids|
    ensures (forall i :: 0 <= i < |ids| ==> ids[i] !in m) ==> r == []
    ensures forall d :: d in r ==> exists i :: 0 <= i < |ids| && ids[i] in m && d == docs[m[ids[i]]]
  {
    if ids == [] then []
    else (if ids[0] in m then [docs[m[ids[0]]]] else []) + Pick(ids[1..], m, docs)
  }

  /** The book, stringified, that one saved book id contributes: none when it names no stored book. */
  function Contribution(books: Books, bid: string): (r: seq<Doc<StoredBook>>)
    ensures |r| <= 1
    ensures r == [] <==> Resolve(books, bid).None?
    ensures r != [] ==> r[0] == Rendered(Resolve(books, bid).value) && r[0].id == Text(bid)
  {
    match Resolve(books, bid)
    case Some(b) => [Rendered(b)]
    case None => []
  }

  /** The reference reading of the library: each saved book id that names a stored book, in turn. */
  function Resolved(ids: seq<string>, books: Books): (r: seq<Doc<StoredBook>>)
    ensures |r| <= |ids|
    ensures forall d :: d in r ==> d.id.Text?
  {
    if ids == [] then [] else Contribution(books, ids[0]) + Resolved(ids[1..], books)
  }

  /** What `get_library(userId)` returns. */
  function LibraryView(lib: Items, books: Books, userId: string): (r: seq<Doc<StoredBook>>)
    ensures |r| <= |ItemsOf(lib, userId)|
    ensures forall d :: d in r ==> d.id.Text?
  {
    Resolved(BookIds(ItemsOf(lib, userId)), books)
  }

  /** Narrowing the books to those whose identifiers were asked for keeps every book `bid` can name. */
  lemma {:induction false} FetchKeepsResolve(books: Books, wanted: seq<ObjectId>, bid: string)
    requires forall x :: x in books && Encode(x.id) == bid ==> x.id in wanted
    ensures Resolve(FetchIn(books, wanted), bid) == Resolve(books, bid)
  {
    if books != [] {
      var init, last := books[..|books| - 1], books[|books| - 1];
      assert forall x :: x in init ==> x in books;
      FetchKeepsResolve(init, wanted, bid);
      var fetched := FetchIn(books, wanted);
      if last.id in wanted {
        assert fetched[|fetched| - 1] == last;
        assert fetched[..|fetched| - 1] == FetchIn(init, wanted);
      } else {
        assert fetched == FetchIn(init, wanted);
      }
    }
  }

  /** Every book whose string identifier is among `ids` has its identifier among the decoded ones. */
  lemma EncodedIdIsDecoded(ids: seq<string>, x: Record<StoredBook>)
    requires Encode(x.id) in ids
    ensures x.id in DecodedIds(ids)
  {
    var i :| 0 <= i < |ids| && ids[i] == Encode(x.id);
    DecodeEncode(x.id);
  }

  /**
   * The batched look-up (decode, fetch with `$in`, index, pick in item order)
   * returns exactly the reference reading.
   */
  lemma {:induction false} PickIsResolved(ids: seq<string>, all: seq<string>, books: Books)
    requires forall i :: 0 <= i < |ids| ==> ids[i] in all
    ensures var fetched := FetchIn(books, DecodedIds(all));
      Pick(ids, IndexByKey(fetched), RenderedAll(fetched)) == Resolved(ids, books)
  {
    if ids != [] {
      var fetched := FetchIn(books, DecodedIds(all));
      var bid := ids[0];
      forall x | x in books && Encode(x.id) == bid ensures x.id in DecodedIds(all) {
        EncodedIdIsDecoded(all, x);
      }
      FetchKeepsResolve(books, DecodedIds(all), bid);
      PickIsResolved(ids[1..], all, books);
    }
  }

  /** Item order is kept: the books for `xs + ys` are those for `xs` followed by those for `ys`. */
  lemma {:induction false} ResolvedAppend(xs: seq<string>, ys: seq<string>, books: Books)
    ensures Resolved(xs + ys, books) == Resolved(xs, books) + Resolved(ys, books)
  {
    if xs == [] {
      assert xs + ys == ys;
    } else {
      assert (xs + ys)[0] == xs[0];
      assert (xs + ys)[1..] == xs[1..] + ys;
      ResolvedAppend(xs[1..], ys, books);
    }
  }

  /**
   * Each returned book is the stored book named by one of the items, and each
   * item that names a stored book contributes it.
   */
  lemma {:induction false} ResolvedMembers(ids: seq<string>, books: Books, d: Doc<StoredBook>)
    ensures d in Resolved(ids, books) <==> exists i :: 0 <= i < |ids| && d in Contribution(books, ids[i])
  {
    if ids != [] {
      var rest := ids[1..];
      ResolvedMembers(rest, books, d);
      if d in Resolved(rest, books) {
        var i :| 0 <= i < |rest| && d in Contribution(books, rest[i]);
        assert ids[i + 1] == rest[i];
      }
      if exists i :: 0 <= i < |ids| && d in Contribution(books, ids[i]) {
        var i :| 0 <= i < |ids| && d in Contribution(books, ids[i]);
        if i > 0 {
          assert rest[i - 1] == ids[i];
        }
      }
    }
  }

  /**
   * Every returned book is a stored book whose `_id` has been replaced by the
   * `book_id` of an item that names it.
   */
  lemma ResolvedFromItems(ids: seq<string>, books: Books, d: Doc<StoredBook>)
    requires d in Resolved(ids, books)
    ensures exists i :: (0 <= i < |ids| && d.id == Text(ids[i])
                         && Resolve(books, ids[i]).Some? && d == Rendered(Resolve(books, ids[i]).value))
  {
    ResolvedMembers(ids, books, d);
    var i :| 0 <= i < |ids| && d in Contribution(books, ids[i]);
  }

  /**
   * Saving one more item extends the user's library at the end: by the book
   * that item names, or by nothing when it belongs to another user or names
   * no stored book.
   */
  lemma LibraryViewAppend(lib: Items, books: Books, userId: string, x: Record<LibraryItem>)
    ensures LibraryView(lib + [x], books, userId) ==
      LibraryView(lib, books, userId) + (if x.fields.userId == userId then Contribution(books, x.fields.bookId) else [])
  {
    ItemsOfAppend(lib, x, userId);
    var before := BookIds(ItemsOf(lib, userId));
    if x.fields.userId == userId {
      var bid := x.fields.bookId;
      BookIdsAppend(ItemsOf(lib, userId), x);
      assert BookIds(ItemsOf(lib + [x], userId)) == before + [bid];
      ResolvedAppend(before, [bid], books);
      assert Resolved([bid], books) == Contribution(books, bid);
    } else {
      assert ItemsOf(lib + [x], userId) == ItemsOf(lib, userId);
    }
  }

  lemma BookIdsAppend(items: Items, x: Record<LibraryItem>)
    ensures BookIds(items + [x]) == BookIds(items) + [x.fields.bookId]
  {
  }

  /** A user with no saved items has an empty library, not an error. */
  lemma EmptyLibrary(lib: Items, books: Books, userId: string)
    requires forall j :: 0 <= j < |lib| ==> lib[j].fields.userId != userId
    ensures LibraryView(lib, books, userId) == []
  {
    var items := ItemsOf(lib, userId);
    assert forall x :: x in lib ==> x !in items;
  }

  /** Items saved as A, B, C where B's book is gone: the library is A's book, then C's. */
  lemma MissingBookSkipped(a: string, b: string, c: string, books: Books)
    requires Resolve(books, a).Some? && Resolve(books, b).None? && Resolve(books, c).Some?
    ensures Resolved([a, b, c], books) == [Rendered(Resolve(books, a).value), Rendered(Resolve(books, c).value)]
  {
    ResolvedAppend([a], [b, c], books);
    ResolvedAppend([b], [c], books);
    assert Resolved([a], books) == Contribution(books, a);
    assert Resolved([b], books) == [];
    assert Resolved([c], books) == Contribution(books, c);
  }

  /** An item saved twice yields its book twice. */
  lemma DuplicatesRepeat(a: string, books: Books)
    requires Resolve(books, a).Some?
    ensures Resolved([a, a], books) == [Rendered(Resolve(books, a).value), Rendered(Resolve(books, a).value)]
  {
    ResolvedAppend([a], [a], books);
    assert Resolved([a], books) == Contribution(books, a);
  }

  /**
   * A `book_id` in upper-case hexadecimal is a valid identifier, so its book is
   * fetched by the `$in` query, but the map is keyed by the lower-case form, so
   * the book is dropped from the result.
   */
  lemma UpperCaseIdDropped(books: Books, bid: string, i: int)
    requires IsValid(bid) && 0 <= i < |bid| && 'A' <= bid[i] <= 'F'
    ensures Decode(bid).Some?
    ensures forall x :: x in books && x.id == Decode(bid).value ==> x in FetchIn(books, DecodedIds([bid]))
    ensures Resolve(books, bid).None?
  {
  }
}
