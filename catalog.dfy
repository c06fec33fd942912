/**
 * The catalog's collections and the handlers that query and update them.
 * The store is a value per collection, each a sequence of records in store
 * (insertion) order; an insert takes the identifier the store assigns as a
 * parameter.
 */
module Catalog {
  import opened Wrappers
  import opened Http
  import opened Strings
  import opened Schemas
  import opened ObjectIds
  import opened Documents
  import opened Filters
  import opened Chapters
  import opened Library
  import opened Trending

  class Store {
    var books: seq<Record<StoredBook>>
    var chapters: seq<Record<Chapter>>
    var library: seq<Record<LibraryItem>>

    constructor (books: seq<Record<StoredBook>>, chapters: seq<Record<Chapter>>, library: seq<Record<LibraryItem>>)
      ensures this.books == books && this.chapters == chapters && this.library == library
    {
      this.books := books;
      this.chapters := chapters;
      this.library := library;
    }

    /**
     * `list_books`: the books the non-empty parameters describe, in store
     * order, at most `limit` of them, each with its `_id` as a string.
     */
    method ListBooks(p: Params, limit: int) returns (out: seq<Doc<StoredBook>>)
      requires 1 <= limit <= 100
      ensures out == RenderedAll(Take(Selected(books, p), limit))
      ensures |out| <= limit
      ensures forall i :: 0 <= i < |out| ==> out[i].id.Text? && Admits(p, out[i].fields.book)
    {
      var f := BuildFilter(p);
      var found := Take(Find(books, f), limit);
      FindIsSelected(books, p);
      out := Returned(found);
      assert forall i :: 0 <= i < |found| ==> found[i] in Selected(books, p);
    }

    /** `get_book`: 400 for a malformed id, 404 when no book has it, else the book. */
    method GetBook(bookId: string) returns (r: Result<Doc<StoredBook>, HttpError>)
      ensures !IsValid(bookId) ==> r == Err(HttpError(BadRequest, "Invalid ID"))
      ensures IsValid(bookId) && FindById(books, Decode(bookId).value).None?
        ==> r == Err(HttpError(NotFound, "Book not found"))
      ensures r.Err? ==> !IsValid(bookId) || FindById(books, Decode(bookId).value).None?
      ensures r.Ok? ==> r.value.id == Text(LowerCase(bookId))
      ensures r.Ok? ==> exists i :: 0 <= i < |books| && Encode(books[i].id) == LowerCase(bookId) && r.value.fields == books[i].fields
    {
      match ToObjId(bookId)
      case Err(e) =>
        r := Err(e);
      case Ok(oid) =>
        match FindById(books, oid)
        case None =>
          r := Err(HttpError(NotFound, "Book not found"));
        case Some(doc) =>
          r := Ok(Stringified(Fetched(doc)));
    }

    /** `get_chapter`: 400 for a malformed id, 404 when no chapter has it, else the chapter. */
    method GetChapter(chapterId: string) returns (r: Result<Doc<Chapter>, HttpError>)
      ensures !IsValid(chapterId) ==> r == Err(HttpError(BadRequest, "Invalid ID"))
      ensures IsValid(chapterId) && FindById(chapters, Decode(chapterId).value).None?
        ==> r == Err(HttpError(NotFound, "Chapter not found"))
      ensures r.Err? ==> !IsValid(chapterId) || FindById(chapters, Decode(chapterId).value).None?
      ensures r.Ok? ==> r.value.id == Text(LowerCase(chapterId))
      ensures r.Ok? ==> exists i :: 0 <= i < |chapters| && Encode(chapters[i].id) == LowerCase(chapterId) && r.value.fields == chapters[i].fields
    {
      match ToObjId(chapterId)
      case Err(e) =>
        r := Err(e);
      case Ok(oid) =>
        match FindById(chapters, oid)
        case None =>
          r := Err(HttpError(NotFound, "Chapter not found"));
        case Some(doc) =>
          r := Ok(Stringified(Fetched(doc)));
    }

    /**
     * `create_chapter`: a chapter without a number is numbered one past the
     * chapters already stored for its book; a given number is stored as is.
     */
    method CreateChapter(ch: Chapter, newId: ObjectId) returns (id: string)
      modifies this
      ensures chapters == old(chapters) + [Record(newId, Numbered(ch, old(chapters)))]
      ensures ch.chapterNumber.None? ==>
        chapters[|chapters| - 1].fields.chapterNumber == Some(CountFor(old(chapters), ch.bookId) + 1)
      ensures books == old(books) && library == old(library)
      ensures id == Encode(newId)
    {
      var chapter := ch;
      if chapter.chapterNumber.None? {
        var count := CountFor(chapters, chapter.bookId);
        chapter := chapter.(chapterNumber := Some(count + 1));
      }
      chapters := chapters + [Record(newId, chapter)];
      id := Encode(newId);
    }

    /**
     * `add_to_library`: when the pair is already saved its identifier is
     * returned and nothing is stored; otherwise the item is inserted.
     */
    method AddToLibrary(item: LibraryItem, newId: ObjectId) returns (id: string)
      modifies this
      ensures Added(library, id) == Add(old(library), item, newId)
      ensures books == old(books) && chapters == old(chapters)
    {
      var existing := FindPair(library, item);
      if existing.Some? {
        id := Encode(library[existing.value].id);
      } else {
        library := library + [Record(newId, item)];
        id := Encode(newId);
      }
    }

    /**
     * `get_library`: the user's saved books in save order, found with one
     * batched look-up; ids that do not decode or name no book are skipped.
     */
    method GetLibrary(userId: string) returns (out: seq<Doc<StoredBook>>)
      ensures out == LibraryView(library, books, userId)
      ensures |out| <= |ItemsOf(library, userId)|
    {
      var items := ItemsOf(library, userId);
      var bookIds := BookIds(items);
      var fetched := FetchIn(books, DecodedIds(bookIds));
      var bookMap := IndexByKey(fetched);
      var docs := new Doc<StoredBook>[|fetched|](i requires 0 <= i < |fetched| => Fetched(fetched[i]));
      StringifyIds(docs);
      assert docs[..] == RenderedAll(fetched);
      PickIsResolved(bookIds, bookIds, books);
      out := Pick(bookIds, bookMap, docs[..]);
    }

    /**
     * `discover_trending`: the aggregation's result with each `_id` as a
     * string; a limit the store cannot take is an error.
     */
    method DiscoverTrending(limit: int) returns (r: Result<seq<Doc<Joined>>, StoreError>)
      ensures r.Err? <==> limit <= 0 || limit > MaxInt64
      ensures r.Ok? ==> r.value == RenderedAll(Pipeline(books, chapters, limit).value)
      ensures r.Ok? ==> |r.value| <= limit
    {
      match Pipeline(books, chapters, limit)
      case Err(e) =>
        r := Err(e);
      case Ok(data) =>
        var out := Returned(data);
        r := Ok(out);
    }

    /** `discover_by_tag`: the books listing `tag`, even an empty one, at most `limit`. */
    method DiscoverByTag(tag: string, limit: int) returns (out: seq<Doc<StoredBook>>)
      requires limit >= 1
      ensures out == RenderedAll(Take(Find(books, TagFilter(tag)), limit))
      ensures forall i :: 0 <= i < |out| ==> tag in out[i].fields.book.tags
    {
      var found := Take(Find(books, TagFilter(tag)), limit);
      out := Returned(found);
      forall i | 0 <= i < |found| ensures tag in found[i].fields.book.tags {
        assert found[i] in Find(books, TagFilter(tag));
      }
    }

    /** `discover_by_category`: the books listing `category`, at most `limit`. */
    method DiscoverByCategory(category: string, limit: int) returns (out: seq<Doc<StoredBook>>)
      requires limit >= 1
      ensures out == RenderedAll(Take(Find(books, CategoryFilter(category)), limit))
      ensures forall i :: 0 <= i < |out| ==> category in out[i].fields.book.categories
    {
      var found := Take(Find(books, CategoryFilter(category)), limit);
      out := Returned(found);
      forall i | 0 <= i < |found| ensures category in found[i].fields.book.categories {
        assert found[i] in Find(books, CategoryFilter(category));
      }
    }
  }

  /** Two sequential adds of one pair store it once and return the same identifier both times. */
  method AddTwice(store: Store, item: LibraryItem, id1: ObjectId, id2: ObjectId) returns (first: string, second: string)
    modifies store
    ensures first == second
    ensures store.library == Add(old(store.library), item, id1).library
    ensures PairCount(store.library, item) == if PairCount(old(store.library), item) == 0 then 1 else PairCount(old(store.library), item)
  {
    first := store.AddToLibrary(item, id1);
    second := store.AddToLibrary(item, id2);
    AddIdempotent(old(store.library), item, id1, id2);
    AddStoresPairOnce(old(store.library), item, id1);
  }
}
