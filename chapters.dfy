/**
 * The chapter numbering rule of `create_chapter`: a chapter created without a
 * number gets one more than the number of chapters already stored for its book.
 */
module Chapters {
  import opened Wrappers
  import opened Schemas
  import opened ObjectIds
  import opened Documents

  /** `find({"book_id": bookId})` over the chapter collection, in store order. */
  function ChaptersOf(chs: seq<Record<Chapter>>, bookId: string): (r: seq<Record<Chapter>>)
    ensures |r| <= |chs|
    ensures forall x :: x in r <==> x in chs && x.fields.bookId == bookId
  {
    if chs == [] then []
    else
      var last := chs[|chs| - 1];
      ChaptersOf(chs[..|chs| - 1], bookId) + (if last.fields.bookId == bookId then [last] else [])
  }

  /** `count_documents({"book_id": bookId})`: zero exactly when the book has no chapter stored. */
  function CountFor(chs: seq<Record<Chapter>>, bookId: string): (n: nat)
    ensures n <= |chs|
    ensures n == 0 <==> forall x :: x in chs ==> x.fields.bookId != bookId
  {
    var own := ChaptersOf(chs, bookId);
    assert own != [] ==> own[0] in own;
    |own|
  }

  /** The chapter as `create_chapter` stores it, given the chapters already stored. */
  function Numbered(ch: Chapter, chs: seq<Record<Chapter>>): (c: Chapter)
    ensures c.chapterNumber.Some?
    ensures c.bookId == ch.bookId && c.title == ch.title && c.content == ch.content
    ensures ch.chapterNumber.Some? ==> c == ch
  {
    if ch.chapterNumber.None? then ch.(chapterNumber := Some(CountFor(chs, ch.bookId) + 1)) else ch
  }

  /** The chapters of `bookId`, in store order, are numbered 1, 2, 3, ... */
  ghost predicate Sequential(chs: seq<Record<Chapter>>, bookId: string)
  {
    var own := ChaptersOf(chs, bookId);
    forall i :: 0 <= i < |own| ==> own[i].fields.chapterNumber == Some(i + 1)
  }

  /** Storing one more chapter adds it to its own book's chapters and to no other book's. */
  lemma ChaptersOfAppend(chs: seq<Record<Chapter>>, c: Record<Chapter>, bookId: string)
    ensures ChaptersOf(chs + [c], bookId)
      == ChaptersOf(chs, bookId) + (if c.fields.bookId == bookId then [c] else [])
  {
    assert (chs + [c])[..|chs|] == chs;
  }

  /** An auto-numbered chapter is numbered one past the chapters its book already has. */
  lemma AutoNumberIsNext(ch: Chapter, chs: seq<Record<Chapter>>, id: ObjectId)
    requires ch.chapterNumber.None?
    ensures var stored := chs + [Record(id, Numbered(ch, chs))];
      CountFor(stored, ch.bookId) == CountFor(chs, ch.bookId) + 1
      && Numbered(ch, chs).chapterNumber == Some(CountFor(stored, ch.bookId))
  {
    ChaptersOfAppend(chs, Record(id, Numbered(ch, chs)), ch.bookId);
  }

  /**
   * Creating chapters without numbers keeps every book's chapters numbered
   * 1, 2, 3, ... in store order.
   */
  lemma AutoNumberKeepsSequence(ch: Chapter, chs: seq<Record<Chapter>>, id: ObjectId, bookId: string)
    requires ch.chapterNumber.None?
    requires Sequential(chs, bookId)
    ensures Sequential(chs + [Record(id, Numbered(ch, chs))], bookId)
  {
    var c := Record(id, Numbered(ch, chs));
    ChaptersOfAppend(chs, c, bookId);
    var own := ChaptersOf(chs, bookId);
    var own' := ChaptersOf(chs + [c], bookId);
    forall i | 0 <= i < |own'| ensures own'[i].fields.chapterNumber == Some(i + 1) {
      if i < |own| {
        assert own'[i] == own[i];
      }
    }
  }

  /** Two chapters numbered 1 and 2 for a book: the next auto-numbered chapter is 3. */
  lemma ThirdChapter(ch: Chapter, chs: seq<Record<Chapter>>)
    requires ch.chapterNumber.None?
    requires |ChaptersOf(chs, ch.bookId)| == 2
    ensures Numbered(ch, chs).chapterNumber == Some(3)
  {
  }

  /** Chapters of other books do not affect the number. */
  lemma OtherBooksIgnored(ch: Chapter, chs: seq<Record<Chapter>>, other: Record<Chapter>)
    requires other.fields.bookId != ch.bookId
    ensures Numbered(ch, chs + [other]) == Numbered(ch, chs)
  {
    ChaptersOfAppend(chs, other, ch.bookId);
  }

  /**
   * The rule counts chapters rather than looking at their numbers: when the one
   * stored chapter was given the explicit number 2, the next auto-numbered
   * chapter is numbered 2 as well.
   */
  lemma AutoNumberMayRepeat(id: ObjectId, bookId: string)
    ensures var chs := [Record(id, Chapter(bookId, "t", "c", Some(2)))];
      Numbered(Chapter(bookId, "u", "d", None), chs).chapterNumber == Some(2)
  {
    var chs := [Record(id, Chapter(bookId, "t", "c", Some(2)))];
    assert chs[..0] == [];
    assert ChaptersOf(chs, bookId) == chs;
  }
}
