/**
 * The record shapes of the catalog (`Book`, `Chapter`, `Comment`, `LibraryItem`)
 * and how a request body becomes one of them: which fields are required, which
 * are optional, and the defaults filled in for fields the body leaves out.
 */
module Schemas {
  import opened Wrappers

  /** What a request body says about one field: nothing, JSON null, or a value. */
  datatype Supplied<T> = Missing | Null | Given(value: T)

  datatype Book = Book(
    title: string,
    description: Option<string>,
    authorName: string,
    coverUrl: Option<string>,
    tags: seq<string>,
    categories: seq<string>,
    genre: Option<string>,
    status: string)

  datatype Chapter = Chapter(bookId: string, title: string, content: string, chapterNumber: Option<int>)

  datatype Comment = Comment(bookId: string, userName: string, content: string)

  datatype LibraryItem = LibraryItem(userId: string, bookId: string)

  datatype BookRequest = BookRequest(
    title: Supplied<string>,
    description: Supplied<string>,
    authorName: Supplied<string>,
    coverUrl: Supplied<string>,
    tags: Supplied<seq<string>>,
    categories: Supplied<seq<string>>,
    genre: Supplied<string>,
    status: Supplied<string>)

  datatype ChapterRequest = ChapterRequest(
    bookId: Supplied<string>,
    title: Supplied<string>,
    content: Supplied<string>,
    chapterNumber: Supplied<int>)

  datatype CommentRequest = CommentRequest(bookId: Supplied<string>, userName: Supplied<string>, content: Supplied<string>)

  datatype LibraryItemRequest = LibraryItemRequest(userId: Supplied<string>, bookId: Supplied<string>)

  const DefaultStatus := "ongoing"

  /**
   * A required field (`Field(...)`): only a given value is accepted; a missing
   * or null value rejects the body, naming the field.
   */
  function Required<T>(s: Supplied<T>, name: string): (r: Result<T, string>)
    ensures r.Ok? <==> s.Given?
    ensures r.Ok? ==> r.value == s.value
    ensures r.Err? ==> r.error == name
  {
    if s.Given? then Ok(s.value) else Err(name)
  }

  /** An `Optional[...]` field defaulting to None: missing and null both read as absent. */
  function Nullable<T>(s: Supplied<T>): (r: Option<T>)
    ensures r.Some? <==> s.Given?
    ensures r.Some? ==> r.value == s.value
  {
    if s.Given? then Some(s.value) else None
  }

  /**
   * A non-optional field with a default: a missing field takes the default,
   * an explicit null is rejected.
   */
  function WithDefault<T>(s: Supplied<T>, default: T): (r: Option<T>)
    ensures r.None? <==> s.Null?
    ensures s.Missing? ==> r == Some(default)
    ensures s.Given? ==> r == Some(s.value)
  {
    match s
    case Missing => Some(default)
    case Null => None
    case Given(v) => Some(v)
  }

  /** The names of the fields that failed validation, in declaration order. */
  function Rejected(checks: seq<(string, bool)>): (names: seq<string>)
    ensures |names| <= |checks|
    ensures forall n :: n in names <==> exists i :: 0 <= i < |checks| && checks[i] == (n, false)
  {
    if checks == [] then []
    else (if checks[0].1 then [] else [checks[0].0]) + Rejected(checks[1..])
  }

  /** Validation of a `Book` body; an error lists the offending field names. */
  function ParseBook(r: BookRequest): (res: Result<Book, seq<string>>)
    ensures res.Ok? <==>
      r.title.Given? && r.authorName.Given? && !r.tags.Null? && !r.categories.Null? && !r.status.Null?
    ensures res.Err? ==> res.error != []
    ensures res.Ok? ==> res.value.title == r.title.value && res.value.authorName == r.authorName.value
    ensures res.Ok? ==> res.value.description == Nullable(r.description)
    ensures res.Ok? ==> res.value.coverUrl == Nullable(r.coverUrl)
    ensures res.Ok? ==> res.value.genre == Nullable(r.genre)
    ensures res.Ok? ==> Some(res.value.tags) == WithDefault(r.tags, [])
    ensures res.Ok? ==> Some(res.value.categories) == WithDefault(r.categories, [])
    ensures res.Ok? ==> Some(res.value.status) == WithDefault(r.status, DefaultStatus)
  {
    var checks := [("title", r.title.Given?), ("author_name", r.authorName.Given?),
                   ("tags", !r.tags.Null?), ("categories", !r.categories.Null?),
                   ("status", !r.status.Null?)];
    var title, authorName := Required(r.title, "title"), Required(r.authorName, "author_name");
    var tags, categories := WithDefault(r.tags, []), WithDefault(r.categories, []);
    var status := WithDefault(r.status, DefaultStatus);
    if title.Ok? && authorName.Ok? && tags.Some? && categories.Some? && status.Some? then
      Ok(Book(title.value, Nullable(r.description), authorName.value, Nullable(r.coverUrl),
              tags.value, categories.value, Nullable(r.genre), status.value))
    else
      var failed := if !r.title.Given? then 0 else if !r.authorName.Given? then 1
                    else if r.tags.Null? then 2 else if r.categories.Null? then 3 else 4;
      RejectedNamesFailure(checks, failed);
      Err(Rejected(checks))
  }

  lemma RejectedNamesFailure(checks: seq<(string, bool)>, i: int)
    requires 0 <= i < |checks| && !checks[i].1
    ensures checks[i].0 in Rejected(checks)
  {
  }

  /** Validation of a `Chapter` body. */
  function ParseChapter(r: ChapterRequest): (res: Result<Chapter, seq<string>>)
    ensures res.Ok? <==> r.bookId.Given? && r.title.Given? && r.content.Given?
    ensures res.Err? ==> res.error != []
    ensures res.Ok? ==> res.value == Chapter(r.bookId.value, r.title.value, r.content.value, Nullable(r.chapterNumber))
  {
    var checks := [("book_id", r.bookId.Given?), ("title", r.title.Given?), ("content", r.content.Given?)];
    if r.bookId.Given? && r.title.Given? && r.content.Given? then
      Ok(Chapter(r.bookId.value, r.title.value, r.content.value, Nullable(r.chapterNumber)))
    else
      RejectedNamesFailure(checks, if !r.bookId.Given? then 0 else if !r.title.Given? then 1 else 2);
      Err(Rejected(checks))
  }

  /** Validation of a `Comment` body: every field is required. */
  function ParseComment(r: CommentRequest): (res: Result<Comment, seq<string>>)
    ensures res.Ok? <==> r.bookId.Given? && r.userName.Given? && r.content.Given?
    ensures res.Err? ==> res.error != []
    ensures res.Ok? ==> res.value == Comment(r.bookId.value, r.userName.value, r.content.value)
  {
    var checks := [("book_id", r.bookId.Given?), ("user_name", r.userName.Given?), ("content", r.content.Given?)];
    if r.bookId.Given? && r.userName.Given? && r.content.Given? then
      Ok(Comment(r.bookId.value, r.userName.value, r.content.value))
    else
      RejectedNamesFailure(checks, if !r.bookId.Given? then 0 else if !r.userName.Given? then 1 else 2);
      Err(Rejected(checks))
  }

  /** Validation of a `LibraryItem` body: both fields are required plain strings. */
  function ParseLibraryItem(r: LibraryItemRequest): (res: Result<LibraryItem, seq<string>>)
    ensures res.Ok? <==> r.userId.Given? && r.bookId.Given?
    ensures res.Err? ==> res.error != []
    ensures res.Ok? ==> res.value == LibraryItem(r.userId.value, r.bookId.value)
  {
    var checks := [("user_id", r.userId.Given?), ("book_id", r.bookId.Given?)];
    if r.userId.Given? && r.bookId.Given? then
      Ok(LibraryItem(r.userId.value, r.bookId.value))
    else
      RejectedNamesFailure(checks, if !r.userId.Given? then 0 else 1);
      Err(Rejected(checks))
  }

  /** A body with only the two required fields gets the defaults for everything else. */
  lemma BookDefaults(title: string, authorName: string)
    ensures ParseBook(BookRequest(Given(title), Missing, Given(authorName), Missing, Missing, Missing, Missing, Missing))
      == Ok(Book(title, None, authorName, None, [], [], None, "ongoing"))
  {
  }

  /** Leaving out `title` or `author_name` is rejected, naming the missing field. */
  lemma BookRequiresTitleAndAuthor(r: BookRequest)
    requires !r.title.Given? || !r.authorName.Given?
    ensures ParseBook(r).Err?
    ensures !r.title.Given? ==> "title" in ParseBook(r).error
    ensures !r.authorName.Given? ==> "author_name" in ParseBook(r).error
  {
    var checks := [("title", r.title.Given?), ("author_name", r.authorName.Given?),
                   ("tags", !r.tags.Null?), ("categories", !r.categories.Null?),
                   ("status", !r.status.Null?)];
    assert ParseBook(r).error == Rejected(checks);
    if !r.title.Given? {
      assert checks[0] == ("title", false);
    }
    if !r.authorName.Given? {
      assert checks[1] == ("author_name", false);
    }
  }

  /** Any status string is stored as given: nothing restricts it to ongoing, completed or hiatus. */
  lemma StatusIsUnchecked(r: BookRequest, status: string)
    requires r.title.Given? && r.authorName.Given? && !r.tags.Null? && !r.categories.Null?
    ensures ParseBook(r.(status := Given(status))).Ok?
    ensures ParseBook(r.(status := Given(status))).value.status == status
  {
  }

  /** A chapter body without `chapter_number` yields no number, which triggers auto-numbering. */
  lemma ChapterNumberDefaultsToNone(r: ChapterRequest)
    requires r.bookId.Given? && r.title.Given? && r.content.Given?
    requires r.chapterNumber.Missing? || r.chapterNumber.Null?
    ensures ParseChapter(r).Ok? && ParseChapter(r).value.chapterNumber == None
  {
  }

  /** `book_id` of a library item is not checked at creation: any string is accepted. */
  lemma LibraryItemAcceptsAnyBookId(userId: string, bookId: string)
    ensures ParseLibraryItem(LibraryItemRequest(Given(userId), Given(bookId))) == Ok(LibraryItem(userId, bookId))
  {
  }
}
