# Novel catalog: query and aggregation layer in Dafny

This project models the query layer of a novel-sharing catalog service. The service keeps four document
collections: `book`, `chapter`, `comment` and `libraryitem`. The model covers five rules, each proved correct:

- **Identifier codec** (`ObjectIds`). A client string becomes a native 12-byte identifier only when it is
  24 hexadecimal digits (`to_obj_id`, `ObjectId.is_valid`). Any other string is a 400 "Invalid ID" error.
  Identifiers go back out as 24 lower-case digits. Every returned document has its `_id` replaced by that
  string (`Documents.StringifyIds`, an in-place loop over an array of documents).
- **Filter builder** (`Filters`). `list_books` turns its optional `q`, `tag`, `category` and `genre` into a
  filter dictionary, one entry per non-empty parameter. `q` is a case-insensitive match on `title`. `tag` and
  `category` test membership in the `tags` and `categories` lists. `genre` is exact equality. The filter's
  meaning (`Matches`) is proved equal to a reference reading of the parameters (`Admits`).
- **Chapter numbering** (`Chapters`, `Catalog.Store.CreateChapter`). A chapter without `chapter_number` is
  numbered 1 + the number of chapters already stored with the same `book_id`. A given number is kept.
- **Library de-duplication and assembly** (`Library`, `Catalog.Store.AddToLibrary`, `Catalog.Store.GetLibrary`).
  Adding an existing `(user_id, book_id)` pair returns the existing record's id and stores nothing.
  `get_library` decodes the saved `book_id`s, fetches the books in one `$in` query, indexes them by string id
  and picks them in item order. This batched lookup is proved equal to a simple per-item reference
  (`Library.LibraryView`).
- **Trending ranker** (`Trending`). The ranker joins chapters onto books, counts them, sorts by count and then
  `updated_at` (both descending) and truncates to `limit`.

The store is a `Catalog.Store` object. It holds one sequence of records per collection, in insertion order.
The handlers that read the store are methods that change nothing. The two handlers that insert
(`CreateChapter`, `AddToLibrary`) update the store's fields. Each inserted record gets an identifier that the
store generates; the model passes it in as a parameter (`newId`).

Behaviour of the code that the model keeps as written:

- `ObjectId.is_valid` accepts upper-case hexadecimal. But `get_library` indexes the fetched books by the
  lower-case string form and looks them up by the raw `book_id`. So a saved upper-case id fetches its book and
  then drops it (`Library.UpperCaseIdDropped`).
- The trending `$lookup` compares the book's native `_id` with the chapter's string `book_id`. These values
  are never equal, so every book gets `chapters_count` 0 (`Trending.JoinNeverMatches`). The ranking is
  therefore by `updated_at` alone (`Trending.TrendingByRecency`). The join keys are explicit in the model
  (`Trending.LocalKey`, `Trending.ForeignKey`).
- The numbering rule counts chapters rather than reading their numbers. An auto-numbered chapter can
  therefore repeat an explicit number (`Chapters.AutoNumberMayRepeat`).

More facts about the code that the model states:

- `tags` and `categories` are lists. Their order and any duplicates are kept (`Schemas.ParseBook`).
- `status` is any string; no set of allowed values is enforced (`Schemas.StatusIsUnchecked`).
- An identifier string may use upper-case hexadecimal digits (`ObjectIds.Decode`).
- The trending pipeline fails for a `limit` of 0 or less, which the server refuses as a `$limit` stage. It
  also fails for a `limit` above the 64-bit maximum, which the client's BSON encoder cannot encode. The model
  gives both cases the same error (`Trending.Pipeline`).

## Model

| member | source | states |
|---|---|---|
| `Strings.OccursAtIgnoringCase` | main.py:88 | the pattern matches at an offset, ignoring case, if and only if each of its characters equals the text's character there once both are lower-cased |
| `Strings.ContainsIsContainsIgnoringCase` | main.py:88 | an exact occurrence of `q` in a title is also a case-insensitive match |
| `Strings.UnanchoredIgnoringCase` | main.py:88 | the title match is case-insensitive and not anchored: "abc" is found inside "xAbCx" |
| `ObjectIds.Decode` | main.py:27-31 | decoding succeeds exactly on strings of 24 hexadecimal digits (either case) |
| `ObjectIds.Encode` | main.py:98 | the string form of an identifier is 24 lower-case hexadecimal digits, a valid identifier string |
| `ObjectIds.ToObjId` | main.py:27-31 | a malformed string gives the 400 "Invalid ID" error and nothing else does; a decoded id encodes back to the lower-cased input |
| `ObjectIds.DecodeEncode` | main.py:27-31 | decoding the string form of an identifier gives the identifier back |
| `ObjectIds.EncodeDecode` | main.py:27-31 | encoding a decoded valid string gives the string, lower-cased |
| `ObjectIds.CanonicalRoundTrip` | main.py:27-31 | on lower-case valid strings, decode then encode is the identity |
| `ObjectIds.EncodeInjective` | main.py:169 | distinct identifiers have distinct string forms, so the map keyed by them loses no book |
| `ObjectIds.UpperCaseIsNotAnEncoding` | main.py:169 | a string with an upper-case digit is never the string form of an identifier |
| `ObjectIds.HexToBytes` | main.py:29 | two hexadecimal digits per byte: the decoded byte sequence has half the string's length |
| `ObjectIds.BytesRoundTrip` | main.py:29 | reading back the hexadecimal form of any byte sequence gives the bytes |
| `ObjectIds.HexRoundTrip` | main.py:29 | writing out the bytes read from an even-length hexadecimal string gives the string lower-cased |
| `Schemas.Required` | schemas.py:17 | a required field accepts exactly a given value; a missing or null one rejects the body, naming the field |
| `Schemas.Nullable` | schemas.py:18 | an optional field defaulting to None is absent when missing or null |
| `Schemas.WithDefault` | schemas.py:21 | a defaulted field takes its default when missing, rejects null, keeps a given value |
| `Schemas.Rejected` | schemas.py:16-42 | the validation error lists exactly the fields that failed |
| `Schemas.ParseBook` | schemas.py:16-24 | a book body is accepted exactly when title and author_name are given and tags, categories, status are not null; an accepted book keeps every given value, has None for a missing optional field and the default for a missing defaulted one; a rejection names a field |
| `Schemas.ParseChapter` | schemas.py:27-31 | a chapter body is accepted exactly when book_id, title and content are given; the chapter keeps them and a given `chapter_number`, and has no number otherwise |
| `Schemas.ParseComment` | schemas.py:34-37 | a comment body is accepted exactly when all three fields are given and keeps them as given; a rejection names a field |
| `Schemas.ParseLibraryItem` | schemas.py:40-42 | a library item body is accepted exactly when user_id and book_id are given and keeps both as given; a rejection names a field |
| `Schemas.BookDefaults` | schemas.py:16-24 | with only title and author_name given: no description, cover or genre, empty tags and categories, status "ongoing" |
| `Schemas.BookRequiresTitleAndAuthor` | schemas.py:17-19 | a book body without title or author_name is rejected, naming each missing field |
| `Schemas.StatusIsUnchecked` | schemas.py:24 | any status string is accepted and stored unchanged |
| `Schemas.ChapterNumberDefaultsToNone` | schemas.py:31 | a chapter body without a number yields no number |
| `Schemas.LibraryItemAcceptsAnyBookId` | schemas.py:40-42 | any two strings make a library item; book_id is not checked |
| `Documents.IdString` | main.py:98 | `str` of a native `_id` decodes back to it; `str` of a string is the string |
| `Documents.Stringified` | main.py:98 | after the overwrite `_id` is a string that decodes to the former native id; other fields unchanged |
| `Documents.Rendered` | main.py:107 | a returned record carries its id's string form and all its fields |
| `Documents.RenderedAll` | main.py:97-98 | every returned document is its record rendered, position by position |
| `Documents.StringifiedIdempotent` | main.py:98 | overwriting `_id` a second time changes nothing |
| `Documents.StringifyIds` | main.py:97-98 | the in-place loop leaves every document stringified and no native `_id` in the list |
| `Documents.Returned` | main.py:96-99 | a query result leaves the handler as the rendered records, in order |
| `Documents.FindById` | main.py:104 | `find_one` by `_id` yields a stored record with that id, and none exactly when no record has it |
| `Documents.Take` | main.py:96 | a limited result is a prefix: exactly the first `limit` results, or all of them when there are fewer |
| `Filters.FilterFor` | main.py:86-94 | the filter has one entry per non-empty parameter |
| `Filters.BuildFilter` | main.py:86-94 | the dictionary built by in-place updates is the filter for the parameters |
| `Filters.FilterMeaning` | main.py:86-94 | a book matches the built filter if and only if it satisfies every non-empty parameter |
| `Filters.NoParamsMatchAll` | main.py:86 | with no non-empty parameter the filter is empty and matches every book |
| `Filters.Normalized` | main.py:87-93 | turning empty-string parameters into absent ones keeps, for each of the four parameters, whether it counts and its value when it does |
| `Filters.EmptyIsLikeAbsent` | main.py:87-94 | an empty-string parameter gives the same filter as an absent one |
| `Filters.TagIsElementTest` | main.py:89-90 | a non-empty tag matches a book if and only if it is an element of its tags |
| `Filters.CategoryIsElementTest` | main.py:91-92 | a non-empty category matches a book if and only if it is an element of its categories |
| `Filters.TagSubstringDoesNotMatch` | main.py:89-90 | the tag "fantasy" does not match a book tagged only "dark fantasy" |
| `Filters.Find` | main.py:96 | the query returns exactly the stored books matching the filter, no more of them than stored |
| `Filters.Selected` | main.py:78-94 | reference reading: exactly the stored books the parameters admit |
| `Filters.FindIsSelected` | main.py:86-96 | querying with the built filter returns the admitted books, in store order |
| `Filters.SingleFieldMatches` | main.py:201 | a one-entry filter matches a book if and only if that entry's condition holds on its field |
| `Filters.TagFilter` | main.py:201 | the tag query matches a book if and only if the tag, even an empty one, is in its tags |
| `Filters.CategoryFilter` | main.py:209 | the category query matches if and only if the category is in the book's categories |
| `Chapters.ChaptersOf` | main.py:116 | the counted chapters are exactly the stored chapters with the same `book_id` |
| `Chapters.CountFor` | main.py:116 | the count is at most the number of stored chapters, and zero exactly when no stored chapter has the `book_id` |
| `Chapters.Numbered` | main.py:115-117 | the stored chapter always has a number, and a given number is kept with the chapter unchanged |
| `Chapters.ChaptersOfAppend` | main.py:116-118 | storing a chapter adds it to its own book's chapters and no other book's |
| `Chapters.AutoNumberIsNext` | main.py:115-118 | an auto-number is 1 + the existing count and equals the book's chapter count after the insert |
| `Chapters.AutoNumberKeepsSequence` | main.py:115-118 | auto-numbered inserts keep every book's chapters numbered 1, 2, 3, ... in store order |
| `Chapters.ThirdChapter` | main.py:115-117 | with two chapters stored for the book, the next auto-number is 3 |
| `Chapters.OtherBooksIgnored` | main.py:116 | chapters of other books do not change the number |
| `Chapters.AutoNumberMayRepeat` | main.py:115-117 | after one chapter explicitly numbered 2, the next auto-number is also 2 |
| `Library.FindPair` | main.py:157 | the look-up finds the first record saved for the pair, and none exactly when the pair is not saved |
| `Library.Add` | main.py:157-161 | the library is unchanged or gains the one new record, and the returned id names a record for the pair |
| `Library.AddExisting` | main.py:157-159 | adding a saved pair stores nothing and returns the first saved record's id |
| `Library.AddNew` | main.py:160-161 | adding an unsaved pair appends one record and returns its new id |
| `Library.AddIdempotent` | main.py:157-161 | a second sequential add of the same pair changes nothing and returns the same id |
| `Library.PairCountZero` | main.py:157 | the pair is counted zero times exactly when no record holds it |
| `Library.AddStoresPairOnce` | main.py:157-161 | after an add, a pair that was not saved is saved exactly once, and a saved one is not saved again |
| `Library.AddKeepsPairsUnique` | main.py:157-161 | sequential adds keep at most one record per pair |
| `Library.ItemsOf` | main.py:166 | the user's items are exactly the library records with that `user_id` |
| `Library.ItemsOfAppend` | main.py:166 | the user's items keep store order: a record saved later comes after those saved earlier |
| `Library.BookIds` | main.py:167 | the collected ids are the items' `book_id`s, position by position |
| `Library.DecodedIds` | main.py:168 | every valid `book_id` is decoded into the `$in` list, and every entry of the list is the decoding of a valid `book_id`: invalid ones are skipped |
| `Library.FetchIn` | main.py:168 | the `$in` query returns exactly the stored books whose id was asked for |
| `Library.Resolve` | main.py:169-173 | a saved id resolves to a stored book whose string id is exactly it, or to nothing when none has it |
| `Library.IndexByKey` | main.py:169 | the map has a key for exactly the fetched books' string ids, each leading to its book |
| `Library.Pick` | main.py:173 | each picked book is the one the map gives for one of the ids, no more books than ids, none when no id is in the map |
| `Library.Resolved` | main.py:173 | the reference library: no more books than ids, each with a string `_id` |
| `Library.LibraryView` | main.py:164-174 | what `get_library` returns: no more books than the user's items, each with a string `_id` |
| `Library.Contribution` | main.py:173 | a saved id contributes one book, whose `_id` is that id, exactly when it resolves, and none otherwise |
| `Library.FetchKeepsResolve` | main.py:168-169 | fetching only the asked-for ids keeps every book a saved id can name |
| `Library.EncodedIdIsDecoded` | main.py:168 | a stored book named by a saved id is among the ids the `$in` query asks for |
| `Library.PickIsResolved` | main.py:166-173 | the batched look-up returns exactly the per-item reference reading |
| `Library.ResolvedAppend` | main.py:173 | save order is kept: the books for items `xs + ys` are those for `xs` then those for `ys` |
| `Library.LibraryViewAppend` | main.py:164-174 | saving one more item extends the user's library at the end, by that item's book, or by nothing when the item is another user's or names no stored book |
| `Library.ResolvedMembers` | main.py:173 | a document is returned if and only if some item's id resolves to it |
| `Library.ResolvedFromItems` | main.py:169-173 | every returned book is a stored book whose `_id` is the `book_id` of an item naming it |
| `Library.EmptyLibrary` | main.py:166-173 | a user with no items gets an empty library, not an error |
| `Library.MissingBookSkipped` | main.py:173 | items A, B, C with B's book gone give A's book then C's |
| `Library.DuplicatesRepeat` | main.py:173 | an item saved twice yields its book twice |
| `Library.UpperCaseIdDropped` | main.py:168-173 | an upper-case valid id decodes, and the `$in` query fetches any stored book with that id, but the id resolves to nothing and is dropped |
| `Trending.LocalKey` | main.py:182 | the join reads a book's native `_id`, whose string form decodes to the book's id |
| `Trending.ForeignKey` | main.py:182 | the join reads a chapter's `book_id` as the raw string |
| `Trending.JoinChapters` | main.py:182 | the joined chapters are exactly the stored chapters whose `book_id` value equals the join key |
| `Trending.Lookup` | main.py:182-189 | every book is kept, its `chapters` are the chapters joined on its `_id` and `chapters_count` is their number |
| `Trending.OutranksTransitive` | main.py:190 | the sort order is transitive |
| `Trending.ConsSorted` | main.py:190 | a book that outranks a sorted list can be put in front of it |
| `Trending.OutranksPermutation` | main.py:190 | a book that outranks `x` and a list also outranks every element of any permutation of them |
| `Trending.Insert` | main.py:190 | inserting into a sorted ranking keeps it sorted and adds exactly that book |
| `Trending.SortStage` | main.py:190 | the sort yields a permutation ordered by count, then `updated_at`, both descending |
| `Trending.Pipeline` | main.py:181-193 | the pipeline fails exactly when `limit` is not a positive 64-bit integer |
| `Trending.JoinNeverMatches` | main.py:182 | a native `_id` never equals a string `book_id`: no chapter is joined |
| `Trending.CountsAreZero` | main.py:182-189 | every ranked book has `chapters_count` 0 and no chapters |
| `Trending.TrendingLength` | main.py:191 | the result has `limit` books, or all of them when there are fewer |
| `Trending.TrendingOrdered` | main.py:190 | the result is non-increasing in count and, for equal counts, in `updated_at` |
| `Trending.TrendingByRecency` | main.py:182-190 | as written, the result is non-increasing in `updated_at` alone |
| `Trending.EveryBookRanked` | main.py:182-191 | books without chapters are kept: with a large enough limit every stored book appears |
| `Trending.KeptOutrankDropped` | main.py:190-191 | a book cut by the limit is outranked by every book kept |
| `Trending.RankingExample` | main.py:190-191 | chapter counts 5, 0, 3 with limit 2 give the books with 5 and 3, in that order |
| `Catalog.Store.ListBooks` | main.py:78-99 | the result is the first `limit` admitted books in store order (all of them when fewer), each admitted and with a string `_id` |
| `Catalog.Store.GetBook` | main.py:102-108 | 400 for a malformed id, 404 when no book has it, otherwise that book with its lower-cased id string |
| `Catalog.Store.GetChapter` | main.py:130-136 | 400 for a malformed id, 404 when no chapter has it, otherwise that chapter |
| `Catalog.Store.CreateChapter` | main.py:112-119 | the chapter is appended with its number filled in as 1 + the book's chapter count when absent; other collections unchanged |
| `Catalog.Store.AddToLibrary` | main.py:155-161 | the new library and the returned id are those of the look-up-before-insert rule |
| `Catalog.Store.GetLibrary` | main.py:164-174 | the batched assembly returns the reference library, no longer than the user's items |
| `Catalog.Store.DiscoverTrending` | main.py:178-196 | an error exactly for a limit the store refuses, otherwise the ranked books, at most `limit`, with string ids |
| `Catalog.Store.DiscoverByTag` | main.py:199-204 | the result is the first `limit` books listing the tag in store order (all of them when fewer) |
| `Catalog.Store.DiscoverByCategory` | main.py:207-212 | the result is the first `limit` books listing the category in store order (all of them when fewer) |
| `Catalog.AddTwice` | main.py:155-161 | two sequential adds of one pair return the same id; a pair not saved before ends up saved once, and a saved pair's count is unchanged |

## Left out

- HTTP plumbing is not modelled: routing, CORS, the `/` and `/test` endpoints, and server start-up. Errors are
  modelled only as a status code and a detail string (`Http.HttpError`).
- The `database` module is not part of this model. `get_documents(collection, filter, limit)` is taken to be
  "the first `limit` matching records in store order". `create_document` is taken to insert one record under a
  store-generated identifier, which the model passes in as `newId`. No other field is stamped on inserted
  records.
- `create_book` and `add_comment` are plain inserts through `create_document` and are not modelled.
  `list_chapters` (sort by `chapter_number`) and `list_comments` (sort by `created_at`, a field no shown code
  sets) are not modelled either. The `User` schema is used by nothing.
- Catalog.Store.ListBooks: `q` is matched as a literal substring with ASCII case folding. The store treats it
  as a regular expression with Unicode case folding.
- Catalog.Store.ListBooks: requires `1 <= limit <= 100`. The routing layer's query validation enforces that
  range before the handler runs.
- Catalog.Store.DiscoverByTag: requires `limit >= 1`. A smaller limit goes to the database module, whose
  behaviour is unknown.
- Catalog.Store.DiscoverByCategory: requires `limit >= 1`, for the same reason.
- ObjectIds.Decode: the model accepts exactly 24 hexadecimal digits. Python's `bytes.fromhex`, which the
  identifier constructor calls, also skips whitespace between digit pairs. That tolerance is not modelled.
- Request bodies are modelled at field level (`Schemas.Supplied`). Pydantic's type coercion and its error
  format are left out.
- Concurrency is left out. The model is sequential, so it cannot show the race between look-up and insert in
  `add_to_library` or two concurrent chapters getting the same number.
- Trending.SortStage: books equal on both sort keys keep their store order. The store leaves their order
  unspecified.
- `updated_at` is modelled as an optional integer. Mixed BSON types in that field are not modelled.
- Trending.Lookup: the joined `chapters` array keeps its native `_id`s, because only the top-level `_id` is
  stringified. The array is always empty, so this never shows.
