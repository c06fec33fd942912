/**
 * The filter `list_books` builds from its optional query parameters, what a
 * filter means when the store applies it to a book, and the book queries that
 * use a filter (`list_books`, `discover_by_tag`, `discover_by_category`).
 */
module Filters {
  import opened Wrappers
  import opened Strings
  import opened Schemas
  import opened Documents

  /** The optional query parameters `q`, `tag`, `category` and `genre`. */
  datatype Params = Params(q: Option<string>, tag: Option<string>, category: Option<string>, genre: Option<string>)

  /** Python truthiness of an optional string: neither None nor empty. */
  predicate Truthy(p: Option<string>)
  {
    p.Some? && p.value != ""
  }

  /** The book fields a filter can constrain. */
  datatype Field = Title | Tags | Categories | Genre

  /** A condition on one field: equal to a value, or a case-insensitive match. */
  datatype Cond = Equals(value: string) | MatchesIgnoringCase(pattern: string)

  /** A filter document: one condition per field, all of which must hold. */
  type Filter = map<Field, Cond>

  /** The values the store compares a condition with: an array field offers each element. */
  function FieldValues(b: Book, fd: Field): seq<string>
  {
    match fd
    case Title => [b.title]
    case Tags => b.tags
    case Categories => b.categories
    case Genre => if b.genre.Some? then [b.genre.value] else []
  }

  /** A condition holds of a field when some value it offers satisfies it. */
  predicate Holds(c: Cond, values: seq<string>)
  {
    match c
    case Equals(v) => v in values
    case MatchesIgnoringCase(pat) => exists v :: v in values && ContainsIgnoringCase(v, pat)
  }

  predicate Matches(f: Filter, b: Book)
  {
    forall fd :: fd in f ==> Holds(f[fd], FieldValues(b, fd))
  }

  /**
   * What the parameters ask of a book, read directly off the parameters: each
   * non-empty one is a constraint, and all of them must hold.
   */
  predicate Admits(p: Params, b: Book)
  {
    && (Truthy(p.q) ==> ContainsIgnoringCase(b.title, p.q.value))
    && (Truthy(p.tag) ==> p.tag.value in b.tags)
    && (Truthy(p.category) ==> p.category.value in b.categories)
    && (Truthy(p.genre) ==> b.genre == Some(p.genre.value))
  }

  /** The number of parameters that are present and non-empty. */
  function ActiveCount(p: Params): nat
  {
    (if Truthy(p.q) then 1 else 0) + (if Truthy(p.tag) then 1 else 0)
    + (if Truthy(p.category) then 1 else 0) + (if Truthy(p.genre) then 1 else 0)
  }

  /** The filter for the parameters, one entry per non-empty parameter. */
  function FilterFor(p: Params): (f: Filter)
    ensures |f| == ActiveCount(p)
  {
    var f0: Filter := map[];
    var f1 := if Truthy(p.q) then f0[Title := MatchesIgnoringCase(p.q.value)] else f0;
    var f2 := if Truthy(p.tag) then f1[Tags := Equals(p.tag.value)] else f1;
    var f3 := if Truthy(p.category) then f2[Categories := Equals(p.category.value)] else f2;
    if Truthy(p.genre) then f3[Genre := Equals(p.genre.value)] else f3
  }

  /** `filter_dict`, built by updating an empty dictionary once per non-empty parameter. */
  method BuildFilter(p: Params) returns (f: Filter)
    ensures f == FilterFor(p)
  {
    f := map[];
    if p.q.Some? && p.q.value != "" {
      f := f[Title := MatchesIgnoringCase(p.q.value)];
    }
    if p.tag.Some? && p.tag.value != "" {
      f := f[Tags := Equals(p.tag.value)];
    }
    if p.category.Some? && p.category.value != "" {
      f := f[Categories := Equals(p.category.value)];
    }
    if p.genre.Some? && p.genre.value != "" {
      f := f[Genre := Equals(p.genre.value)];
    }
  }

  /** The filter built from the parameters admits exactly the books the parameters describe. */
  lemma FilterMeaning(p: Params, b: Book)
    ensures Matches(FilterFor(p), b) <==> Admits(p, b)
  {
    var f := FilterFor(p);
    if Matches(f, b) {
      if Truthy(p.q) {
        assert Holds(f[Title], FieldValues(b, Title));
        var v :| v in [b.title] && ContainsIgnoringCase(v, p.q.value);
      }
      if Truthy(p.tag) { assert Holds(f[Tags], FieldValues(b, Tags)); }
      if Truthy(p.category) { assert Holds(f[Categories], FieldValues(b, Categories)); }
      if Truthy(p.genre) { assert Holds(f[Genre], FieldValues(b, Genre)); }
    }
    if Admits(p, b) {
      forall fd | fd in f ensures Holds(f[fd], FieldValues(b, fd)) {
        if fd == Title {
          assert b.title in FieldValues(b, Title);
        }
      }
    }
  }

  /** With no non-empty parameter the filter is empty and every book matches. */
  lemma NoParamsMatchAll(p: Params, b: Book)
    requires !Truthy(p.q) && !Truthy(p.tag) && !Truthy(p.category) && !Truthy(p.genre)
    ensures FilterFor(p) == map[]
    ensures Matches(FilterFor(p), b)
  {
  }

  /** Replaces an empty-string parameter by an absent one. */
  function Normalized(p: Params): (n: Params)
    ensures Truthy(n.q) == Truthy(p.q) && (n.q.Some? ==> n.q.value != "")
    ensures Truthy(n.tag) == Truthy(p.tag) && (n.tag.Some? ==> n.tag.value != "")
    ensures Truthy(n.category) == Truthy(p.category) && (n.category.Some? ==> n.category.value != "")
    ensures Truthy(n.genre) == Truthy(p.genre) && (n.genre.Some? ==> n.genre.value != "")
    ensures Truthy(n.q) ==> n.q == p.q
    ensures Truthy(n.tag) ==> n.tag == p.tag
    ensures Truthy(n.category) ==> n.category == p.category
    ensures Truthy(n.genre) ==> n.genre == p.genre
  {
    Params(
      if Truthy(p.q) then p.q else None,
      if Truthy(p.tag) then p.tag else None,
      if Truthy(p.category) then p.category else None,
      if Truthy(p.genre) then p.genre else None)
  }

  /** An empty-string parameter constrains nothing, exactly like an absent one. */
  lemma EmptyIsLikeAbsent(p: Params)
    ensures FilterFor(p) == FilterFor(Normalized(p))
    ensures ActiveCount(p) == ActiveCount(Normalized(p))
  {
  }

  /** A `tag` filter is a test of membership in the book's tag list, not of a substring. */
  lemma TagIsElementTest(tag: string, b: Book)
    requires tag != ""
    ensures Matches(FilterFor(Params(None, Some(tag), None, None)), b) <==> tag in b.tags
  {
    FilterMeaning(Params(None, Some(tag), None, None), b);
  }

  /** Likewise a `category` filter tests membership in `categories`. */
  lemma CategoryIsElementTest(category: string, b: Book)
    requires category != ""
    ensures Matches(FilterFor(Params(None, None, Some(category), None)), b) <==> category in b.categories
  {
    FilterMeaning(Params(None, None, Some(category), None), b);
  }

  /** "fantasy" inside the tag "dark fantasy" does not match the tag filter "fantasy". */
  lemma TagSubstringDoesNotMatch(b: Book)
    requires b.tags == ["dark fantasy"]
    ensures !Matches(FilterFor(Params(None, Some("fantasy"), None, None)), b)
  {
    TagIsElementTest("fantasy", b);
    assert "fantasy" != "dark fantasy";
  }

  /** `find(filter)`: the matching records, in store order. */
  function Find(rs: seq<Record<StoredBook>>, f: Filter): (r: seq<Record<StoredBook>>)
    ensures |r| <= |rs|
    ensures forall x :: x in r <==> x in rs && Matches(f, x.fields.book)
  {
    if rs == [] then []
    else (if Matches(f, rs[0].fields.book) then [rs[0]] else []) + Find(rs[1..], f)
  }

  /** The books the parameters describe, in store order. */
  function Selected(rs: seq<Record<StoredBook>>, p: Params): (r: seq<Record<StoredBook>>)
    ensures |r| <= |rs|
    ensures forall x :: x in r <==> x in rs && Admits(p, x.fields.book)
  {
    if rs == [] then []
    else (if Admits(p, rs[0].fields.book) then [rs[0]] else []) + Selected(rs[1..], p)
  }

  /** Querying with the built filter selects exactly the described books, in store order. */
  lemma {:induction false} FindIsSelected(rs: seq<Record<StoredBook>>, p: Params)
    ensures Find(rs, FilterFor(p)) == Selected(rs, p)
  {
    if rs != [] {
      FilterMeaning(p, rs[0].fields.book);
      FindIsSelected(rs[1..], p);
    }
  }

  /** A filter with a single entry asks exactly that entry's condition of its field. */
  lemma SingleFieldMatches(fd: Field, c: Cond, b: Book)
    ensures Matches(map[fd := c], b) <==> Holds(c, FieldValues(b, fd))
  {
    var f := map[fd := c];
    assert fd in f;
    assert forall g :: g in f ==> g == fd;
  }

  /**
   * The filter `discover_by_tag` passes on. It matches the books listing the
   * tag; unlike `list_books`, an empty tag is a real constraint (only books
   * listing "" match).
   */
  function TagFilter(tag: string): (f: Filter)
    ensures forall b :: Matches(f, b) <==> tag in b.tags
  {
    var f := map[Tags := Equals(tag)];
    assert forall b :: Matches(f, b) <==> tag in b.tags by {
      forall b: Book ensures Matches(f, b) <==> tag in b.tags {
        SingleFieldMatches(Tags, Equals(tag), b);
      }
    }
    f
  }

  /** The filter `discover_by_category` passes on: it matches the books listing the category. */
  function CategoryFilter(category: string): (f: Filter)
    ensures forall b :: Matches(f, b) <==> category in b.categories
  {
    var f := map[Categories := Equals(category)];
    assert forall b :: Matches(f, b) <==> category in b.categories by {
      forall b: Book ensures Matches(f, b) <==> category in b.categories {
        SingleFieldMatches(Categories, Equals(category), b);
      }
    }
    f
  }
}
