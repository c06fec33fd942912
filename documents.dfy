/**
 * Documents as the store holds them and as the handlers return them. A stored
 * record carries the native identifier the store assigned; a returned document
 * has had its `_id` overwritten with the identifier's string form.
 */
module Documents {
  import opened Wrappers
  import opened Schemas
  import opened ObjectIds

  /** The value under a document's `_id` key. */
  datatype IdValue = Native(oid: ObjectId) | Text(text: string)

  /** A record in a collection, with the identifier the store assigned on insertion. */
  datatype Record<T> = Record(id: ObjectId, fields: T)

  /** A document handed to a handler, whose `_id` the handler may overwrite. */
  datatype Doc<T> = Doc(id: IdValue, fields: T)

  /**
   * A book document as stored: the `Book` fields plus the `updated_at` stamp
   * that the write path may attach (none of the handlers here sets it).
   */
  datatype StoredBook = StoredBook(book: Book, updatedAt: Option<int>)

  /** The document the store returns for a record: `_id` still native. */
  function Fetched<T>(r: Record<T>): Doc<T>
  {
    Doc(Native(r.id), r.fields)
  }

  /** `str(v)` of an `_id` value: a string is left alone, a native identifier is encoded. */
  function IdString(v: IdValue): (s: string)
    ensures v.Native? ==> Decode(s) == Some(v.oid)
    ensures v.Text? ==> s == v.text
  {
    match v
    case Native(oid) => DecodeEncode(oid); Encode(oid)
    case Text(s) => s
  }

  /** The document after `d["_id"] = str(d["_id"])`. */
  function Stringified<T>(d: Doc<T>): (r: Doc<T>)
    ensures r.id.Text? && r.fields == d.fields
    ensures d.id.Native? ==> Decode(r.id.text) == Some(d.id.oid)
    ensures d.id.Text? ==> r == d
  {
    d.(id := Text(IdString(d.id)))
  }

  /** A record as a handler returns it: every field kept, `_id` replaced by its string form. */
  function Rendered<T>(r: Record<T>): (d: Doc<T>)
    ensures d.id == Text(Encode(r.id)) && d.fields == r.fields
  {
    Stringified(Fetched(r))
  }

  function RenderedAll<T>(rs: seq<Record<T>>): (ds: seq<Doc<T>>)
    ensures |ds| == |rs|
    ensures forall i :: 0 <= i < |rs| ==> ds[i] == Rendered(rs[i])
  {
    seq(|rs|, i requires 0 <= i < |rs| => Rendered(rs[i]))
  }

  /** Replacing `_id` a second time changes nothing. */
  lemma StringifiedIdempotent<T>(d: Doc<T>)
    ensures Stringified(Stringified(d)) == Stringified(d)
  {
  }

  /** The `for d in docs: d["_id"] = str(d["_id"])` loop, in place over the result list. */
  method StringifyIds<T>(docs: array<Doc<T>>)
    modifies docs
    ensures forall i :: 0 <= i < docs.Length ==> docs[i] == Stringified(old(docs[i]))
    ensures forall i :: 0 <= i < docs.Length ==> docs[i].id.Text?
  {
    for i := 0 to docs.Length
      invariant forall k :: 0 <= k < i ==> docs[k] == Stringified(old(docs[k]))
      invariant forall k :: i <= k < docs.Length ==> docs[k] == old(docs[k])
    {
      docs[i] := docs[i].(id := Text(IdString(docs[i].id)));
    }
  }

  /**
   * A query result as it leaves a handler: the store's documents are put in a
   * list and then stringified in place.
   */
  method Returned<T>(rs: seq<Record<T>>) returns (out: seq<Doc<T>>)
    ensures out == RenderedAll(rs)
  {
    var docs := new Doc<T>[|rs|](i requires 0 <= i < |rs| => Fetched(rs[i]));
    StringifyIds(docs);
    out := docs[..];
  }

  /** `find_one({"_id": id})`: the first record in store order with that identifier. */
  function FindById<T>(rs: seq<Record<T>>, id: ObjectId): (r: Option<Record<T>>)
    ensures r.Some? ==> exists i :: 0 <= i < |rs| && rs[i] == r.value && r.value.id == id
    ensures r.None? <==> forall i :: 0 <= i < |rs| ==> rs[i].id != id
  {
    if rs == [] then None
    else if rs[0].id == id then Some(rs[0])
    else FindById(rs[1..], id)
  }

  /** `cursor.limit(n)` for a positive `n`: at most the first `n` results. */
  function Take<T>(s: seq<T>, n: int): (r: seq<T>)
    requires n >= 1
    ensures |r| <= n && |r| <= |s|
    ensures |s| <= n ==> r == s
    ensures |s| > n ==> |r| == n
    ensures r == s[..|r|]
  {
    if |s| <= n then s else s[..n]
  }
}
