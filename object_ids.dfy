/**
 * The identifier codec: the store's native 12-byte identifier, its 24-digit
 * hexadecimal string form, `ObjectId.is_valid`, and `to_obj_id`, which turns a
 * malformed string into a client error.
 */
module ObjectIds {
  import opened Wrappers
  import opened Http
  import opened Strings

  type Byte = b: int | 0 <= b < 256

  /** The store's native identifier: twelve bytes. */
  type ObjectId = s: seq<Byte> | |s| == 12 witness seq(12, _ => 0)

  predicate IsHexDigit(c: char)
  {
    '0' <= c <= '9' || 'a' <= c <= 'f' || 'A' <= c <= 'F'
  }

  predicate IsLowerHexDigit(c: char)
  {
    '0' <= c <= '9' || 'a' <= c <= 'f'
  }

  predicate IsHex(s: string)
  {
    forall i :: 0 <= i < |s| ==> IsHexDigit(s[i])
  }

  predicate IsLowerHex(s: string)
  {
    forall i :: 0 <= i < |s| ==> IsLowerHexDigit(s[i])
  }

  /** `ObjectId.is_valid(s)` for a string: exactly 24 hexadecimal digits, in either case. */
  predicate IsValid(s: string)
  {
    |s| == 24 && IsHex(s)
  }

  function DigitValue(c: char): (v: nat)
    requires IsHexDigit(c)
    ensures v < 16
  {
    if c <= '9' then c as int - '0' as int
    else if 'a' <= c then c as int - 'a' as int + 10
    else c as int - 'A' as int + 10
  }

  /** The lower-case hexadecimal digit for `v`. */
  function Digit(v: nat): (c: char)
    requires v < 16
    ensures IsLowerHexDigit(c) && DigitValue(c) == v
  {
    if v < 10 then ('0' as int + v) as char else ('a' as int + v - 10) as char
  }

  /** Two hexadecimal digits per byte, most significant first. */
  function HexToBytes(s: string): (b: seq<Byte>)
    requires |s| % 2 == 0 && IsHex(s)
    ensures |b| == |s| / 2
    decreases |s|
  {
    if s == [] then [] else [DigitValue(s[0]) * 16 + DigitValue(s[1])] + HexToBytes(s[2..])
  }

  function BytesToHex(b: seq<Byte>): (s: string)
    ensures |s| == 2 * |b| && IsLowerHex(s)
  {
    if b == [] then [] else [Digit(b[0] / 16), Digit(b[0] % 16)] + BytesToHex(b[1..])
  }

  /** `ObjectId(s)`: defined exactly on the valid strings. */
  function Decode(s: string): (r: Option<ObjectId>)
    ensures r.Some? <==> IsValid(s)
  {
    if IsValid(s) then Some(HexToBytes(s)) else None
  }

  /** `str(oid)`: 24 lower-case hexadecimal digits. */
  function Encode(id: ObjectId): (s: string)
    ensures IsValid(s) && IsLowerHex(s)
  {
    BytesToHex(id)
  }

  /** `to_obj_id`: a malformed string is a 400 "Invalid ID" error, never a crash. */
  function ToObjId(s: string): (r: Result<ObjectId, HttpError>)
    ensures r.Err? <==> !IsValid(s)
    ensures r.Err? ==> r.error == HttpError(BadRequest, "Invalid ID")
    ensures r.Ok? ==> Encode(r.value) == LowerCase(s)
  {
    match Decode(s)
    case None => Err(HttpError(BadRequest, "Invalid ID"))
    case Some(id) => EncodeDecode(s); Ok(id)
  }

  lemma {:induction false} BytesRoundTrip(b: seq<Byte>)
    ensures HexToBytes(BytesToHex(b)) == b
  {
    if b != [] {
      var s := BytesToHex(b);
      assert s[2..] == BytesToHex(b[1..]);
      BytesRoundTrip(b[1..]);
      assert DigitValue(s[0]) * 16 + DigitValue(s[1]) == b[0];
    }
  }

  /** Reading a digit and writing it back lower-cases it. */
  lemma DigitOfValue(c: char)
    requires IsHexDigit(c)
    ensures Digit(DigitValue(c)) == Lower(c)
  {
  }

  /** The byte read from two digits is written back as the same two digits, lower-cased. */
  lemma BytePairRoundTrip(c0: char, c1: char)
    requires IsHexDigit(c0) && IsHexDigit(c1)
    ensures var x := DigitValue(c0) * 16 + DigitValue(c1);
      Digit(x / 16) == Lower(c0) && Digit(x % 16) == Lower(c1)
  {
    var hi, lo := DigitValue(c0), DigitValue(c1);
    var x := hi * 16 + lo;
    assert x / 16 == hi && x % 16 == lo;
    DigitOfValue(c0);
    DigitOfValue(c1);
  }

  lemma {:induction false} HexRoundTrip(s: string)
    requires |s| % 2 == 0 && IsHex(s)
    ensures BytesToHex(HexToBytes(s)) == LowerCase(s)
    decreases |s|
  {
    if s != [] {
      var rest := s[2..];
      assert IsHex(rest) by {
        forall i | 0 <= i < |rest| ensures IsHexDigit(rest[i]) {
          assert rest[i] == s[i + 2];
        }
      }
      var b := HexToBytes(s);
      assert b[1..] == HexToBytes(rest);
      BytePairRoundTrip(s[0], s[1]);
      HexRoundTrip(rest);
      assert BytesToHex(b) == [Lower(s[0]), Lower(s[1])] + LowerCase(rest);
      assert LowerCase(s) == [Lower(s[0]), Lower(s[1])] + LowerCase(rest);
    }
  }

  /** Encoding then decoding gives back the identifier. */
  lemma DecodeEncode(id: ObjectId)
    ensures Decode(Encode(id)) == Some(id)
  {
    BytesRoundTrip(id);
  }

  /** Decoding then encoding gives back the string, lower-cased. */
  lemma EncodeDecode(s: string)
    requires IsValid(s)
    ensures Encode(Decode(s).value) == LowerCase(s)
  {
    HexRoundTrip(s);
  }

  /** On the canonical (lower-case) strings, decoding then encoding is the identity. */
  lemma CanonicalRoundTrip(s: string)
    requires IsValid(s) && IsLowerHex(s)
    ensures Decode(s).Some? && Encode(Decode(s).value) == s
  {
    EncodeDecode(s);
    forall i | 0 <= i < |s| ensures LowerCase(s)[i] == s[i] {
    }
  }

  /** Distinct identifiers have distinct string forms. */
  lemma EncodeInjective(a: ObjectId, b: ObjectId)
    requires Encode(a) == Encode(b)
    ensures a == b
  {
    DecodeEncode(a);
    DecodeEncode(b);
  }

  /** A string holding an upper-case digit is valid but is never the string form of an identifier. */
  lemma UpperCaseIsNotAnEncoding(s: string, id: ObjectId)
    requires exists i :: 0 <= i < |s| && 'A' <= s[i] <= 'F'
    ensures Encode(id) != s
  {
  }
}
