/**
 * The TLV tags of ksi-net-api/Parser: a tag's header (type, non-critical and
 * forward flags) and its value, which is either the raw bytes the TLV reader
 * delivered or the typed value a structure's constructor decoded from them.
 *
 * The byte-level helpers behind these classes are not part of this model and
 * come in as the fields of a Codec: the TLV reader and writer, IntegerTag's
 * value encoding, Util's unsigned-long codec, UTF-8, Base32, CRC32, the hash
 * algorithm registry and CompositeTag.VerifyUnknownTag.
 */
module Parser {
  import opened Wrappers
  import opened Exceptions
  import opened Hashing

  datatype TagValue =
    | Raw(bytes: seq<byte>)                          // RawTag, or a tag as the reader delivers it
    | Integer(n: nat)                                // IntegerTag
    | Text(s: string)                                // StringTag
    | Imprint(hash: DataHash)                        // ImprintTag
    | Composite(className: string, children: seq<Tag>) // a CompositeTag subclass and its children

  datatype Tag = Tag(tagType: nat, nonCritical: bool, forward: bool, value: TagValue)

  datatype Codec = Codec(
    algorithms: AlgorithmTable,                 // HashAlgorithm.GetById
    decodeInteger: seq<byte> -> Option<nat>,    // IntegerTag reading its value (null: malformed)
    encodeInteger: nat -> seq<byte>,            // IntegerTag.EncodeValue and Util.EncodeUnsignedLong
    decodeUnsignedLong: seq<byte> -> nat,       // Util.DecodeUnsignedLong
    utf8Decode: seq<byte> -> string,            // Encoding.UTF8.GetString
    utf8Encode: string -> seq<byte>,            // Encoding.UTF8.GetBytes
    readTags: seq<byte> -> Option<seq<Tag>>,    // TlvReader reading a composite value (null: malformed)
    writeTags: seq<Tag> -> seq<byte>,           // TlvWriter writing a sequence of tags
    acceptsUnknown: Tag -> bool,                // CompositeTag.VerifyUnknownTag does not throw
    base32Encode: seq<byte> -> string,          // Base32.Encode
    base32Decode: string -> Option<seq<byte>>,  // Base32.Decode (null: malformed)
    crc32: seq<byte> -> nat)                    // Crc32.Calculate

  /** Two tags with the same type and flags. */
  predicate SameHeader(a: Tag, b: Tag) {
    a.tagType == b.tagType && a.nonCritical == b.nonCritical && a.forward == b.forward
  }

  /** StringTag.EncodeValue: the UTF-8 bytes of the string followed by one zero byte. */
  function StringEncodeValue(c: Codec, s: string): (r: seq<byte>)
    ensures |r| == |c.utf8Encode(s)| + 1 && r[|r| - 1] == 0 && r[..|r| - 1] == c.utf8Encode(s)
  {
    c.utf8Encode(s) + [0]
  }

  /** ITlvTag.EncodeValue: the bytes of a tag's value. */
  function EncodeValue(c: Codec, t: Tag): seq<byte> {
    match t.value
    case Raw(b) => b
    case Integer(n) => c.encodeInteger(n)
    case Text(s) => StringEncodeValue(c, s)
    case Imprint(h) => h.imprint
    case Composite(_, cs) => c.writeTags(cs)
  }

  /** new RawTag(tag): the same header and the tag's value bytes. */
  function RawTagOf(c: Codec, t: Tag): (r: Tag)
    ensures SameHeader(r, t) && r.value == Raw(EncodeValue(c, t))
  {
    Tag(t.tagType, t.nonCritical, t.forward, Raw(EncodeValue(c, t)))
  }

  /** new IntegerTag(tag) (IntegerTag.cs is not part of this model): the tag's bytes read as an unsigned integer. */
  function IntegerTagOf(c: Codec, t: Tag): (r: Result<Tag, Error>)
    ensures r.Ok? <==> c.decodeInteger(EncodeValue(c, t)).Some?
    ensures r.Ok? ==> SameHeader(r.value, t) && r.value.value == Integer(c.decodeInteger(EncodeValue(c, t)).value)
  {
    match c.decodeInteger(EncodeValue(c, t))
    case None => Err(Format("Invalid integer tag value"))
    case Some(n) => Ok(Tag(t.tagType, t.nonCritical, t.forward, Integer(n)))
  }

  /** StringTag.DecodeValue: a value must end in a zero byte; everything before it is UTF-8 text. */
  function StringDecodeValue(c: Codec, valueBytes: seq<byte>): (r: Result<string, Error>)
    ensures r.Ok? <==> |valueBytes| > 0 && valueBytes[|valueBytes| - 1] == 0
    ensures r.Ok? ==> r.value == c.utf8Decode(valueBytes[..|valueBytes| - 1])
    ensures r.Err? ==> r.error == Format("String must be null terminated")
  {
    if |valueBytes| > 0 && valueBytes[|valueBytes| - 1] == 0 then Ok(c.utf8Decode(valueBytes[..|valueBytes| - 1]))
    else Err(Format("String must be null terminated"))
  }

  /** new StringTag(tag): decodes the tag's value bytes as a zero-terminated string. */
  function StringTagOf(c: Codec, t: Tag): (r: Result<Tag, Error>)
    ensures r.Ok? <==> StringDecodeValue(c, EncodeValue(c, t)).Ok?
    ensures r.Ok? ==> SameHeader(r.value, t) && r.value.value == Text(StringDecodeValue(c, EncodeValue(c, t)).value)
  {
    var s :- StringDecodeValue(c, EncodeValue(c, t));
    Ok(Tag(t.tagType, t.nonCritical, t.forward, Text(s)))
  }

  /** UTF-8 decoding undoes UTF-8 encoding. */
  ghost predicate Utf8RoundTrips(c: Codec) {
    forall s: string :: c.utf8Decode(c.utf8Encode(s)) == s
  }

  /** Decoding an encoded string value gives the string back. */
  lemma StringValueRoundTrip(c: Codec, s: string)
    requires Utf8RoundTrips(c)
    ensures StringDecodeValue(c, StringEncodeValue(c, s)) == Ok(s)
  {
  }

  /** A string tag re-read from its own value bytes is the same tag. */
  lemma StringTagRoundTrip(c: Codec, t: Tag)
    requires Utf8RoundTrips(c) && t.value.Text?
    ensures StringTagOf(c, t) == Ok(t)
  {
  }

  /** StringTag.Equals: a non-null StringTag with the same type, flags and text. */
  function StringTagEquals(a: Tag, obj: Option<Tag>): (r: bool)
    requires a.value.Text?
    ensures r <==> obj == Some(a)
  {
    obj.Some? && obj.value.value.Text? && SameHeader(obj.value, a) && obj.value.value.s == a.value.s
  }

  predicate IsAscii(s: string) {
    forall i :: 0 <= i < |s| ==> s[i] as int < 128
  }

  /** The one-byte-per-character encoding of an ASCII string. */
  function AsciiBytes(s: string): (r: seq<byte>)
    requires IsAscii(s)
    ensures |r| == |s| && forall i :: 0 <= i < |s| ==> r[i] == s[i] as int
  {
    seq(|s|, i requires 0 <= i < |s| => s[i] as int)
  }

  /** The UTF-8 decoder reads ASCII bytes as the same characters. */
  ghost predicate DecodesAscii(c: Codec) {
    forall s: string :: IsAscii(s) ==> c.utf8Decode(AsciiBytes(s)) == s
  }

  /**
   * The value "test message" followed by a zero byte decodes to "test message";
   * the same bytes without the terminator are refused, and a raw tag holding
   * the terminated bytes is not equal to the decoded string tag.
   */
  lemma TestMessageExample(c: Codec)
    requires DecodesAscii(c)
    ensures IsAscii("test message")
    ensures StringDecodeValue(c, AsciiBytes("test message") + [0]) == Ok("test message")
    ensures StringDecodeValue(c, AsciiBytes("test message")).Err?
    ensures !StringTagEquals(Tag(1, false, false, Text("test message")),
                             Some(Tag(1, false, false, Raw(AsciiBytes("test message") + [0]))))
  {
    var s := "test message";
    assert IsAscii(s);
    var b := AsciiBytes(s);
    assert (b + [0])[..|b + [0]| - 1] == b;
    assert b[11] == 'e' as int;
  }

  /** new ImprintTag(tag): the tag's value bytes read as a hash imprint. */
  function ImprintTagOf(c: Codec, t: Tag): (r: Result<Tag, Error>)
    ensures r.Ok? <==> FromImprint(c.algorithms, Some(EncodeValue(c, t))).Ok?
    ensures r.Ok? ==> SameHeader(r.value, t) && r.value.value.Imprint?
                      && r.value.value.hash == FromImprint(c.algorithms, Some(EncodeValue(c, t))).value
  {
    var h :- FromImprint(c.algorithms, Some(EncodeValue(c, t)));
    Ok(Tag(t.tagType, t.nonCritical, t.forward, Imprint(h)))
  }

  /** ImprintTag(type, nonCritical, forward, value): refuses a null hash. */
  function NewImprintTag(tagType: nat, nonCritical: bool, forward: bool, value: Option<DataHash>): (r: Result<Tag, Error>)
    ensures value.None? ==> r == Err(ArgumentNull("value"))
    ensures value.Some? ==> r == Ok(Tag(tagType, nonCritical, forward, Imprint(value.value)))
  {
    if value.None? then Err(ArgumentNull("value")) else Ok(Tag(tagType, nonCritical, forward, Imprint(value.value)))
  }

  /** An imprint tag's value bytes are the bytes it was read from. */
  lemma ImprintTagKeepsBytes(c: Codec, t: Tag)
    requires ImprintTagOf(c, t).Ok?
    ensures EncodeValue(c, ImprintTagOf(c, t).value) == EncodeValue(c, t)
  {
  }

  /** An imprint tag built from a hash of a registered algorithm reads back as the same tag. */
  lemma ImprintTagRoundTrip(c: Codec, tagType: nat, nonCritical: bool, forward: bool, h: DataHash)
    requires WellFormed(h) && GetById(c.algorithms, h.algorithm.id) == Some(h.algorithm)
    ensures ImprintTagOf(c, NewImprintTag(tagType, nonCritical, forward, Some(h)).value)
            == NewImprintTag(tagType, nonCritical, forward, Some(h))
  {
    ImprintRoundTrip(c.algorithms, h);
  }

  /** ImprintTag.Equals: a non-null ImprintTag with the same type, flags and an equal hash. */
  function ImprintTagEquals(a: Tag, obj: Option<Tag>): (r: bool)
    requires a.value.Imprint?
    ensures r <==> obj == Some(a)
  {
    obj.Some? && obj.value.value.Imprint? && SameHeader(obj.value, a) && Hashing.Equals(a.value.hash, Some(obj.value.value.hash))
  }

  /** uint.GetHashCode: the same 32 bits read as an int. */
  function UIntHashCode(n: nat): int { Int32(n) }

  /** bool.GetHashCode: 1 for true, 0 for false. */
  function BoolHashCode(b: bool): int { if b then 1 else 0 }

  /** ImprintTag.GetHashCode: the unchecked sum of the hash's, the type's and the two flags' hash codes. */
  function ImprintTagHashCode(t: Tag): (r: int)
    requires t.value.Imprint?
    ensures -0x8000_0000 <= r < 0x8000_0000
  {
    Int32(HashCode(t.value.hash) + UIntHashCode(t.tagType) + BoolHashCode(t.forward) + BoolHashCode(t.nonCritical))
  }

  /** Imprint tags that are Equals have the same hash code. */
  lemma EqualImprintTagsEqualHashCodes(a: Tag, b: Tag)
    requires a.value.Imprint? && ImprintTagEquals(a, Some(b))
    ensures ImprintTagHashCode(a) == ImprintTagHashCode(b)
  {
  }

  /** CompositeTag's constructor: the children the TLV reader finds in the tag's value. */
  function ReadChildren(c: Codec, t: Tag): (r: Result<seq<Tag>, Error>)
    ensures r.Ok? <==> c.readTags(EncodeValue(c, t)).Some?
    ensures r.Ok? ==> r.value == c.readTags(EncodeValue(c, t)).value
  {
    match c.readTags(EncodeValue(c, t))
    case None => Err(Tlv("Invalid TLV value"))
    case Some(cs) => Ok(cs)
  }

  /** The composite tag a constructor leaves behind: the header of the tag it was given, over the typed children. */
  function Rebuilt(t: Tag, className: string, typed: seq<Tag>): (r: Tag)
    ensures SameHeader(r, t) && r.value == Composite(className, typed)
  {
    Tag(t.tagType, t.nonCritical, t.forward, Composite(className, typed))
  }

  /**
   * A composite structure whose own checks are not part of this model
   * (SignatureData, CalendarHashChain, PublicationRecord, ...): its children as
   * the TLV reader finds them, under the tag's header.
   */
  function OpaqueCompositeOf(c: Codec, t: Tag, className: string): (r: Result<Tag, Error>)
    ensures r.Ok? <==> ReadChildren(c, t).Ok?
    ensures r.Ok? ==> SameHeader(r.value, t) && r.value.value == Composite(className, ReadChildren(c, t).value)
  {
    var cs :- ReadChildren(c, t);
    Ok(Rebuilt(t, className, cs))
  }

  /** CompositeTag.CheckTagType: the tag must have the expected type. */
  function CheckTagType(t: Tag, expected: nat): (r: Result<Tag, Error>)
    ensures r.Ok? <==> t.tagType == expected
    ensures r.Ok? ==> r.value == t
  {
    if t.tagType == expected then Ok(t) else Err(Tlv("Invalid tag type"))
  }

  /** CompositeTag.VerifyUnknownTag: a child of an unrecognised type is kept only if the reader's policy accepts it. */
  function VerifyUnknownTag(c: Codec, t: Tag): (r: Result<Tag, Error>)
    ensures r.Ok? <==> c.acceptsUnknown(t)
    ensures r.Ok? ==> r.value == t
  {
    if c.acceptsUnknown(t) then Ok(t) else Err(Tlv("Unknown tag"))
  }
}
