/**
 * PublicationData (ksi-net-api/Publication/PublicationData.cs): the
 * publication time and publication hash of a publication, read from a TLV
 * tag or built from their values, and the publication string: the 8-byte
 * big-endian time, the hash imprint and a CRC32 of both, Base32-encoded and
 * cut into dash-separated groups of six characters.
 *
 * Util.EncodeUnsignedLong and DecodeUnsignedLong, Crc32 and Base32 are not
 * part of this model; they are the Codec's encodeInteger, decodeUnsignedLong,
 * crc32, base32Encode and base32Decode.
 */
module PublicationDatas {
  import opened Wrappers
  import opened Exceptions
  import opened Hashing
  import opened Parser
  import opened Children
  import opened Constants

  /** A PublicationData object: its tag, and the values of its publication time and publication hash children. */
  datatype PublicationData = PublicationData(tag: Tag, publicationTime: nat, publicationHash: DataHash)

  /** The TlvException message for a tag of another type: it names the type it found. */
  function InvalidPublicationDataTypeMessage(tagType: nat): string {
    "Invalid publication data type(" + Decimal(tagType) + ")."
  }
  const PublicationTimeMessage := "Only one publication time must exist in publication data."
  const PublicationHashMessage := "Only one publication hash must exist in publication data."
  const NullPublicationStringMessage := "Invalid publication string: null."
  const Base32DecodeMessage := "Publication string base 32 decode failed."
  const Crc32Message := "Publication string CRC 32 check failed."
  const ArrayCopyMessage := "Destination array was not long enough."

  // ------------------------------------------------------ from a TLV tag

  /** The typed form the TLV constructor reads from one child. */
  function PublicationDataChild(c: Codec, x: Tag): Result<Tag, Error> {
    if x.tagType == PublicationTimeTagType then IntegerTagOf(c, x)
    else if x.tagType == PublicationHashTagType then ImprintTagOf(c, x)
    else VerifyUnknownTag(c, x)
  }

  function PublicationDataConversion(c: Codec): Tag -> Result<Tag, Error> {
    x => PublicationDataChild(c, x)
  }

  /** The fields and counters of the TLV constructor's loop. */
  datatype PublicationDataFields = PublicationDataFields(
    publicationTime: Option<nat>, publicationHash: Option<DataHash>, publicationTimeCount: nat, publicationHashCount: nat)

  const NoPublicationDataFields := PublicationDataFields(None, None, 0, 0)

  /** One pass of the TLV constructor's switch: the typed child, and the fields after it. */
  function PublicationDataStep(c: Codec, x: Tag, acc: PublicationDataFields): Result<(Tag, PublicationDataFields), Error> {
    if x.tagType == PublicationTimeTagType then
      var y :- IntegerTagOf(c, x);
      Ok((y, acc.(publicationTime := Some(y.value.n), publicationTimeCount := acc.publicationTimeCount + 1)))
    else if x.tagType == PublicationHashTagType then
      var y :- ImprintTagOf(c, x);
      Ok((y, acc.(publicationHash := Some(y.value.hash), publicationHashCount := acc.publicationHashCount + 1)))
    else
      var y :- VerifyUnknownTag(c, x);
      Ok((y, acc))
  }

  function PublicationDataSteps(c: Codec): (Tag, PublicationDataFields) -> Result<(Tag, PublicationDataFields), Error> {
    (x, acc) => PublicationDataStep(c, x, acc)
  }

  /** A counted field has been set. */
  predicate FieldsSet(fields: PublicationDataFields) {
    && (fields.publicationTimeCount > 0 ==> fields.publicationTime.Some?)
    && (fields.publicationHashCount > 0 ==> fields.publicationHash.Some?)
  }

  /** The count rules after the loop. The children are read, not replaced. */
  function PublicationDataChecked(t: Tag, cs: seq<Tag>, fields: PublicationDataFields): Result<PublicationData, Error>
    requires FieldsSet(fields)
  {
    if fields.publicationTimeCount != 1 then Err(Tlv(PublicationTimeMessage))
    else if fields.publicationHashCount != 1 then Err(Tlv(PublicationHashMessage))
    else Ok(PublicationData(Tag(t.tagType, t.nonCritical, t.forward, Composite("PublicationData", cs)),
                           fields.publicationTime.value, fields.publicationHash.value))
  }

  /** new PublicationData(tag): the publication data, or the exception the constructor throws. */
  function PublicationDataOf(c: Codec, t: Tag): Result<PublicationData, Error> {
    var cs :- ReadChildren(c, t);
    if t.tagType != PublicationDataTagType then Err(Tlv(InvalidPublicationDataTypeMessage(t.tagType)))
    else
      var done :- FoldUpTo(cs, |cs|, NoPublicationDataFields, PublicationDataSteps(c));
      PublicationDataUpToFields(c, cs, |cs|);
      PublicationDataChecked(t, cs, done.1)
  }

  /** PublicationData(ITlvTag): the loop over the children, then the count rules. */
  method NewPublicationDataFromTag(c: Codec, t: Tag) returns (r: Result<PublicationData, Error>)
    ensures r == PublicationDataOf(c, t)
  {
    var read := ReadChildren(c, t);
    if read.Err? {
      return Err(read.error);
    }
    if t.tagType != PublicationDataTagType {
      return Err(Tlv(InvalidPublicationDataTypeMessage(t.tagType)));
    }
    var cs := read.value;
    var fields := NoPublicationDataFields;
    ghost var typed: seq<Tag> := [];
    for i := 0 to |cs|
      invariant FoldUpTo(cs, i, NoPublicationDataFields, PublicationDataSteps(c)) == Ok((typed, fields))
    {
      var childTag := cs[i];
      assert PublicationDataSteps(c)(childTag, fields) == PublicationDataStep(c, childTag, fields);
      var y: Tag;
      if childTag.tagType == PublicationTimeTagType {
        var time := IntegerTagOf(c, childTag);
        if time.Err? {
          FoldStopsAt(cs, |cs|, i, NoPublicationDataFields, PublicationDataSteps(c));
          return Err(time.error);
        }
        y := time.value;
        fields := fields.(publicationTime := Some(y.value.n), publicationTimeCount := fields.publicationTimeCount + 1);
      } else if childTag.tagType == PublicationHashTagType {
        var hash := ImprintTagOf(c, childTag);
        if hash.Err? {
          FoldStopsAt(cs, |cs|, i, NoPublicationDataFields, PublicationDataSteps(c));
          return Err(hash.error);
        }
        y := hash.value;
        fields := fields.(publicationHash := Some(y.value.hash), publicationHashCount := fields.publicationHashCount + 1);
      } else {
        var unknown := VerifyUnknownTag(c, childTag);
        if unknown.Err? {
          FoldStopsAt(cs, |cs|, i, NoPublicationDataFields, PublicationDataSteps(c));
          return Err(unknown.error);
        }
        y := unknown.value;
      }
      typed := typed + [y];
    }
    PublicationDataUpToFields(c, cs, |cs|);
    if fields.publicationTimeCount != 1 {
      return Err(Tlv(PublicationTimeMessage));
    }
    if fields.publicationHashCount != 1 {
      return Err(Tlv(PublicationHashMessage));
    }
    r := Ok(PublicationData(Tag(t.tagType, t.nonCritical, t.forward, Composite("PublicationData", cs)),
                            fields.publicationTime.value, fields.publicationHash.value));
  }

  /** The value an integer tag holds, if it is one. */
  function IntegerOf(o: Option<Tag>): Option<nat> {
    if o.Some? && o.value.value.Integer? then Some(o.value.value.n) else None
  }

  /** The hash an imprint tag holds, if it is one. */
  function HashOf(o: Option<Tag>): Option<DataHash> {
    if o.Some? && o.value.value.Imprint? then Some(o.value.value.hash) else None
  }

  /** The switch converts each child by PublicationDataChild, whatever the fields, and keeps its type. */
  lemma PublicationDataStepsConvert(c: Codec)
    ensures StepConverts(PublicationDataSteps(c), PublicationDataConversion(c))
    ensures KeepsTypes(PublicationDataConversion(c))
  {
    forall x: Tag, acc: PublicationDataFields
      ensures PublicationDataSteps(c)(x, acc) == PublicationDataStep(c, x, acc)
              && PublicationDataConversion(c)(x) == PublicationDataChild(c, x)
    {
    }
  }

  /** After n children each counter counts its type and each field holds the value read from the last child of its type. */
  lemma {:induction false} PublicationDataUpToFields(c: Codec, cs: seq<Tag>, n: nat)
    requires n <= |cs| && FoldUpTo(cs, n, NoPublicationDataFields, PublicationDataSteps(c)).Ok?
    ensures var fields := FoldUpTo(cs, n, NoPublicationDataFields, PublicationDataSteps(c)).value.1;
            && fields.publicationTimeCount == CountUpTo(cs, n, PublicationTimeTagType)
            && fields.publicationHashCount == CountUpTo(cs, n, PublicationHashTagType)
            && fields.publicationTime == IntegerOf(Converted(PublicationDataConversion(c), LastUpTo(cs, n, PublicationTimeTagType)))
            && fields.publicationHash == HashOf(Converted(PublicationDataConversion(c), LastUpTo(cs, n, PublicationHashTagType)))
            && FieldsSet(fields)
  {
    if n > 0 {
      PublicationDataUpToFields(c, cs, n - 1);
      var acc := FoldUpTo(cs, n - 1, NoPublicationDataFields, PublicationDataSteps(c)).value.1;
      assert PublicationDataSteps(c)(cs[n - 1], acc) == PublicationDataStep(c, cs[n - 1], acc);
      assert PublicationDataConversion(c)(cs[n - 1]) == PublicationDataChild(c, cs[n - 1]);
    }
  }

  /** The loop throws exactly when converting the children throws, with the same exception. */
  lemma PublicationDataLoop(c: Codec, cs: seq<Tag>)
    ensures FoldUpTo(cs, |cs|, NoPublicationDataFields, PublicationDataSteps(c)).Ok?
            <==> ConvertAll(cs, PublicationDataConversion(c)).Ok?
    ensures FoldUpTo(cs, |cs|, NoPublicationDataFields, PublicationDataSteps(c)).Err? ==>
              ConvertAll(cs, PublicationDataConversion(c))
              == Err(FoldUpTo(cs, |cs|, NoPublicationDataFields, PublicationDataSteps(c)).error)
  {
    PublicationDataStepsConvert(c);
    FoldConverts(cs, |cs|, NoPublicationDataFields, PublicationDataSteps(c), PublicationDataConversion(c));
  }

  /**
   * When the TLV constructor throws, and what: the reader's exception, a
   * wrong tag type, the first child that does not convert, then the count
   * rules; it succeeds exactly when there is one publication time child and
   * one publication hash child and every child converts.
   */
  lemma PublicationDataOfErrors(c: Codec, t: Tag)
    ensures ReadChildren(c, t).Err? ==> PublicationDataOf(c, t) == Err(ReadChildren(c, t).error)
    ensures ReadChildren(c, t).Ok? && t.tagType != PublicationDataTagType ==>
              PublicationDataOf(c, t) == Err(Tlv(InvalidPublicationDataTypeMessage(t.tagType)))
    ensures ReadChildren(c, t).Ok? && t.tagType == PublicationDataTagType ==>
              var cs := ReadChildren(c, t).value;
              var f := PublicationDataConversion(c);
              && (ConvertAll(cs, f).Err? ==> PublicationDataOf(c, t) == Err(ConvertAll(cs, f).error))
              && (ConvertAll(cs, f).Ok? && CountType(cs, PublicationTimeTagType) != 1 ==>
                    PublicationDataOf(c, t) == Err(Tlv(PublicationTimeMessage)))
              && (ConvertAll(cs, f).Ok? && CountType(cs, PublicationTimeTagType) == 1
                  && CountType(cs, PublicationHashTagType) != 1 ==>
                    PublicationDataOf(c, t) == Err(Tlv(PublicationHashMessage)))
              && (PublicationDataOf(c, t).Ok? <==>
                    ConvertAll(cs, f).Ok? && CountType(cs, PublicationTimeTagType) == 1 && CountType(cs, PublicationHashTagType) == 1)
  {
    if ReadChildren(c, t).Ok? && t.tagType == PublicationDataTagType {
      var cs := ReadChildren(c, t).value;
      PublicationDataLoop(c, cs);
      if FoldUpTo(cs, |cs|, NoPublicationDataFields, PublicationDataSteps(c)).Ok? {
        PublicationDataUpToFields(c, cs, |cs|);
      }
    }
  }

  /**
   * Publication data read from a tag keeps the tag's header and its children
   * as they were read; its time is the integer read from the one publication
   * time child and its hash the hash read from the one publication hash child.
   */
  lemma PublicationDataOfFields(c: Codec, t: Tag)
    requires PublicationDataOf(c, t).Ok?
    ensures var cs := ReadChildren(c, t).value;
            var p := PublicationDataOf(c, t).value;
            && p.tag == Tag(t.tagType, t.nonCritical, t.forward, Composite("PublicationData", cs))
            && LastOfType(cs, PublicationTimeTagType).Some? && LastOfType(cs, PublicationHashTagType).Some?
            && c.decodeInteger(EncodeValue(c, LastOfType(cs, PublicationTimeTagType).value)) == Some(p.publicationTime)
            && FromImprint(c.algorithms, Some(EncodeValue(c, LastOfType(cs, PublicationHashTagType).value))) == Ok(p.publicationHash)
  {
    var cs := ReadChildren(c, t).value;
    var f := PublicationDataConversion(c);
    PublicationDataOfErrors(c, t);
    PublicationDataLoop(c, cs);
    PublicationDataUpToFields(c, cs, |cs|);
    LastUpToSpec(cs, |cs|, PublicationTimeTagType);
    LastUpToSpec(cs, |cs|, PublicationHashTagType);
    ConvertUpToSpec(cs, |cs|, f);
    var time := LastOfType(cs, PublicationTimeTagType).value;
    var hash := LastOfType(cs, PublicationHashTagType).value;
    assert f(time) == IntegerTagOf(c, time);
    assert f(hash) == ImprintTagOf(c, hash);
  }

  // ------------------------------------------------- from time and hash

  /** The two children the (time, hash) constructor writes. */
  function PublicationDataChildren(publicationTime: nat, publicationHash: DataHash): seq<Tag> {
    [Tag(PublicationTimeTagType, false, false, Integer(publicationTime)),
     Tag(PublicationHashTagType, false, false, Imprint(publicationHash))]
  }

  /**
   * PublicationData(publicationTime, publicationHash, nonCritical, forward):
   * an integer tag for the time and an imprint tag for the hash, both with
   * their flags clear; the imprint tag refuses a null hash.
   */
  function NewPublicationData(publicationTime: nat, publicationHash: Option<DataHash>, nonCritical: bool, forward: bool)
    : (r: Result<PublicationData, Error>)
    ensures publicationHash.None? ==> r == Err(ArgumentNull("value"))
    ensures publicationHash.Some? ==>
              && r.Ok? && r.value.publicationTime == publicationTime && r.value.publicationHash == publicationHash.value
              && r.value.tag == Tag(PublicationDataTagType, nonCritical, forward,
                                    Composite("PublicationData", PublicationDataChildren(publicationTime, publicationHash.value)))
  {
    var hashTag :- NewImprintTag(PublicationHashTagType, false, false, publicationHash);
    var children := [Tag(PublicationTimeTagType, false, false, Integer(publicationTime)), hashTag];
    Ok(PublicationData(Tag(PublicationDataTagType, nonCritical, forward, Composite("PublicationData", children)),
                       publicationTime, publicationHash.value))
  }

  /**
   * Publication data built from a time and a hash reads back from its own tag
   * as the same publication data, when the TLV reader reads back what the
   * writer wrote, the integer codec reads back the time and the hash's
   * algorithm is the registered one.
   */
  lemma NewPublicationDataReadsBack(c: Codec, publicationTime: nat, publicationHash: DataHash, nonCritical: bool, forward: bool)
    requires var children := PublicationDataChildren(publicationTime, publicationHash);
             c.readTags(c.writeTags(children)) == Some(children)
    requires c.decodeInteger(c.encodeInteger(publicationTime)) == Some(publicationTime)
    requires WellFormed(publicationHash) && GetById(c.algorithms, publicationHash.algorithm.id) == Some(publicationHash.algorithm)
    ensures var p := NewPublicationData(publicationTime, Some(publicationHash), nonCritical, forward);
            PublicationDataOf(c, p.value.tag) == p
  {
    var p := NewPublicationData(publicationTime, Some(publicationHash), nonCritical, forward).value;
    var children := PublicationDataChildren(publicationTime, publicationHash);
    assert ReadChildren(c, p.tag) == Ok(children);
    ImprintRoundTrip(c.algorithms, publicationHash);
    var f := PublicationDataConversion(c);
    assert f(children[0]) == IntegerTagOf(c, children[0]);
    assert f(children[1]) == ImprintTagOf(c, children[1]);
    assert ConvertAll(children, f).Ok? by {
      ConvertUpToSpec(children, |children|, f);
    }
    assert CountUpTo(children, 1, PublicationTimeTagType) == 1 && CountUpTo(children, 1, PublicationHashTagType) == 0;
    assert CountType(children, PublicationTimeTagType) == 1;
    assert CountType(children, PublicationHashTagType) == 1;
    assert LastUpTo(children, 1, PublicationTimeTagType) == Some(children[0]);
    assert LastOfType(children, PublicationTimeTagType) == Some(children[0]);
    assert LastOfType(children, PublicationHashTagType) == Some(children[1]);
    PublicationDataOfErrors(c, p.tag);
    PublicationDataOfFields(c, p.tag);
  }

  // ------------------------------------------------ the publication string

  /** The publication string's grouping: six characters and a dash at a time, until six or fewer are left. */
  function Grouped(code: string): string
    decreases |code|
  {
    if |code| <= 6 then code else code[..6] + "-" + Grouped(code[6..])
  }

  /** The string with every dash taken out. */
  function RemoveDashes(s: string): string {
    if |s| == 0 then "" else (if s[0] == '-' then "" else [s[0]]) + RemoveDashes(s[1..])
  }

  lemma {:induction false} RemoveDashesConcat(a: string, b: string)
    ensures RemoveDashes(a + b) == RemoveDashes(a) + RemoveDashes(b)
  {
    if |a| > 0 {
      assert (a + b)[1..] == a[1..] + b;
      RemoveDashesConcat(a[1..], b);
    } else {
      assert a + b == b;
    }
  }

  lemma {:induction false} RemoveNoDashes(s: string)
    requires '-' !in s
    ensures RemoveDashes(s) == s
  {
    if |s| > 0 {
      assert s[0] in s;
      assert forall k :: 0 <= k < |s[1..]| ==> s[1..][k] == s[k + 1];
      RemoveNoDashes(s[1..]);
      assert [s[0]] + s[1..] == s;
    }
  }

  /** Taking the dashes out of the grouped string gives back the Base32 text. */
  lemma {:induction false} GroupedUngroups(code: string)
    requires '-' !in code
    ensures RemoveDashes(Grouped(code)) == code
    decreases |code|
  {
    if |code| <= 6 {
      RemoveNoDashes(code);
    } else {
      assert forall k :: 0 <= k < |code[6..]| ==> code[6..][k] == code[k + 6];
      assert '-' !in code[6..];
      assert forall k :: 0 <= k < 6 ==> code[..6][k] == code[k];
      assert '-' !in code[..6];
      GroupedUngroups(code[6..]);
      RemoveDashesConcat(code[..6] + "-", Grouped(code[6..]));
      RemoveDashesConcat(code[..6], "-");
      RemoveNoDashes(code[..6]);
      assert code[..6] + code[6..] == code;
    }
  }

  /** The grouped string is the text plus one dash for every full group of six followed by more text. */
  lemma {:induction false} GroupedLength(code: string)
    ensures |code| == 0 ==> Grouped(code) == ""
    ensures |code| > 0 ==> |Grouped(code)| == |code| + (|code| - 1) / 6
    decreases |code|
  {
    if |code| > 6 {
      GroupedLength(code[6..]);
    }
  }

  /** The k-th character of the text sits at position k + k / 6 of the grouped string. */
  lemma {:induction false} GroupedPositions(code: string)
    ensures forall k :: 0 <= k < |code| ==> k + k / 6 < |Grouped(code)| && Grouped(code)[k + k / 6] == code[k]
    decreases |code|
  {
    if |code| > 6 {
      var rest := code[6..];
      GroupedPositions(rest);
      var g := Grouped(code);
      assert g == code[..6] + "-" + Grouped(rest);
      forall k | 0 <= k < |code|
        ensures k + k / 6 < |g| && g[k + k / 6] == code[k]
      {
        if k >= 6 {
          assert k + k / 6 == (k - 6) + (k - 6) / 6 + 7;
          assert g[k + k / 6] == Grouped(rest)[(k - 6) + (k - 6) / 6];
        }
      }
    }
  }

  /**
   * A position of the grouped string holds a dash exactly when it is the
   * seventh of its group of seven: every group but the last has six
   * characters, and the last has one to six.
   */
  lemma {:induction false} GroupedDashes(code: string)
    requires '-' !in code
    ensures forall i :: 0 <= i < |Grouped(code)| ==> (Grouped(code)[i] == '-' <==> i % 7 == 6)
    decreases |code|
  {
    if |code| > 6 {
      var rest := code[6..];
      assert forall k :: 0 <= k < |rest| ==> rest[k] == code[k + 6];
      assert '-' !in rest;
      GroupedDashes(rest);
      var g := Grouped(code);
      assert g == code[..6] + "-" + Grouped(rest);
      forall i | 0 <= i < |g|
        ensures g[i] == '-' <==> i % 7 == 6
      {
        if i < 6 {
          assert g[i] == code[i];
          assert code[i] in code;
        } else if i >= 7 {
          assert g[i] == Grouped(rest)[i - 7];
          assert i % 7 == (i - 7) % 7;
        }
      }
    } else {
      forall i | 0 <= i < |code| ensures code[i] != '-' {
        assert code[i] in code;
      }
    }
  }

  /** The grouping loop of GetPublicationString. */
  method GroupPublicationString(code: string) returns (sb: string)
    ensures sb == Grouped(code)
  {
    sb := "";
    var index := 0;
    while true
      invariant 0 <= index <= |code| && (index > 0 ==> index < |code|)
      invariant (if index > 0 then sb + "-" else sb) + Grouped(code[index..]) == Grouped(code)
      decreases |code| - index
    {
      ghost var before := if index > 0 then sb + "-" else sb;
      if index > 0 {
        sb := sb + "-";
      }
      assert sb == before;
      if index + 6 < |code| {
        assert code[index..][..6] == code[index..index + 6];
        assert code[index..][6..] == code[index + 6..];
        assert Grouped(code[index..]) == code[index..index + 6] + "-" + Grouped(code[index + 6..]);
        sb := sb + code[index..index + 6];
        index := index + 6;
        assert sb + "-" + Grouped(code[index..]) == before + Grouped(code[index - 6..]);
      } else {
        var count := |code| - index;
        sb := sb + code[index..index + count];
        assert code[index..index + count] == code[index..];
        return;
      }
    }
  }

  function Zeros(n: nat): (r: seq<byte>)
    ensures |r| == n && forall k :: 0 <= k < n ==> r[k] == 0
  {
    seq(n, _ => 0)
  }

  /** Array.Copy(src, 0, dest, offset, src.Length) on the contents of dest: throws when src does not fit at offset. */
  function CopyInto(dest: seq<byte>, offset: int, src: seq<byte>): (r: Result<seq<byte>, Error>)
    ensures r.Ok? <==> 0 <= offset && offset + |src| <= |dest|
    ensures r.Ok? ==> |r.value| == |dest| && r.value[offset..offset + |src|] == src
                      && r.value[..offset] == dest[..offset] && r.value[offset + |src|..] == dest[offset + |src|..]
  {
    if offset < 0 || offset + |src| > |dest| then Err(Argument(ArrayCopyMessage))
    else Ok(dest[..offset] + src + dest[offset + |src|..])
  }

  /** Array.Copy on an array: src is written into dest from offset on, and nothing else changes. */
  method ArrayCopy(src: seq<byte>, dest: array<byte>, offset: int) returns (r: Result<(), Error>)
    modifies dest
    ensures r.Ok? <==> CopyInto(old(dest[..]), offset, src).Ok?
    ensures r.Ok? ==> dest[..] == CopyInto(old(dest[..]), offset, src).value
    ensures r.Err? ==> r.error == CopyInto(old(dest[..]), offset, src).error && dest[..] == old(dest[..])
  {
    if offset < 0 || offset + |src| > dest.Length {
      return Err(Argument(ArrayCopyMessage));
    }
    for i := 0 to |src|
      invariant forall k :: 0 <= k < dest.Length ==>
                  dest[k] == if offset <= k < offset + i then src[k - offset] else old(dest[k])
    {
      dest[offset + i] := src[i];
    }
    assert dest[..] == CopyInto(old(dest[..]), offset, src).value;
    r := Ok(());
  }

  /** The bytes GetPublicationString encodes: the time bytes ending at byte 8, the imprint from byte 8, then the CRC32 bytes from the fourth byte from the end. */
  function PublicationBytes(c: Codec, p: PublicationData): Result<seq<byte>, Error> {
    var imprint := p.publicationHash.imprint;
    var timeBytes := c.encodeInteger(p.publicationTime);
    var withTime :- CopyInto(Zeros(|imprint| + 12), 8 - |timeBytes|, timeBytes);
    var withImprint :- CopyInto(withTime, 8, imprint);
    var crc32 := c.encodeInteger(c.crc32(withImprint[..|withImprint| - 4]));
    CopyInto(withImprint, |withImprint| - 4, crc32)
  }

  /** GetPublicationString: the Base32 text of the publication bytes, grouped. */
  function PublicationStringOf(c: Codec, p: PublicationData): Result<string, Error> {
    var data :- PublicationBytes(c, p);
    Ok(Grouped(c.base32Encode(data)))
  }

  /** GetPublicationString, on a byte array. */
  method GetPublicationString(c: Codec, p: PublicationData) returns (r: Result<string, Error>)
    ensures r == PublicationStringOf(c, p)
  {
    var imprint := p.publicationHash.imprint;
    var data := new byte[|imprint| + 12](_ => 0);
    assert data[..] == Zeros(|imprint| + 12);
    var timeBytes := c.encodeInteger(p.publicationTime);
    var copied := ArrayCopy(timeBytes, data, 8 - |timeBytes|);
    if copied.Err? {
      return Err(copied.error);
    }
    // the imprint always fits: the array is 12 bytes longer than it
    copied := ArrayCopy(imprint, data, 8);
    var crc32 := c.encodeInteger(c.crc32(data[..data.Length - 4]));
    copied := ArrayCopy(crc32, data, data.Length - 4);
    if copied.Err? {
      return Err(copied.error);
    }
    var code := c.base32Encode(data[..]);
    var s := GroupPublicationString(code);
    r := Ok(s);
  }

  /**
   * The layout of the publication bytes, when the time encodes in at most
   * eight bytes and the CRC32 in at most four: zeros, then the time bytes up
   * to byte 8, the imprint, the CRC32 bytes of everything before the last
   * four bytes, and zeros to fill the last four.
   */
  lemma PublicationBytesLayout(c: Codec, p: PublicationData)
    requires |c.encodeInteger(p.publicationTime)| <= 8
    ensures var timeBytes := c.encodeInteger(p.publicationTime);
            var prefix := Zeros(8 - |timeBytes|) + timeBytes + p.publicationHash.imprint;
            var crc32 := c.encodeInteger(c.crc32(prefix));
            && (PublicationBytes(c, p).Ok? <==> |crc32| <= 4)
            && (PublicationBytes(c, p).Ok? ==> PublicationBytes(c, p).value == prefix + crc32 + Zeros(4 - |crc32|))
  {
    var imprint := p.publicationHash.imprint;
    var timeBytes := c.encodeInteger(p.publicationTime);
    var prefix := Zeros(8 - |timeBytes|) + timeBytes + imprint;
    assert Zeros(|imprint| + 12) == Zeros(8 - |timeBytes|) + Zeros(|timeBytes| + |imprint| + 4) + [];
    CopyIntoZeros(Zeros(8 - |timeBytes|), |timeBytes| + |imprint| + 4, [], timeBytes);
    var withTime := Zeros(8 - |timeBytes|) + timeBytes + Zeros(|imprint| + 4);
    assert withTime == (Zeros(8 - |timeBytes|) + timeBytes) + Zeros(|imprint| + 4) + [];
    CopyIntoZeros(Zeros(8 - |timeBytes|) + timeBytes, |imprint| + 4, [], imprint);
    var withImprint := prefix + Zeros(4);
    assert withImprint[..|withImprint| - 4] == prefix;
    var crc32 := c.encodeInteger(c.crc32(prefix));
    if |crc32| <= 4 {
      assert withImprint == prefix + Zeros(4) + [];
      CopyIntoZeros(prefix, 4, [], crc32);
    }
  }

  /** Copying into a run of zeros overwrites its start and keeps the rest. */
  lemma CopyIntoZeros(before: seq<byte>, n: nat, after: seq<byte>, src: seq<byte>)
    requires |src| <= n
    ensures CopyInto(before + Zeros(n) + after, |before|, src) == Ok(before + src + Zeros(n - |src|) + after)
  {
    var dest := before + Zeros(n) + after;
    assert dest[..|before|] == before;
    assert dest[|before| + |src|..] == Zeros(n - |src|) + after;
    assert dest[..|before|] + src + dest[|before| + |src|..] == before + src + Zeros(n - |src|) + after;
  }

  // ------------------------------------------ reading a publication string

  /** DecodePublicationString: the two children a publication string stands for, or the exception. */
  function DecodePublicationString(c: Codec, publicationString: Option<string>): (r: Result<seq<Tag>, Error>)
    ensures publicationString.None? ==> r == Err(Tlv(NullPublicationStringMessage))
    ensures publicationString.Some? && (c.base32Decode(publicationString.value).None?
                                        || |c.base32Decode(publicationString.value).value| < 13) ==>
              r == Err(Tlv(Base32DecodeMessage))
    ensures publicationString.Some? && c.base32Decode(publicationString.value).Some?
            && |c.base32Decode(publicationString.value).value| >= 13 ==>
              var b := c.base32Decode(publicationString.value).value;
              && (c.encodeInteger(c.crc32(b[..|b| - 4])) != b[|b| - 4..] ==> r == Err(Tlv(Crc32Message)))
              && (c.encodeInteger(c.crc32(b[..|b| - 4])) == b[|b| - 4..] && FromImprint(c.algorithms, Some(b[8..|b| - 4])).Err? ==>
                    r == Err(FromImprint(c.algorithms, Some(b[8..|b| - 4])).error))
  {
    if publicationString.None? then Err(Tlv(NullPublicationStringMessage))
    else
      var decoded := c.base32Decode(publicationString.value);
      if decoded.None? || |decoded.value| < 13 then Err(Tlv(Base32DecodeMessage))
      else
        var dataBytesWithCrc32 := decoded.value;
        var dataBytes := dataBytesWithCrc32[..|dataBytesWithCrc32| - 4];
        var computedCrc32 := c.encodeInteger(c.crc32(dataBytes));
        var messageCrc32 := dataBytesWithCrc32[|dataBytesWithCrc32| - 4..];
        if computedCrc32 != messageCrc32 then Err(Tlv(Crc32Message))
        else
          var hashImprint := dataBytesWithCrc32[8..|dataBytesWithCrc32| - 4];
          var publicationTimeBytes := dataBytesWithCrc32[..8];
          var hash :- FromImprint(c.algorithms, Some(hashImprint));
          Ok([Tag(PublicationTimeTagType, false, false, Integer(c.decodeUnsignedLong(publicationTimeBytes))),
              Tag(PublicationHashTagType, false, false, Imprint(hash))])
  }

  /**
   * A decodable publication string: its Base32 bytes are at least 13 long,
   * the last four are the encoded CRC32 of the others, the first eight hold
   * the time and the bytes between are the hash imprint.
   */
  lemma DecodePublicationStringSpec(c: Codec, s: string)
    ensures var r := DecodePublicationString(c, Some(s));
            r.Ok? <==>
              && c.base32Decode(s).Some? && |c.base32Decode(s).value| >= 13
              && var b := c.base32Decode(s).value;
              && c.encodeInteger(c.crc32(b[..|b| - 4])) == b[|b| - 4..]
              && FromImprint(c.algorithms, Some(b[8..|b| - 4])).Ok?
    ensures var r := DecodePublicationString(c, Some(s));
            r.Ok? ==>
              var b := c.base32Decode(s).value;
              r.value == PublicationDataChildren(c.decodeUnsignedLong(b[..8]), FromImprint(c.algorithms, Some(b[8..|b| - 4])).value)
  {
  }

  /** PublicationData(publicationString, nonCritical, forward): the decoded children under a publication data header. */
  function PublicationDataFromString(c: Codec, publicationString: Option<string>, nonCritical: bool, forward: bool)
    : (r: Result<PublicationData, Error>)
    ensures r.Ok? <==> DecodePublicationString(c, publicationString).Ok?
    ensures r.Ok? ==> r.value.tag == Tag(PublicationDataTagType, nonCritical, forward,
                                         Composite("PublicationData", DecodePublicationString(c, publicationString).value))
  {
    var children :- DecodePublicationString(c, publicationString);
    Ok(PublicationData(Tag(PublicationDataTagType, nonCritical, forward, Composite("PublicationData", children)),
                       children[0].value.n, children[1].value.hash))
  }

  /** Base32 decoding skips dashes and undoes Base32 encoding, whose text has no dashes. */
  ghost predicate Base32RoundTrips(c: Codec, data: seq<byte>) {
    && '-' !in c.base32Encode(data)
    && c.base32Decode(c.base32Encode(data)) == Some(data)
    && c.base32Decode(Grouped(c.base32Encode(data))) == c.base32Decode(RemoveDashes(Grouped(c.base32Encode(data))))
  }

  /**
   * Reading a publication string back gives the same time and hash, when the
   * time's bytes fit in eight and decode to the time, the CRC32 encodes in
   * exactly four bytes, Base32 round-trips and the hash is well formed with
   * its registered algorithm.
   */
  lemma PublicationStringRoundTrip(c: Codec, p: PublicationData)
    requires var timeBytes := c.encodeInteger(p.publicationTime);
             && |timeBytes| <= 8
             && c.decodeUnsignedLong(Zeros(8 - |timeBytes|) + timeBytes) == p.publicationTime
             && |c.encodeInteger(c.crc32(Zeros(8 - |timeBytes|) + timeBytes + p.publicationHash.imprint))| == 4
    requires WellFormed(p.publicationHash) && GetById(c.algorithms, p.publicationHash.algorithm.id) == Some(p.publicationHash.algorithm)
    requires PublicationBytes(c, p).Ok? ==> Base32RoundTrips(c, PublicationBytes(c, p).value)
    ensures PublicationStringOf(c, p).Ok?
    ensures DecodePublicationString(c, Some(PublicationStringOf(c, p).value))
            == Ok(PublicationDataChildren(p.publicationTime, p.publicationHash))
  {
    PublicationBytesLayout(c, p);
    var timeBytes := c.encodeInteger(p.publicationTime);
    var imprint := p.publicationHash.imprint;
    var prefix := Zeros(8 - |timeBytes|) + timeBytes + imprint;
    var crc32 := c.encodeInteger(c.crc32(prefix));
    var data := PublicationBytes(c, p).value;
    assert data == prefix + crc32;
    var code := c.base32Encode(data);
    GroupedUngroups(code);
    assert c.base32Decode(Grouped(code)) == Some(data);
    assert |imprint| >= 1;
    assert data[..|data| - 4] == prefix;
    assert data[|data| - 4..] == crc32;
    assert data[..8] == Zeros(8 - |timeBytes|) + timeBytes;
    assert data[8..|data| - 4] == imprint;
    ImprintRoundTrip(c.algorithms, p.publicationHash);
  }

  /** PublicationTime and PublicationHash of publication data read back from its own publication string. */
  lemma PublicationStringReadsBack(c: Codec, p: PublicationData, nonCritical: bool, forward: bool)
    requires var timeBytes := c.encodeInteger(p.publicationTime);
             && |timeBytes| <= 8
             && c.decodeUnsignedLong(Zeros(8 - |timeBytes|) + timeBytes) == p.publicationTime
             && |c.encodeInteger(c.crc32(Zeros(8 - |timeBytes|) + timeBytes + p.publicationHash.imprint))| == 4
    requires WellFormed(p.publicationHash) && GetById(c.algorithms, p.publicationHash.algorithm.id) == Some(p.publicationHash.algorithm)
    requires PublicationBytes(c, p).Ok? ==> Base32RoundTrips(c, PublicationBytes(c, p).value)
    ensures PublicationStringOf(c, p).Ok?
    ensures var q := PublicationDataFromString(c, Some(PublicationStringOf(c, p).value), nonCritical, forward);
            q.Ok? && q.value.publicationTime == p.publicationTime && q.value.publicationHash == p.publicationHash
  {
    PublicationStringRoundTrip(c, p);
  }
}
