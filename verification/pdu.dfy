/**
 * Pdu (ksi-net-api/Service/Pdu.cs): a protocol data unit is a composite tag
 * holding a header, one or more payloads and an HMAC over everything before
 * the HMAC's value.
 *
 * Reading a PDU: ParseChild keeps payload-typed children as they are,
 * remembers the header and the HMAC with the position each had when it was
 * read, and Validate then demands (unless the PDU carries an error payload)
 * payloads, exactly one header in first position and exactly one HMAC in
 * last position. Building a PDU: the children are the header, the payload
 * and an HMAC tag of zeros, and SetHmacValue then puts the HMAC of the
 * encoded PDU (without the last L bytes, L the HMAC length) in its place.
 *
 * The HMAC itself is a parameter (KsiProvider's HMAC hasher is not part of
 * this model); the PDU's bytes are what the codec's TLV writer makes of it.
 */
module Pdus {
  import opened Wrappers
  import opened Exceptions
  import opened Hashing
  import opened Parser
  import opened Children
  import opened Constants
  import PublicationDatas

  const PayloadsMissingMessage := "Payloads are missing in PDU."
  const HeaderCountMessage := "Exactly one header must exist in PDU."
  const HeaderFirstMessage := "Header must be the first element in PDU."
  const MacCountMessage := "Exactly one HMAC must exist in PDU"
  const MacLastMessage := "HMAC must be the last element in PDU"
  const NullHmacAlgorithmMessage := "Invalid HMAC algorithm: null."

  /** KsiProvider.CreateHmacHasher(algorithm).GetHash(key, data). */
  type Hmac = (HashAlgorithm, seq<byte>, seq<byte>) -> DataHash

  // ------------------------------------------------------------- children

  /** Whether the type is one of Constants.AllPayloadTypes: the loop over the list. */
  method IsPayloadType(payloadTypes: seq<nat>, tagType: nat) returns (r: bool)
    ensures r <==> tagType in payloadTypes
  {
    for i := 0 to |payloadTypes|
      invariant tagType !in payloadTypes[..i]
    {
      if payloadTypes[i] == tagType {
        return true;
      }
    }
    assert payloadTypes[..|payloadTypes|] == payloadTypes;
    return false;
  }

  /**
   * The typed form ParseChild gives a child: a payload as it is, a header as
   * a PduHeader (which is not part of this model: its children as read), the
   * HMAC through GetImprintTag, and anything else to CompositeTag's own
   * ParseChild, which keeps a child its unknown-tag policy accepts.
   */
  function PduChild(c: Codec, payloadTypes: seq<nat>, x: Tag): (r: Result<Tag, Error>)
    ensures r.Ok? ==> SameHeader(r.value, x)
    ensures x.tagType in payloadTypes ==> r == Ok(x)
    ensures x.tagType !in payloadTypes && x.tagType == PduMacTagType && x.tagType != PduHeaderTagType ==>
              r == GetImprintTag(c, x)
  {
    if x.tagType in payloadTypes then Ok(x)
    else if x.tagType == PduHeaderTagType then
      if x.value.Composite? && x.value.className == "PduHeader" then Ok(x) else OpaqueCompositeOf(c, x, "PduHeader")
    else if x.tagType == PduMacTagType then GetImprintTag(c, x)
    else VerifyUnknownTag(c, x)
  }

  /** CompositeTag.GetImprintTag: an imprint tag as it is, anything else read as one. */
  function GetImprintTag(c: Codec, x: Tag): (r: Result<Tag, Error>)
    ensures r.Ok? ==> SameHeader(r.value, x) && r.value.value.Imprint?
    ensures x.value.Imprint? ==> r == Ok(x)
  {
    if x.value.Imprint? then Ok(x) else ImprintTagOf(c, x)
  }

  function PduConversion(c: Codec, payloadTypes: seq<nat>): Tag -> Result<Tag, Error> {
    x => PduChild(c, payloadTypes, x)
  }

  /** The position of the last child of the type among the first n, or 0 when there is none: what an index field ends up holding. */
  function LastIndexUpTo(cs: seq<Tag>, n: nat, t: nat): (k: nat)
    requires n <= |cs|
    ensures CountUpTo(cs, n, t) > 0 ==> k < n && cs[k].tagType == t
    ensures CountUpTo(cs, n, t) > 0 ==> forall j :: k < j < n ==> cs[j].tagType != t
  {
    if n == 0 then 0
    else if cs[n - 1].tagType == t then n - 1
    else LastIndexUpTo(cs, n - 1, t)
  }

  /** With exactly one child of the type, the index field names a position exactly when that child is there. */
  lemma {:induction false} SingleIndex(cs: seq<Tag>, n: nat, t: nat, k: nat)
    requires n <= |cs| && CountUpTo(cs, n, t) == 1 && k < n
    ensures LastIndexUpTo(cs, n, t) == k <==> cs[k].tagType == t
  {
    if cs[k].tagType == t && LastIndexUpTo(cs, n, t) != k {
      var m := LastIndexUpTo(cs, n, t);
      assert k < m;
      TwoOfType(cs, n, t, k, m);
    }
  }

  /** Two children of the same type make the count at least two. */
  lemma {:induction false} TwoOfType(cs: seq<Tag>, n: nat, t: nat, j: nat, k: nat)
    requires j < k < n <= |cs| && cs[j].tagType == t && cs[k].tagType == t
    ensures CountUpTo(cs, n, t) >= 2
  {
    if k < n - 1 {
      TwoOfType(cs, n - 1, t, j, k);
    } else {
      OneOfType(cs, n - 1, t, j);
    }
  }

  /** One child of the type makes the count positive. */
  lemma {:induction false} OneOfType(cs: seq<Tag>, n: nat, t: nat, j: nat)
    requires j < n <= |cs| && cs[j].tagType == t
    ensures CountUpTo(cs, n, t) >= 1
  {
    if j < n - 1 {
      OneOfType(cs, n - 1, t, j);
    }
  }

  /** The first position holding a child of the type, if any. */
  function FirstIndexOf(cs: seq<Tag>, t: nat): (k: Option<nat>)
    ensures k.None? <==> forall j :: 0 <= j < |cs| ==> cs[j].tagType != t
    ensures k.Some? ==> k.value < |cs| && cs[k.value].tagType == t && forall j :: 0 <= j < k.value ==> cs[j].tagType != t
  {
    if |cs| == 0 then None
    else if cs[0].tagType == t then Some(0)
    else
      var rest := FirstIndexOf(cs[1..], t);
      assert forall j :: 1 <= j < |cs| ==> cs[j] == cs[1..][j - 1];
      if rest.None? then None else Some(rest.value + 1)
  }

  // ----------------------------------------------------- the HMAC helpers

  /** The MAC input: the PDU bytes without the last L bytes, or nothing when there are fewer than L. */
  function MacInput(pduBytes: seq<byte>, macLength: nat): (r: seq<byte>)
    ensures |pduBytes| < macLength ==> r == []
    ensures |pduBytes| >= macLength ==> |r| + macLength == |pduBytes| && pduBytes == r + pduBytes[|r|..]
  {
    if |pduBytes| < macLength then [] else pduBytes[..|pduBytes| - macLength]
  }

  /** CalcHashMacValue(pduBytes, algorithm, key): the HMAC of the MAC input. */
  function CalcHashMacValue(pduBytes: seq<byte>, hmacAlgorithm: HashAlgorithm, key: seq<byte>, hmac: Hmac): DataHash {
    hmac(hmacAlgorithm, key, MacInput(pduBytes, hmacAlgorithm.length))
  }

  /** CreateHashMacTag: the HMAC tag holding the hash. */
  function CreateHashMacTag(dataHash: DataHash): (r: Tag)
    ensures r.tagType == PduMacTagType && !r.nonCritical && !r.forward && r.value == Imprint(dataHash)
  {
    Tag(PduMacTagType, false, false, Imprint(dataHash))
  }

  /**
   * GetEmptyHashMacTag: an HMAC tag whose imprint is the algorithm's id
   * followed by L zero bytes. A null algorithm is refused, and the imprint is
   * read back through the algorithm registry, which refuses an id it does
   * not know or a length that is not the registered one.
   */
  function GetEmptyHashMacTag(c: Codec, hmacAlgorithm: Option<HashAlgorithm>): (r: Result<Tag, Error>)
    ensures hmacAlgorithm.None? ==> r == Err(Tlv(NullHmacAlgorithmMessage))
    ensures r.Ok? <==> hmacAlgorithm.Some? && hmacAlgorithm.value.id in c.algorithms
                       && c.algorithms[hmacAlgorithm.value.id].length == hmacAlgorithm.value.length
    ensures r.Ok? ==> r.value.tagType == PduMacTagType && r.value.value.Imprint?
                      && r.value.value.hash.imprint == [hmacAlgorithm.value.id] + PublicationDatas.Zeros(hmacAlgorithm.value.length)
                      && |r.value.value.hash.imprint| == hmacAlgorithm.value.length + 1
                      && r.value.value.hash.value == PublicationDatas.Zeros(hmacAlgorithm.value.length)
  {
    if hmacAlgorithm.None? then Err(Tlv(NullHmacAlgorithmMessage))
    else
      var imprintBytes := [hmacAlgorithm.value.id] + PublicationDatas.Zeros(hmacAlgorithm.value.length);
      var h :- FromImprint(c.algorithms, Some(imprintBytes));
      assert imprintBytes[1..] == PublicationDatas.Zeros(hmacAlgorithm.value.length);
      Ok(CreateHashMacTag(h))
  }

  /**
   * ValidateMac: false for null bytes or a null MAC, and for bytes too short
   * to hold the MAC; otherwise true exactly when the HMAC of the bytes
   * without their last L bytes equals the given MAC.
   */
  function ValidateMac(pduBytes: Option<seq<byte>>, mac: Option<Tag>, key: seq<byte>, hmac: Hmac): (r: bool)
    requires mac.Some? ==> mac.value.value.Imprint?
    ensures pduBytes.None? || mac.None? ==> !r
    ensures pduBytes.Some? && mac.Some? && |pduBytes.value| < mac.value.value.hash.algorithm.length ==> !r
    ensures r <==> pduBytes.Some? && mac.Some? && |pduBytes.value| >= mac.value.value.hash.algorithm.length
                   && hmac(mac.value.value.hash.algorithm, key,
                           pduBytes.value[..|pduBytes.value| - mac.value.value.hash.algorithm.length])
                      == mac.value.value.hash
  {
    if pduBytes.None? || mac.None? then false
    else
      var algorithm := mac.value.value.hash.algorithm;
      if |pduBytes.value| < algorithm.length then false
      else Equals(CalcHashMacValue(pduBytes.value, algorithm, key, hmac), Some(mac.value.value.hash))
  }

  /** The bytes TlvWriter.WriteTag writes for a tag. */
  function TagBytes(c: Codec, t: Tag): seq<byte> {
    c.writeTags([t])
  }

  // -------------------------------------------------------------- the PDU

  /** A PDU object: its own header, its children and what ParseChild and the subclasses record about them. */
  class Pdu {
    const tagType: nat
    const nonCritical: bool
    const forward: bool
    var children: seq<Tag>
    var headerIndex: nat          // _headerIndex: the child count when the header was read
    var macIndex: nat             // _macIndex: the child count when the HMAC was read
    var header: Option<Tag>
    var mac: Option<Tag>
    var payloads: seq<Tag>        // Payloads, which the PDU subclasses fill
    var errorPayload: Option<Tag> // ErrorPayload, which the PDU subclasses set

    /** The PDU as a tag. */
    function AsTag(): (t: Tag)
      reads this
      ensures t.tagType == tagType && t.value == Composite("Pdu", children)
    {
      Tag(tagType, nonCritical, forward, Composite("Pdu", children))
    }

    /** A PDU of the given type before any child is read; the payloads are those its subclass collects. */
    constructor(tagType: nat, nonCritical: bool, forward: bool, payloads: seq<Tag>, errorPayload: Option<Tag>)
      ensures this.tagType == tagType && this.nonCritical == nonCritical && this.forward == forward
      ensures children == [] && headerIndex == 0 && macIndex == 0 && header.None? && mac.None?
      ensures this.payloads == payloads && this.errorPayload == errorPayload
    {
      this.tagType := tagType;
      this.nonCritical := nonCritical;
      this.forward := forward;
      children := [];
      headerIndex := 0;
      macIndex := 0;
      header := None;
      mac := None;
      this.payloads := payloads;
      this.errorPayload := errorPayload;
    }

    /**
     * ParseChild: the typed child; a header or HMAC child (not of a payload
     * type) also sets its index field to the current child count and, when
     * it converts, its field. Nothing else changes.
     */
    method ParseChild(c: Codec, payloadTypes: seq<nat>, x: Tag) returns (r: Result<Tag, Error>)
      modifies this
      ensures r == PduChild(c, payloadTypes, x)
      ensures children == old(children) && payloads == old(payloads) && errorPayload == old(errorPayload)
      ensures x.tagType !in payloadTypes && x.tagType == PduHeaderTagType ==>
                headerIndex == |children| && header == (if r.Ok? then Some(r.value) else old(header))
                && macIndex == old(macIndex) && mac == old(mac)
      ensures x.tagType !in payloadTypes && x.tagType != PduHeaderTagType && x.tagType == PduMacTagType ==>
                macIndex == |children| && mac == (if r.Ok? then Some(r.value) else old(mac))
                && headerIndex == old(headerIndex) && header == old(header)
      ensures x.tagType in payloadTypes || (x.tagType != PduHeaderTagType && x.tagType != PduMacTagType) ==>
                headerIndex == old(headerIndex) && header == old(header) && macIndex == old(macIndex) && mac == old(mac)
    {
      var isPayload := IsPayloadType(payloadTypes, x.tagType);
      if isPayload {
        return Ok(x);
      }
      if x.tagType == PduHeaderTagType {
        headerIndex := |children|;
        if x.value.Composite? && x.value.className == "PduHeader" {
          r := Ok(x);
        } else {
          r := OpaqueCompositeOf(c, x, "PduHeader");
        }
        if r.Ok? {
          header := Some(r.value);
        }
        return;
      }
      if x.tagType == PduMacTagType {
        macIndex := |children|;
        r := GetImprintTag(c, x);
        if r.Ok? {
          mac := Some(r.value);
        }
        return;
      }
      r := VerifyUnknownTag(c, x);
    }

    /**
     * Reading the children (CompositeTag's constructor, which is not part of
     * this model, calls ParseChild on each child in turn and appends what it
     * returns): the children are the converted ones, the header and HMAC
     * fields hold the last header and HMAC children and the index fields
     * their positions.
     */
    method ReadChildren(c: Codec, payloadTypes: seq<nat>, cs: seq<Tag>) returns (r: Result<(), Error>)
      requires children == [] && headerIndex == 0 && macIndex == 0 && header.None? && mac.None?
      requires PduHeaderTagType !in payloadTypes && PduMacTagType !in payloadTypes
      modifies this
      ensures r.Ok? <==> ConvertAll(cs, PduConversion(c, payloadTypes)).Ok?
      ensures r.Err? ==> r.error == ConvertAll(cs, PduConversion(c, payloadTypes)).error
      ensures r.Ok? ==> children == ConvertAll(cs, PduConversion(c, payloadTypes)).value
      ensures r.Ok? ==> headerIndex == LastIndexUpTo(cs, |cs|, PduHeaderTagType) && macIndex == LastIndexUpTo(cs, |cs|, PduMacTagType)
      ensures r.Ok? ==> header == Converted(PduConversion(c, payloadTypes), LastOfType(cs, PduHeaderTagType))
                        && mac == Converted(PduConversion(c, payloadTypes), LastOfType(cs, PduMacTagType))
      ensures payloads == old(payloads) && errorPayload == old(errorPayload)
    {
      var f := PduConversion(c, payloadTypes);
      for i := 0 to |cs|
        invariant ConvertUpTo(cs, i, f) == Ok(children)
        invariant headerIndex == LastIndexUpTo(cs, i, PduHeaderTagType) && macIndex == LastIndexUpTo(cs, i, PduMacTagType)
        invariant header == Converted(f, LastUpTo(cs, i, PduHeaderTagType)) && mac == Converted(f, LastUpTo(cs, i, PduMacTagType))
        invariant payloads == old(payloads) && errorPayload == old(errorPayload)
      {
        ConvertUpToSpec(cs, i, f);
        var typed := ParseChild(c, payloadTypes, cs[i]);
        assert f(cs[i]) == typed;
        if typed.Err? {
          ConvertStopsAt(cs, |cs|, i, f);
          return Err(typed.error);
        }
        children := children + [typed.value];
      }
      r := Ok(());
    }

    /**
     * Validate: nothing is demanded of a PDU with an error payload; otherwise,
     * in this order, there must be payloads, exactly one header, the header
     * index 0, exactly one HMAC and the HMAC index the last position.
     */
    method Validate() returns (r: Result<(), Error>)
      ensures errorPayload.Some? ==> r.Ok?
      ensures errorPayload.None? && |payloads| == 0 ==> r == Err(Tlv(PayloadsMissingMessage))
      ensures errorPayload.None? && |payloads| > 0 && CountType(children, PduHeaderTagType) != 1 ==>
                r == Err(Tlv(HeaderCountMessage))
      ensures errorPayload.None? && |payloads| > 0 && CountType(children, PduHeaderTagType) == 1 && headerIndex != 0 ==>
                r == Err(Tlv(HeaderFirstMessage))
      ensures errorPayload.None? && |payloads| > 0 && CountType(children, PduHeaderTagType) == 1 && headerIndex == 0
              && CountType(children, PduMacTagType) != 1 ==>
                r == Err(Tlv(MacCountMessage))
      ensures errorPayload.None? && |payloads| > 0 && CountType(children, PduHeaderTagType) == 1 && headerIndex == 0
              && CountType(children, PduMacTagType) == 1 && macIndex != |children| - 1 ==>
                r == Err(Tlv(MacLastMessage))
      ensures r.Ok? <==> errorPayload.Some?
                         || (|payloads| > 0 && CountType(children, PduHeaderTagType) == 1 && headerIndex == 0
                             && CountType(children, PduMacTagType) == 1 && macIndex == |children| - 1)
    {
      if errorPayload.None? {
        if |payloads| == 0 {
          return Err(Tlv(PayloadsMissingMessage));
        }
        if CountType(children, PduHeaderTagType) != 1 {
          return Err(Tlv(HeaderCountMessage));
        }
        if headerIndex != 0 {
          return Err(Tlv(HeaderFirstMessage));
        }
        if CountType(children, PduMacTagType) != 1 {
          return Err(Tlv(MacCountMessage));
        }
        if macIndex != |children| - 1 {
          return Err(Tlv(MacLastMessage));
        }
      }
      r := Ok(());
    }

    /**
     * SetHmacValue: the first HMAC-typed child, and the HMAC field, become the
     * HMAC tag of the HMAC of the PDU's bytes as they were; every other child
     * stays as it was. Without an HMAC child nothing changes.
     */
    method SetHmacValue(c: Codec, hmacAlgorithm: HashAlgorithm, key: seq<byte>, hmac: Hmac)
      modifies this
      ensures var k := FirstIndexOf(old(children), PduMacTagType);
              var macTag := CreateHashMacTag(CalcHashMacValue(TagBytes(c, old(AsTag())), hmacAlgorithm, key, hmac));
              && (k.Some? ==> children == old(children)[k.value := macTag] && mac == Some(macTag))
              && (k.None? ==> children == old(children) && mac == old(mac))
      ensures headerIndex == old(headerIndex) && macIndex == old(macIndex) && header == old(header)
      ensures payloads == old(payloads) && errorPayload == old(errorPayload)
    {
      ghost var k := FirstIndexOf(children, PduMacTagType);
      for i := 0 to |children|
        invariant forall j :: 0 <= j < i ==> children[j].tagType != PduMacTagType
        invariant children == old(children) && mac == old(mac)
      {
        if children[i].tagType == PduMacTagType {
          assert k == Some(i);
          var macTag := CreateHashMacTag(CalcHashMacValue(TagBytes(c, AsTag()), hmacAlgorithm, key, hmac));
          children := children[i := macTag];
          mac := Some(macTag);
          return;
        }
      }
    }
  }

  /**
   * Pdu(tagType, header, payload, hmacAlgorithm, key): the children are the
   * header, the payload and an empty HMAC tag, whose HMAC SetHmacValue then
   * fills in; a null algorithm, or one the registry does not know with its
   * length, is refused.
   */
  method NewPdu(c: Codec, tagType: nat, header: Tag, payload: Tag, hmacAlgorithm: Option<HashAlgorithm>,
                key: seq<byte>, hmac: Hmac) returns (r: Result<Pdu, Error>)
    ensures r.Ok? <==> GetEmptyHashMacTag(c, hmacAlgorithm).Ok?
    ensures r.Err? ==> r.error == GetEmptyHashMacTag(c, hmacAlgorithm).error
    ensures r.Ok? ==>
              var empty := GetEmptyHashMacTag(c, hmacAlgorithm).value;
              var unsigned := Tag(tagType, false, false, Composite("Pdu", [header, payload, empty]));
              var macTag := CreateHashMacTag(CalcHashMacValue(TagBytes(c, unsigned), hmacAlgorithm.value, key, hmac));
              && fresh(r.value) && r.value.tagType == tagType && !r.value.nonCritical && !r.value.forward
              && r.value.children == (if header.tagType == PduMacTagType then [macTag, payload, empty]
                                      else if payload.tagType == PduMacTagType then [header, macTag, empty]
                                      else [header, payload, macTag])
  {
    var empty := GetEmptyHashMacTag(c, hmacAlgorithm);
    if empty.Err? {
      return Err(empty.error);
    }
    var pdu := new Pdu(tagType, false, false, [payload], None);
    pdu.children := [header, payload, empty.value];
    pdu.SetHmacValue(c, hmacAlgorithm.value, key, hmac);
    r := Ok(pdu);
  }

  // ----------------------------------------------------------- properties

  /**
   * A PDU read from its children, whose header and HMAC types are not
   * payload types, passes Validate exactly when it has an error payload, or
   * it has payloads, exactly one header, which is the first child, and
   * exactly one HMAC, which is the last child.
   */
  method ReadPdu(c: Codec, payloadTypes: seq<nat>, t: Tag, cs: seq<Tag>, payloads: seq<Tag>, errorPayload: Option<Tag>)
    returns (r: Result<Pdu, Error>)
    requires PduHeaderTagType !in payloadTypes && PduMacTagType !in payloadTypes
    ensures r.Ok? <==>
              && ConvertAll(cs, PduConversion(c, payloadTypes)).Ok?
              && (errorPayload.Some?
                  || (&& |payloads| > 0
                      && CountType(cs, PduHeaderTagType) == 1 && cs[0].tagType == PduHeaderTagType
                      && CountType(cs, PduMacTagType) == 1 && cs[|cs| - 1].tagType == PduMacTagType))
    ensures r.Ok? ==> r.value.children == ConvertAll(cs, PduConversion(c, payloadTypes)).value
  {
    var pdu := new Pdu(t.tagType, t.nonCritical, t.forward, payloads, errorPayload);
    var read := pdu.ReadChildren(c, payloadTypes, cs);
    if read.Err? {
      return Err(read.error);
    }
    var f := PduConversion(c, payloadTypes);
    ConvertAllInPlace(cs, f, PduHeaderTagType);
    ConvertAllInPlace(cs, f, PduMacTagType);
    PduConversionKeepsTypes(c, payloadTypes);
    if CountType(cs, PduHeaderTagType) == 1 {
      SingleIndex(cs, |cs|, PduHeaderTagType, 0);
    }
    if CountType(cs, PduMacTagType) == 1 {
      SingleIndex(cs, |cs|, PduMacTagType, |cs| - 1);
    }
    var valid := pdu.Validate();
    if valid.Err? {
      return Err(valid.error);
    }
    r := Ok(pdu);
  }

  /** ParseChild keeps every child's header. */
  lemma PduConversionKeepsTypes(c: Codec, payloadTypes: seq<nat>)
    ensures KeepsTypes(PduConversion(c, payloadTypes))
  {
    forall x: Tag ensures PduConversion(c, payloadTypes)(x) == PduChild(c, payloadTypes, x) {
    }
  }

  /** The PDU NewPdu writes before SetHmacValue: the header, the payload and the empty HMAC tag. */
  function UnsignedPdu(tagType: nat, header: Tag, payload: Tag, empty: Tag): Tag {
    Tag(tagType, false, false, Composite("Pdu", [header, payload, empty]))
  }

  /** The HMAC tag SetHmacValue computes over the bytes of the unsigned PDU. */
  function BuiltMacTag(c: Codec, unsigned: Tag, hmacAlgorithm: HashAlgorithm, key: seq<byte>, hmac: Hmac): Tag {
    CreateHashMacTag(CalcHashMacValue(TagBytes(c, unsigned), hmacAlgorithm, key, hmac))
  }

  /**
   * What the TLV writer must do for a signed PDU to validate: write at least
   * L bytes, and write the HMAC value last, so that the bytes before the last
   * L are the same whether the HMAC tag holds zeros or the HMAC.
   */
  predicate WriterKeepsMacInput(c: Codec, unsigned: Tag, signed: Tag, macLength: nat) {
    && |TagBytes(c, unsigned)| >= macLength && |TagBytes(c, signed)| >= macLength
    && MacInput(TagBytes(c, unsigned), macLength) == MacInput(TagBytes(c, signed), macLength)
  }

  /**
   * The PDU NewPdu builds from a header and a payload that are not HMAC
   * tags validates under ValidateMac with the same key: its bytes are
   * accepted against the HMAC tag it carries, given the writer property above
   * and an HMAC function that reports the algorithm it was asked for.
   */
  lemma BuiltMacValidates(c: Codec, tagType: nat, header: Tag, payload: Tag, hmacAlgorithm: HashAlgorithm,
                          key: seq<byte>, hmac: Hmac)
    requires header.tagType != PduMacTagType && payload.tagType != PduMacTagType
    requires GetEmptyHashMacTag(c, Some(hmacAlgorithm)).Ok?
    requires var unsigned := UnsignedPdu(tagType, header, payload, GetEmptyHashMacTag(c, Some(hmacAlgorithm)).value);
             var signed := Tag(tagType, false, false,
                               Composite("Pdu", [header, payload, BuiltMacTag(c, unsigned, hmacAlgorithm, key, hmac)]));
             && WriterKeepsMacInput(c, unsigned, signed, hmacAlgorithm.length)
             && hmac(hmacAlgorithm, key, MacInput(TagBytes(c, unsigned), hmacAlgorithm.length)).algorithm == hmacAlgorithm
    ensures var unsigned := UnsignedPdu(tagType, header, payload, GetEmptyHashMacTag(c, Some(hmacAlgorithm)).value);
            var macTag := BuiltMacTag(c, unsigned, hmacAlgorithm, key, hmac);
            var signed := Tag(tagType, false, false, Composite("Pdu", [header, payload, macTag]));
            && FirstIndexOf(signed.value.children, PduMacTagType) == Some(2)
            && ValidateMac(Some(TagBytes(c, signed)), Some(macTag), key, hmac)
  {
    var unsigned := UnsignedPdu(tagType, header, payload, GetEmptyHashMacTag(c, Some(hmacAlgorithm)).value);
    var macTag := BuiltMacTag(c, unsigned, hmacAlgorithm, key, hmac);
    var cs := [header, payload, macTag];
    assert cs[0].tagType != PduMacTagType && cs[1].tagType != PduMacTagType && cs[2].tagType == PduMacTagType;
  }

  /** Bytes that differ from the MAC input the HMAC was computed over are accepted only if the HMAC collides. */
  lemma ValidateMacRejectsOtherInput(pduBytes: seq<byte>, mac: Tag, key: seq<byte>, hmac: Hmac, signed: seq<byte>)
    requires mac.value.Imprint? && mac.value.hash == hmac(mac.value.hash.algorithm, key, signed)
    requires |pduBytes| >= mac.value.hash.algorithm.length
    requires hmac(mac.value.hash.algorithm, key, MacInput(pduBytes, mac.value.hash.algorithm.length))
             != hmac(mac.value.hash.algorithm, key, signed)
    ensures !ValidateMac(Some(pduBytes), Some(mac), key, hmac)
  {
  }
}
