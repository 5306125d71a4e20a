/**
 * AggregationRequestPayload (ksi-net-api/Service/AggregationRequestPayload.cs):
 * read from a tag, Validate checks the tag type, converts the request id,
 * request hash and request level children in place, keeps them in fields
 * and demands exactly one request id, exactly one request hash and at most
 * one request level. Built from values, the children are the request id,
 * the request hash and optionally the request level, with clear flags.
 */
module AggregationRequestPayloads {
  import opened Wrappers
  import opened Exceptions
  import opened Hashing
  import opened Parser
  import opened Children
  import opened Constants

  datatype AggregationRequestPayload = AggregationRequestPayload(
    tag: Tag,
    requestId: Option<Tag>,
    requestHash: Option<Tag>,
    requestLevel: Option<Tag>)   // None when the request has no level

  const RequestIdMessage := "Exactly one request id must exist in aggregation request payload."
  const RequestHashMessage := "Exactly one request hash must exist in aggregation request payload."
  const RequestLevelMessage := "Only one request level is allowed in aggregation request payload."

  predicate IsRequestField(tagType: nat) {
    tagType == PayloadRequestIdTagType || tagType == AggregationRequestHashTagType || tagType == AggregationRequestLevelTagType
  }

  /** The typed form Validate gives one child. */
  function RequestChild(c: Codec, x: Tag): (r: Result<Tag, Error>)
    ensures r.Ok? ==> SameHeader(r.value, x)
    ensures !IsRequestField(x.tagType) ==> r == VerifyUnknownTag(c, x)
  {
    if x.tagType == PayloadRequestIdTagType then IntegerTagOf(c, x)
    else if x.tagType == AggregationRequestHashTagType then ImprintTagOf(c, x)
    else if x.tagType == AggregationRequestLevelTagType then IntegerTagOf(c, x)
    else VerifyUnknownTag(c, x)
  }

  function RequestConversion(c: Codec): Tag -> Result<Tag, Error> {
    x => RequestChild(c, x)
  }

  /** The object's fields and Validate's counters while the loop runs. */
  datatype RequestFields = RequestFields(
    requestId: Option<Tag>,
    requestHash: Option<Tag>,
    requestLevel: Option<Tag>,
    requestIdCount: nat,
    requestHashCount: nat,
    requestLevelCount: nat)

  const NoRequestFields := RequestFields(None, None, None, 0, 0, 0)

  /** One pass of Validate's switch: the typed child and the fields and counters after it. */
  function RequestStep(c: Codec, x: Tag, acc: RequestFields): Result<(Tag, RequestFields), Error> {
    var y :- RequestChild(c, x);
    if x.tagType == PayloadRequestIdTagType then
      Ok((y, acc.(requestId := Some(y), requestIdCount := acc.requestIdCount + 1)))
    else if x.tagType == AggregationRequestHashTagType then
      Ok((y, acc.(requestHash := Some(y), requestHashCount := acc.requestHashCount + 1)))
    else if x.tagType == AggregationRequestLevelTagType then
      Ok((y, acc.(requestLevel := Some(y), requestLevelCount := acc.requestLevelCount + 1)))
    else Ok((y, acc))
  }

  function RequestSteps(c: Codec): (Tag, RequestFields) -> Result<(Tag, RequestFields), Error> {
    (x, acc) => RequestStep(c, x, acc)
  }

  /** The payload new AggregationRequestPayload(tag) builds, or the exception it throws. */
  function RequestOf(c: Codec, t: Tag): Result<AggregationRequestPayload, Error> {
    var cs :- ReadChildren(c, t);
    var _ :- CheckTagType(t, AggregationRequestPayloadTagType);
    var done :- FoldUpTo(cs, |cs|, NoRequestFields, RequestSteps(c));
    RequestChecked(t, done.0, done.1)
  }

  /** The checks after Validate's loop. */
  function RequestChecked(t: Tag, typed: seq<Tag>, fields: RequestFields): Result<AggregationRequestPayload, Error> {
    if fields.requestIdCount != 1 then Err(Tlv(RequestIdMessage))
    else if fields.requestHashCount != 1 then Err(Tlv(RequestHashMessage))
    else if fields.requestLevelCount > 1 then Err(Tlv(RequestLevelMessage))
    else Ok(AggregationRequestPayload(Rebuilt(t, "AggregationRequestPayload", typed), fields.requestId, fields.requestHash,
                                      fields.requestLevel))
  }

  /** The body of Validate's loop: the switch on the type of one child. */
  method ParseRequestChild(c: Codec, x: Tag, fields: RequestFields) returns (r: Result<(Tag, RequestFields), Error>)
    ensures r == RequestStep(c, x, fields)
  {
    var next := fields;
    var typedChild: Tag;
    if x.tagType == PayloadRequestIdTagType {
      var n := IntegerTagOf(c, x);
      if n.Err? {
        return Err(n.error);
      }
      typedChild := n.value;
      next := next.(requestId := Some(typedChild), requestIdCount := next.requestIdCount + 1);
    } else if x.tagType == AggregationRequestHashTagType {
      var h := ImprintTagOf(c, x);
      if h.Err? {
        return Err(h.error);
      }
      typedChild := h.value;
      next := next.(requestHash := Some(typedChild), requestHashCount := next.requestHashCount + 1);
    } else if x.tagType == AggregationRequestLevelTagType {
      var n := IntegerTagOf(c, x);
      if n.Err? {
        return Err(n.error);
      }
      typedChild := n.value;
      next := next.(requestLevel := Some(typedChild), requestLevelCount := next.requestLevelCount + 1);
    } else {
      var u := VerifyUnknownTag(c, x);
      if u.Err? {
        return Err(u.error);
      }
      typedChild := x;
    }
    r := Ok((typedChild, next));
  }

  /** AggregationRequestPayload(ITlvTag) and Validate: the tag type check, the loop over the children, then the count checks. */
  method NewAggregationRequestPayload(c: Codec, t: Tag) returns (r: Result<AggregationRequestPayload, Error>)
    ensures r == RequestOf(c, t)
  {
    var read := ReadChildren(c, t);
    if read.Err? {
      return Err(read.error);
    }
    if t.tagType != AggregationRequestPayloadTagType {
      return Err(Tlv("Invalid tag type"));
    }
    ghost var original := read.value;
    var children := read.value;
    var fields := NoRequestFields;
    var i := 0;
    while i < |children|
      invariant 0 <= i <= |children| == |original|
      invariant FoldUpTo(original, i, NoRequestFields, RequestSteps(c)) == Ok((children[..i], fields))
      invariant children[i..] == original[i..]
    {
      assert children[i] == original[i] by { assert children[i..][0] == original[i..][0]; }
      var step := ParseRequestChild(c, children[i], fields);
      assert RequestSteps(c)(children[i], fields) == step;
      if step.Err? {
        FoldStopsAt(original, |original|, i, NoRequestFields, RequestSteps(c));
        return Err(step.error);
      }
      ghost var before := children;
      children := children[i := step.value.0];
      fields := step.value.1;
      assert children[..i + 1] == before[..i] + [step.value.0];
      assert children[i + 1..] == before[i + 1..];
      i := i + 1;
    }
    assert children[..i] == children;
    assert RequestOf(c, t) == RequestChecked(t, children, fields);
    if fields.requestIdCount != 1 {
      return Err(Tlv(RequestIdMessage));
    }
    if fields.requestHashCount != 1 {
      return Err(Tlv(RequestHashMessage));
    }
    if fields.requestLevelCount > 1 {
      return Err(Tlv(RequestLevelMessage));
    }
    r := Ok(AggregationRequestPayload(Rebuilt(t, "AggregationRequestPayload", children), fields.requestId, fields.requestHash,
                                      fields.requestLevel));
  }

  // ---------------------------------------------------- built from values

  /** The children the value constructors write: the request id, the request hash and, when given, the level. */
  function RequestChildren(requestId: nat, hash: DataHash, level: Option<nat>): seq<Tag> {
    [Tag(PayloadRequestIdTagType, false, false, Integer(requestId)),
     Tag(AggregationRequestHashTagType, false, false, Imprint(hash))]
    + (if level.Some? then [Tag(AggregationRequestLevelTagType, false, false, Integer(level.value))] else [])
  }

  /**
   * AggregationRequestPayload(requestId, hash) and (requestId, hash, level):
   * the payload type with clear flags over the request id, the request hash
   * and, for the second, the level; the fields are those children, and the
   * imprint tag refuses a null hash.
   */
  function NewRequestPayload(requestId: nat, hash: Option<DataHash>, level: Option<nat>): (r: Result<AggregationRequestPayload, Error>)
    ensures hash.None? ==> r == Err(ArgumentNull("value"))
    ensures hash.Some? ==> r.Ok?
    ensures r.Ok? ==>
              var children := RequestChildren(requestId, hash.value, level);
              && r.value.tag == Tag(AggregationRequestPayloadTagType, false, false, Composite("AggregationRequestPayload", children))
              && r.value.requestId == Some(children[0]) && r.value.requestHash == Some(children[1])
              && r.value.requestLevel == (if level.Some? then Some(children[2]) else None)
  {
    var hashTag :- NewImprintTag(AggregationRequestHashTagType, false, false, hash);
    var idTag := Tag(PayloadRequestIdTagType, false, false, Integer(requestId));
    var levelTags := if level.Some? then [Tag(AggregationRequestLevelTagType, false, false, Integer(level.value))] else [];
    var children := [idTag, hashTag] + levelTags;
    Ok(AggregationRequestPayload(Tag(AggregationRequestPayloadTagType, false, false, Composite("AggregationRequestPayload", children)),
                                 Some(children[0]), Some(children[1]), if level.Some? then Some(children[2]) else None))
  }

  // ----------------------------------------------------------------- getters

  /** RequestHash: the hash of the request hash child. */
  function RequestHash(p: AggregationRequestPayload): (hash: DataHash)
    requires p.requestHash.Some? && p.requestHash.value.value.Imprint?
    ensures Imprint(hash) == p.requestHash.value.value
  {
    p.requestHash.value.value.hash
  }

  /** RequestId: the value of the request id child. */
  function RequestId(p: AggregationRequestPayload): (id: nat)
    requires p.requestId.Some? && p.requestId.value.value.Integer?
    ensures Integer(id) == p.requestId.value.value
  {
    p.requestId.value.value.n
  }

  /** RequestLevel: the value of the level child, or null when there is none. */
  function RequestLevel(p: AggregationRequestPayload): (level: Option<nat>)
    requires p.requestLevel.Some? ==> p.requestLevel.value.value.Integer?
    ensures level.Some? <==> p.requestLevel.Some?
    ensures level.Some? ==> Integer(level.value) == p.requestLevel.value.value
  {
    if p.requestLevel.Some? then Some(p.requestLevel.value.value.n) else None
  }

  // -------------------------------------------------------------- properties

  /** One pass of the switch converts the child exactly as RequestChild does, whatever the fields. */
  lemma RequestStepConverts(c: Codec)
    ensures StepConverts(RequestSteps(c), RequestConversion(c))
    ensures KeepsTypes(RequestConversion(c))
  {
    forall x: Tag, a: RequestFields
      ensures RequestSteps(c)(x, a) == RequestStep(c, x, a) && RequestConversion(c)(x) == RequestChild(c, x)
    {
    }
  }

  /** After n children each field holds the typed form of the last child of its type, and each counter counts its type. */
  lemma {:induction false} RequestUpToFields(c: Codec, cs: seq<Tag>, n: nat)
    requires n <= |cs| && FoldUpTo(cs, n, NoRequestFields, RequestSteps(c)).Ok?
    ensures var fields := FoldUpTo(cs, n, NoRequestFields, RequestSteps(c)).value.1;
            var f := RequestConversion(c);
            && fields.requestId == Converted(f, LastUpTo(cs, n, PayloadRequestIdTagType))
            && fields.requestHash == Converted(f, LastUpTo(cs, n, AggregationRequestHashTagType))
            && fields.requestLevel == Converted(f, LastUpTo(cs, n, AggregationRequestLevelTagType))
            && fields.requestIdCount == CountUpTo(cs, n, PayloadRequestIdTagType)
            && fields.requestHashCount == CountUpTo(cs, n, AggregationRequestHashTagType)
            && fields.requestLevelCount == CountUpTo(cs, n, AggregationRequestLevelTagType)
  {
    if n > 0 {
      RequestUpToFields(c, cs, n - 1);
      var acc := FoldUpTo(cs, n - 1, NoRequestFields, RequestSteps(c)).value.1;
      assert RequestSteps(c)(cs[n - 1], acc) == RequestStep(c, cs[n - 1], acc);
      assert RequestConversion(c)(cs[n - 1]) == RequestChild(c, cs[n - 1]);
    }
  }

  /** The fields and counters the loop leaves when every child converts, in terms of the children. */
  ghost function RequestFieldsOf(c: Codec, cs: seq<Tag>): RequestFields {
    var f := RequestConversion(c);
    RequestFields(
      Converted(f, LastOfType(cs, PayloadRequestIdTagType)),
      Converted(f, LastOfType(cs, AggregationRequestHashTagType)),
      Converted(f, LastOfType(cs, AggregationRequestLevelTagType)),
      CountType(cs, PayloadRequestIdTagType),
      CountType(cs, AggregationRequestHashTagType),
      CountType(cs, AggregationRequestLevelTagType))
  }

  /** The whole loop throws exactly when converting the children throws; otherwise it leaves RequestFieldsOf. */
  lemma RequestLoop(c: Codec, cs: seq<Tag>)
    ensures FoldUpTo(cs, |cs|, NoRequestFields, RequestSteps(c)).Ok? <==> ConvertAll(cs, RequestConversion(c)).Ok?
    ensures FoldUpTo(cs, |cs|, NoRequestFields, RequestSteps(c)).Err? ==>
              ConvertAll(cs, RequestConversion(c)) == Err(FoldUpTo(cs, |cs|, NoRequestFields, RequestSteps(c)).error)
    ensures ConvertAll(cs, RequestConversion(c)).Ok? ==>
              FoldUpTo(cs, |cs|, NoRequestFields, RequestSteps(c))
              == Ok((ConvertAll(cs, RequestConversion(c)).value, RequestFieldsOf(c, cs)))
  {
    RequestStepConverts(c);
    FoldConverts(cs, |cs|, NoRequestFields, RequestSteps(c), RequestConversion(c));
    if ConvertAll(cs, RequestConversion(c)).Ok? {
      RequestUpToFields(c, cs, |cs|);
    }
  }

  /**
   * new AggregationRequestPayload(tag): it throws when the children cannot be
   * read, when the tag type is wrong, when a child cannot be converted, and
   * then, in this order, unless there is exactly one request id, exactly one
   * request hash and at most one request level; and for no other reason.
   */
  lemma RequestOfErrors(c: Codec, t: Tag)
    ensures ReadChildren(c, t).Err? ==> RequestOf(c, t) == Err(ReadChildren(c, t).error)
    ensures ReadChildren(c, t).Ok? && t.tagType != AggregationRequestPayloadTagType ==>
              RequestOf(c, t) == Err(Tlv("Invalid tag type"))
    ensures ReadChildren(c, t).Ok? && t.tagType == AggregationRequestPayloadTagType ==>
              var cs := ReadChildren(c, t).value;
              var f := RequestConversion(c);
              && (ConvertAll(cs, f).Err? ==> RequestOf(c, t) == Err(ConvertAll(cs, f).error))
              && (ConvertAll(cs, f).Ok? && CountType(cs, PayloadRequestIdTagType) != 1 ==>
                    RequestOf(c, t) == Err(Tlv(RequestIdMessage)))
              && (ConvertAll(cs, f).Ok? && CountType(cs, PayloadRequestIdTagType) == 1
                  && CountType(cs, AggregationRequestHashTagType) != 1 ==>
                    RequestOf(c, t) == Err(Tlv(RequestHashMessage)))
              && (ConvertAll(cs, f).Ok? && CountType(cs, PayloadRequestIdTagType) == 1
                  && CountType(cs, AggregationRequestHashTagType) == 1
                  && CountType(cs, AggregationRequestLevelTagType) > 1 ==>
                    RequestOf(c, t) == Err(Tlv(RequestLevelMessage)))
              && (RequestOf(c, t).Ok? <==>
                    ConvertAll(cs, f).Ok? && CountType(cs, PayloadRequestIdTagType) == 1
                    && CountType(cs, AggregationRequestHashTagType) == 1
                    && CountType(cs, AggregationRequestLevelTagType) <= 1)
  {
    if ReadChildren(c, t).Ok? && t.tagType == AggregationRequestPayloadTagType {
      RequestLoop(c, ReadChildren(c, t).value);
    }
  }

  /**
   * The getters of a payload read from a tag: the request id is the integer
   * read from the one request id child, the request hash the hash read from
   * the one request hash child, and the request level is null exactly when
   * there is no level child, and otherwise the integer read from it.
   */
  lemma RequestGetters(c: Codec, t: Tag)
    requires RequestOf(c, t).Ok?
    ensures var p := RequestOf(c, t).value;
            && p.requestId.Some? && p.requestId.value.value.Integer?
            && p.requestHash.Some? && p.requestHash.value.value.Imprint?
            && (p.requestLevel.Some? ==> p.requestLevel.value.value.Integer?)
    ensures var cs := ReadChildren(c, t).value;
            var p := RequestOf(c, t).value;
            && LastOfType(cs, PayloadRequestIdTagType).Some?
            && LastOfType(cs, AggregationRequestHashTagType).Some?
            && Some(RequestId(p)) == c.decodeInteger(EncodeValue(c, LastOfType(cs, PayloadRequestIdTagType).value))
            && Ok(RequestHash(p)) == FromImprint(c.algorithms, Some(EncodeValue(c, LastOfType(cs, AggregationRequestHashTagType).value)))
            && (RequestLevel(p).None? <==> CountType(cs, AggregationRequestLevelTagType) == 0)
            && (RequestLevel(p).Some? <==> LastOfType(cs, AggregationRequestLevelTagType).Some?)
            && (RequestLevel(p).Some? ==>
                  Some(RequestLevel(p).value)
                  == c.decodeInteger(EncodeValue(c, LastOfType(cs, AggregationRequestLevelTagType).value)))
  {
    var cs := ReadChildren(c, t).value;
    var f := RequestConversion(c);
    RequestOfErrors(c, t);
    RequestLoop(c, cs);
    ConvertUpToSpec(cs, |cs|, f);
    LastUpToSpec(cs, |cs|, PayloadRequestIdTagType);
    LastUpToSpec(cs, |cs|, AggregationRequestHashTagType);
    LastUpToSpec(cs, |cs|, AggregationRequestLevelTagType);
    var id := LastOfType(cs, PayloadRequestIdTagType).value;
    var hash := LastOfType(cs, AggregationRequestHashTagType).value;
    assert f(id) == RequestChild(c, id);
    assert f(hash) == RequestChild(c, hash);
    var level := LastOfType(cs, AggregationRequestLevelTagType);
    if level.Some? {
      assert f(level.value) == RequestChild(c, level.value);
    }
  }

  /**
   * A payload that is read keeps the tag's header and every child's position
   * and header, and leaves the children of other types untouched.
   */
  lemma RequestOfShape(c: Codec, t: Tag)
    requires RequestOf(c, t).Ok?
    ensures var cs := ReadChildren(c, t).value;
            var p := RequestOf(c, t).value;
            && SameHeader(p.tag, t) && p.tag.value.Composite?
            && var typed := p.tag.value.children;
            && |typed| == |cs|
            && (forall k :: 0 <= k < |cs| ==> SameHeader(typed[k], cs[k]))
            && (forall k :: 0 <= k < |cs| && !IsRequestField(cs[k].tagType) ==> typed[k] == cs[k])
  {
    var cs := ReadChildren(c, t).value;
    var f := RequestConversion(c);
    RequestLoop(c, cs);
    ConvertUpToSpec(cs, |cs|, f);
    assert forall k :: 0 <= k < |cs| ==> f(cs[k]) == RequestChild(c, cs[k]);
  }

  /**
   * A payload built from a request id, a hash and optionally a level reads
   * back from its own tag as the same payload, when the TLV reader reads back
   * what the writer wrote, the integer codec reads back the id and the level,
   * and the hash's algorithm is the registered one.
   */
  lemma NewRequestPayloadReadsBack(c: Codec, requestId: nat, hash: DataHash, level: Option<nat>)
    requires var children := RequestChildren(requestId, hash, level);
             c.readTags(c.writeTags(children)) == Some(children)
    requires c.decodeInteger(c.encodeInteger(requestId)) == Some(requestId)
    requires level.Some? ==> c.decodeInteger(c.encodeInteger(level.value)) == Some(level.value)
    requires WellFormed(hash) && GetById(c.algorithms, hash.algorithm.id) == Some(hash.algorithm)
    ensures var p := NewRequestPayload(requestId, Some(hash), level);
            RequestOf(c, p.value.tag) == p
  {
    var p := NewRequestPayload(requestId, Some(hash), level).value;
    var children := RequestChildren(requestId, hash, level);
    assert ReadChildren(c, p.tag) == Ok(children);
    ImprintRoundTrip(c.algorithms, hash);
    var f := RequestConversion(c);
    assert f(children[0]) == IntegerTagOf(c, children[0]);
    assert f(children[1]) == ImprintTagOf(c, children[1]);
    if level.Some? {
      assert f(children[2]) == IntegerTagOf(c, children[2]);
    }
    ConvertUpToSpec(children, |children|, f);
    assert ConvertAll(children, f).Ok?;
    assert ConvertAll(children, f).value == children;
    assert CountUpTo(children, 1, PayloadRequestIdTagType) == 1;
    assert CountUpTo(children, 2, PayloadRequestIdTagType) == 1;
    assert CountUpTo(children, 1, AggregationRequestHashTagType) == 0;
    assert CountUpTo(children, 2, AggregationRequestHashTagType) == 1;
    assert CountUpTo(children, 1, AggregationRequestLevelTagType) == 0;
    assert CountUpTo(children, 2, AggregationRequestLevelTagType) == 0;
    assert LastUpTo(children, 1, PayloadRequestIdTagType) == Some(children[0]);
    assert LastUpTo(children, 2, PayloadRequestIdTagType) == Some(children[0]);
    assert LastUpTo(children, 2, AggregationRequestHashTagType) == Some(children[1]);
    assert LastUpTo(children, 1, AggregationRequestLevelTagType) == None;
    assert LastUpTo(children, 2, AggregationRequestLevelTagType) == None;
    if level.Some? {
      assert CountUpTo(children, 3, PayloadRequestIdTagType) == 1;
      assert CountUpTo(children, 3, AggregationRequestHashTagType) == 1;
      assert CountUpTo(children, 3, AggregationRequestLevelTagType) == 1;
      assert LastUpTo(children, 3, PayloadRequestIdTagType) == Some(children[0]);
      assert LastUpTo(children, 3, AggregationRequestHashTagType) == Some(children[1]);
      assert LastUpTo(children, 3, AggregationRequestLevelTagType) == Some(children[2]);
    }
    RequestOfErrors(c, p.tag);
    RequestLoop(c, children);
  }
}
