/**
 * AggregationResponsePayload (ksi-net-api/Service/AggregationResponsePayload.cs):
 * the constructor converts the request id, status, error message, config
 * and request acknowledgment children in place and keeps each in a field;
 * there are no count checks, so a repeated child overwrites the field, and
 * a child of any other type is left as it is, without the unknown-tag check.
 * CheckStructure is not implemented and always throws.
 */
module AggregationResponsePayloads {
  import opened Wrappers
  import opened Exceptions
  import opened Parser
  import opened Children
  import opened Constants

  datatype AggregationResponsePayload = AggregationResponsePayload(
    tag: Tag,
    requestId: Option<Tag>,
    status: Option<Tag>,
    errorMessage: Option<Tag>,
    config: Option<Tag>,
    requestAcknowledgment: Option<Tag>)

  predicate IsResponseField(tagType: nat) {
    tagType == PayloadRequestIdTagType || tagType == PayloadStatusTagType || tagType == PayloadErrorMessageTagType
    || tagType == AggregationResponseConfigTagType || tagType == AggregationResponseRequestAckTagType
  }

  /** The typed form the constructor gives one child: integers, a string, two raw tags, and any other child as it is. */
  function ResponseChild(c: Codec, x: Tag): (r: Result<Tag, Error>)
    ensures r.Ok? ==> SameHeader(r.value, x)
    ensures !IsResponseField(x.tagType) ==> r == Ok(x)
    ensures x.tagType == AggregationResponseConfigTagType || x.tagType == AggregationResponseRequestAckTagType ==>
              r == Ok(RawTagOf(c, x))
  {
    if x.tagType == PayloadRequestIdTagType then IntegerTagOf(c, x)
    else if x.tagType == PayloadStatusTagType then IntegerTagOf(c, x)
    else if x.tagType == PayloadErrorMessageTagType then StringTagOf(c, x)
    else if x.tagType == AggregationResponseConfigTagType then Ok(RawTagOf(c, x))
    else if x.tagType == AggregationResponseRequestAckTagType then Ok(RawTagOf(c, x))
    else Ok(x)
  }

  function ResponseConversion(c: Codec): Tag -> Result<Tag, Error> {
    x => ResponseChild(c, x)
  }

  /** The object's fields while the loop runs. */
  datatype ResponseFields = ResponseFields(
    requestId: Option<Tag>,
    status: Option<Tag>,
    errorMessage: Option<Tag>,
    config: Option<Tag>,
    requestAcknowledgment: Option<Tag>)

  const NoResponseFields := ResponseFields(None, None, None, None, None)

  /** One pass of the constructor's switch: the typed child and the fields after it. */
  function ResponseStep(c: Codec, x: Tag, acc: ResponseFields): Result<(Tag, ResponseFields), Error> {
    var y :- ResponseChild(c, x);
    if x.tagType == PayloadRequestIdTagType then Ok((y, acc.(requestId := Some(y))))
    else if x.tagType == PayloadStatusTagType then Ok((y, acc.(status := Some(y))))
    else if x.tagType == PayloadErrorMessageTagType then Ok((y, acc.(errorMessage := Some(y))))
    else if x.tagType == AggregationResponseConfigTagType then Ok((y, acc.(config := Some(y))))
    else if x.tagType == AggregationResponseRequestAckTagType then Ok((y, acc.(requestAcknowledgment := Some(y))))
    else Ok((y, acc))
  }

  function ResponseSteps(c: Codec): (Tag, ResponseFields) -> Result<(Tag, ResponseFields), Error> {
    (x, acc) => ResponseStep(c, x, acc)
  }

  /** The payload new AggregationResponsePayload(tag) builds, or the exception it throws. */
  function ResponseOf(c: Codec, t: Tag): Result<AggregationResponsePayload, Error> {
    var cs :- ReadChildren(c, t);
    var done :- FoldUpTo(cs, |cs|, NoResponseFields, ResponseSteps(c));
    var fields := done.1;
    Ok(AggregationResponsePayload(Rebuilt(t, "AggregationResponsePayload", done.0), fields.requestId, fields.status,
                                  fields.errorMessage, fields.config, fields.requestAcknowledgment))
  }

  /** The body of the constructor's loop: the switch on the type of one child. */
  method ParseResponseChild(c: Codec, x: Tag, fields: ResponseFields) returns (r: Result<(Tag, ResponseFields), Error>)
    ensures r == ResponseStep(c, x, fields)
  {
    var next := fields;
    var typedChild := x;
    if x.tagType == PayloadRequestIdTagType {
      var n := IntegerTagOf(c, x);
      if n.Err? {
        return Err(n.error);
      }
      typedChild := n.value;
      next := next.(requestId := Some(typedChild));
    } else if x.tagType == PayloadStatusTagType {
      var n := IntegerTagOf(c, x);
      if n.Err? {
        return Err(n.error);
      }
      typedChild := n.value;
      next := next.(status := Some(typedChild));
    } else if x.tagType == PayloadErrorMessageTagType {
      var s := StringTagOf(c, x);
      if s.Err? {
        return Err(s.error);
      }
      typedChild := s.value;
      next := next.(errorMessage := Some(typedChild));
    } else if x.tagType == AggregationResponseConfigTagType {
      typedChild := RawTagOf(c, x);
      next := next.(config := Some(typedChild));
    } else if x.tagType == AggregationResponseRequestAckTagType {
      typedChild := RawTagOf(c, x);
      next := next.(requestAcknowledgment := Some(typedChild));
    }
    r := Ok((typedChild, next));
  }

  /** AggregationResponsePayload(TlvTag): the loop over the children, replacing each by its typed form. */
  method NewAggregationResponsePayload(c: Codec, t: Tag) returns (r: Result<AggregationResponsePayload, Error>)
    ensures r == ResponseOf(c, t)
  {
    var read := ReadChildren(c, t);
    if read.Err? {
      return Err(read.error);
    }
    ghost var original := read.value;
    var children := read.value;
    var fields := NoResponseFields;
    var i := 0;
    while i < |children|
      invariant 0 <= i <= |children| == |original|
      invariant FoldUpTo(original, i, NoResponseFields, ResponseSteps(c)) == Ok((children[..i], fields))
      invariant children[i..] == original[i..]
    {
      assert children[i] == original[i] by { assert children[i..][0] == original[i..][0]; }
      var step := ParseResponseChild(c, children[i], fields);
      assert ResponseSteps(c)(children[i], fields) == step;
      if step.Err? {
        FoldStopsAt(original, |original|, i, NoResponseFields, ResponseSteps(c));
        return Err(step.error);
      }
      ghost var before := children;
      children := children[i := step.value.0];
      fields := step.value.1;
      assert children[..i + 1] == before[..i] + [step.value.0];
      assert children[i + 1..] == before[i + 1..];
      i := i + 1;
    }
    assert children[..i] == children;
    r := Ok(AggregationResponsePayload(Rebuilt(t, "AggregationResponsePayload", children), fields.requestId, fields.status,
                                       fields.errorMessage, fields.config, fields.requestAcknowledgment));
  }

  /** CheckStructure: not implemented; it throws whatever the payload holds. */
  function CheckStructure(p: AggregationResponsePayload): (r: Result<(), Error>)
    ensures r.Err? && r.error.NotImplemented?
  {
    Err(NotImplemented)
  }

  // -------------------------------------------------------------- properties

  /** One pass of the switch converts the child exactly as ResponseChild does, whatever the fields. */
  lemma ResponseStepConverts(c: Codec)
    ensures StepConverts(ResponseSteps(c), ResponseConversion(c))
    ensures KeepsTypes(ResponseConversion(c))
  {
    forall x: Tag, a: ResponseFields
      ensures ResponseSteps(c)(x, a) == ResponseStep(c, x, a) && ResponseConversion(c)(x) == ResponseChild(c, x)
    {
    }
  }

  /** After n children each field holds the typed form of the last child of its type. */
  lemma {:induction false} ResponseUpToFields(c: Codec, cs: seq<Tag>, n: nat)
    requires n <= |cs| && FoldUpTo(cs, n, NoResponseFields, ResponseSteps(c)).Ok?
    ensures var fields := FoldUpTo(cs, n, NoResponseFields, ResponseSteps(c)).value.1;
            var f := ResponseConversion(c);
            && fields.requestId == Converted(f, LastUpTo(cs, n, PayloadRequestIdTagType))
            && fields.status == Converted(f, LastUpTo(cs, n, PayloadStatusTagType))
            && fields.errorMessage == Converted(f, LastUpTo(cs, n, PayloadErrorMessageTagType))
            && fields.config == Converted(f, LastUpTo(cs, n, AggregationResponseConfigTagType))
            && fields.requestAcknowledgment == Converted(f, LastUpTo(cs, n, AggregationResponseRequestAckTagType))
  {
    if n > 0 {
      ResponseUpToFields(c, cs, n - 1);
      var acc := FoldUpTo(cs, n - 1, NoResponseFields, ResponseSteps(c)).value.1;
      assert ResponseSteps(c)(cs[n - 1], acc) == ResponseStep(c, cs[n - 1], acc);
      assert ResponseConversion(c)(cs[n - 1]) == ResponseChild(c, cs[n - 1]);
    }
  }

  /**
   * new AggregationResponsePayload(tag): it throws exactly when the children
   * cannot be read or a request id, status or error message child cannot be
   * converted, with that exception; there are no count checks. Otherwise each
   * field is the typed form of the last child of its type (null when there is
   * none), and the payload keeps the tag's header and every child's position
   * and header, leaving the children of other types untouched.
   */
  lemma ResponseOfSpec(c: Codec, t: Tag)
    ensures ReadChildren(c, t).Err? ==> ResponseOf(c, t) == Err(ReadChildren(c, t).error)
    ensures ReadChildren(c, t).Ok? ==>
              var cs := ReadChildren(c, t).value;
              var f := ResponseConversion(c);
              && (ResponseOf(c, t).Ok? <==> ConvertAll(cs, f).Ok?)
              && (ConvertAll(cs, f).Err? ==> ResponseOf(c, t) == Err(ConvertAll(cs, f).error))
              && (ConvertAll(cs, f).Ok? ==>
                    var p := ResponseOf(c, t).value;
                    && p.requestId == Converted(f, LastOfType(cs, PayloadRequestIdTagType))
                    && p.status == Converted(f, LastOfType(cs, PayloadStatusTagType))
                    && p.errorMessage == Converted(f, LastOfType(cs, PayloadErrorMessageTagType))
                    && p.config == Converted(f, LastOfType(cs, AggregationResponseConfigTagType))
                    && p.requestAcknowledgment == Converted(f, LastOfType(cs, AggregationResponseRequestAckTagType))
                    && p.tag == Rebuilt(t, "AggregationResponsePayload", ConvertAll(cs, f).value))
  {
    if ReadChildren(c, t).Ok? {
      var cs := ReadChildren(c, t).value;
      ResponseStepConverts(c);
      FoldConverts(cs, |cs|, NoResponseFields, ResponseSteps(c), ResponseConversion(c));
      if ConvertAll(cs, ResponseConversion(c)).Ok? {
        ResponseUpToFields(c, cs, |cs|);
      }
    }
  }

  /** A payload that is read keeps every child's position and header and leaves the children of other types untouched. */
  lemma ResponseOfShape(c: Codec, t: Tag)
    requires ResponseOf(c, t).Ok?
    ensures var cs := ReadChildren(c, t).value;
            var typed := ResponseOf(c, t).value.tag.value.children;
            && |typed| == |cs|
            && (forall k :: 0 <= k < |cs| ==> SameHeader(typed[k], cs[k]))
            && (forall k :: 0 <= k < |cs| && !IsResponseField(cs[k].tagType) ==> typed[k] == cs[k])
  {
    var cs := ReadChildren(c, t).value;
    var f := ResponseConversion(c);
    ResponseOfSpec(c, t);
    ConvertUpToSpec(cs, |cs|, f);
    assert forall k :: 0 <= k < |cs| ==> f(cs[k]) == ResponseChild(c, cs[k]);
  }
}
