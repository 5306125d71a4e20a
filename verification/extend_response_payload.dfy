/**
 * ExtendResponsePayload (ksi-net-api/Service/ExtendResponsePayload.cs): the
 * constructor checks the tag type, converts the request id, status, error
 * message, calendar last time and calendar hash chain children in place,
 * keeps the last of each in a field and demands exactly one request id,
 * exactly one status, at most one error message, at most one calendar last
 * time, and, when the status is 0, exactly one calendar hash chain. The
 * calendar hash chain's own checks are not part of this model: it is kept
 * with its children as read.
 */
module ExtendResponsePayloads {
  import opened Wrappers
  import opened Exceptions
  import opened Parser
  import opened Children
  import opened Constants

  datatype ExtendResponsePayload = ExtendResponsePayload(
    tag: Tag,
    requestId: Option<Tag>,
    status: Option<Tag>,
    errorMessage: Option<Tag>,       // None when there is no error message
    calendarLastTime: Option<Tag>,   // None when there is no calendar last time
    calendarHashChain: Option<Tag>)  // the last calendar hash chain child, None when there is none

  const RequestIdMessage := "Exactly one request id must exist in extend response payload."
  const StatusMessage := "Exactly one status code must exist in extend response payload."
  const ErrorMessageMessage := "Only one error message is allowed in extend response payload."
  const CalendarLastTimeMessage := "Only one calendar last time is allowed in extend response payload."
  const CalendarHashChainMessage := "Exactly one calendar hash chain must exist in extend response payload."

  predicate IsResponseField(tagType: nat) {
    tagType == PayloadRequestIdTagType || tagType == PayloadStatusTagType || tagType == PayloadErrorMessageTagType
    || tagType == ExtendResponseLastTimeTagType || tagType == CalendarHashChainTagType
  }

  /** The typed form the constructor gives one child. */
  function ResponseChild(c: Codec, x: Tag): (r: Result<Tag, Error>)
    ensures r.Ok? ==> SameHeader(r.value, x)
    ensures !IsResponseField(x.tagType) ==> r == VerifyUnknownTag(c, x)
  {
    if x.tagType == PayloadRequestIdTagType then IntegerTagOf(c, x)
    else if x.tagType == PayloadStatusTagType then IntegerTagOf(c, x)
    else if x.tagType == PayloadErrorMessageTagType then StringTagOf(c, x)
    else if x.tagType == ExtendResponseLastTimeTagType then IntegerTagOf(c, x)
    else if x.tagType == CalendarHashChainTagType then OpaqueCompositeOf(c, x, "CalendarHashChain")
    else VerifyUnknownTag(c, x)
  }

  function ResponseConversion(c: Codec): Tag -> Result<Tag, Error> {
    x => ResponseChild(c, x)
  }

  /** The object's fields and the constructor's five counters while the loop runs. */
  datatype ResponseFields = ResponseFields(
    requestId: Option<Tag>,
    status: Option<Tag>,
    errorMessage: Option<Tag>,
    calendarLastTime: Option<Tag>,
    calendarHashChain: Option<Tag>,
    requestIdCount: nat,
    statusCount: nat,
    errorMessageCount: nat,
    calendarLastTimeCount: nat,
    calendarHashChainCount: nat)

  const NoResponseFields := ResponseFields(None, None, None, None, None, 0, 0, 0, 0, 0)

  /** One pass of the constructor's switch: the typed child and the fields and counters after it. */
  function ResponseStep(c: Codec, x: Tag, acc: ResponseFields): Result<(Tag, ResponseFields), Error> {
    var y :- ResponseChild(c, x);
    if x.tagType == PayloadRequestIdTagType then
      Ok((y, acc.(requestId := Some(y), requestIdCount := acc.requestIdCount + 1)))
    else if x.tagType == PayloadStatusTagType then
      Ok((y, acc.(status := Some(y), statusCount := acc.statusCount + 1)))
    else if x.tagType == PayloadErrorMessageTagType then
      Ok((y, acc.(errorMessage := Some(y), errorMessageCount := acc.errorMessageCount + 1)))
    else if x.tagType == ExtendResponseLastTimeTagType then
      Ok((y, acc.(calendarLastTime := Some(y), calendarLastTimeCount := acc.calendarLastTimeCount + 1)))
    else if x.tagType == CalendarHashChainTagType then
      Ok((y, acc.(calendarHashChain := Some(y), calendarHashChainCount := acc.calendarHashChainCount + 1)))
    else Ok((y, acc))
  }

  function ResponseSteps(c: Codec): (Tag, ResponseFields) -> Result<(Tag, ResponseFields), Error> {
    (x, acc) => ResponseStep(c, x, acc)
  }

  /** The payload new ExtendResponsePayload(tag) builds, or the exception it throws. */
  function ResponseOf(c: Codec, t: Tag): Result<ExtendResponsePayload, Error> {
    var cs :- ReadChildren(c, t);
    var _ :- CheckTagType(t, ExtendResponsePayloadTagType);
    var done :- FoldUpTo(cs, |cs|, NoResponseFields, ResponseSteps(c));
    ResponseChecked(t, done.0, done.1)
  }

  /** Whether the status field holds the integer 0. */
  predicate StatusIsZero(status: Option<Tag>) {
    status.Some? && status.value.value == Integer(0)
  }

  /** The checks after the constructor's loop. */
  function ResponseChecked(t: Tag, typed: seq<Tag>, fields: ResponseFields): Result<ExtendResponsePayload, Error> {
    if fields.requestIdCount != 1 then Err(Tlv(RequestIdMessage))
    else if fields.statusCount != 1 then Err(Tlv(StatusMessage))
    else if fields.errorMessageCount > 1 then Err(Tlv(ErrorMessageMessage))
    else if fields.calendarLastTimeCount > 1 then Err(Tlv(CalendarLastTimeMessage))
    else if StatusIsZero(fields.status) && fields.calendarHashChainCount != 1 then Err(Tlv(CalendarHashChainMessage))
    else Ok(ExtendResponsePayload(Rebuilt(t, "ExtendResponsePayload", typed), fields.requestId, fields.status,
                                  fields.errorMessage, fields.calendarLastTime, fields.calendarHashChain))
  }

  /** The body of the constructor's loop: the switch on the type of one child. */
  method ParseResponseChild(c: Codec, x: Tag, fields: ResponseFields) returns (r: Result<(Tag, ResponseFields), Error>)
    ensures r == ResponseStep(c, x, fields)
  {
    var typed := ResponseChild(c, x);
    if typed.Err? {
      return Err(typed.error);
    }
    var y := typed.value;
    var next := fields;
    if x.tagType == PayloadRequestIdTagType {
      next := next.(requestId := Some(y), requestIdCount := next.requestIdCount + 1);
    } else if x.tagType == PayloadStatusTagType {
      next := next.(status := Some(y), statusCount := next.statusCount + 1);
    } else if x.tagType == PayloadErrorMessageTagType {
      next := next.(errorMessage := Some(y), errorMessageCount := next.errorMessageCount + 1);
    } else if x.tagType == ExtendResponseLastTimeTagType {
      next := next.(calendarLastTime := Some(y), calendarLastTimeCount := next.calendarLastTimeCount + 1);
    } else if x.tagType == CalendarHashChainTagType {
      next := next.(calendarHashChain := Some(y), calendarHashChainCount := next.calendarHashChainCount + 1);
    }
    r := Ok((y, next));
  }

  /** ExtendResponsePayload(ITlvTag): the tag type check, the loop over the children, then the count checks. */
  method NewExtendResponsePayload(c: Codec, t: Tag) returns (r: Result<ExtendResponsePayload, Error>)
    ensures r == ResponseOf(c, t)
  {
    var read := ReadChildren(c, t);
    if read.Err? {
      return Err(read.error);
    }
    if t.tagType != ExtendResponsePayloadTagType {
      return Err(Tlv("Invalid tag type"));
    }
    ghost var original := read.value;
    var children := read.value;
    var fields := NoResponseFields;
    var i := 0;
    while i < |children|
      invariant 0 <= i <= |children| == |original|
      invariant FoldUpTo(original, i, NoResponseFields, ResponseSteps(c)) == Ok((children[..i], fields))
      invariant children[i..] == original[i..]
    {
      assert children[i] == original[i] by { assert children[i..][0] == original[i..][0]; }
      var step := ParseResponseChild(c, children[i], fields);
      assert ResponseSteps(c)(children[i], fields) == step;
      if step.Err? {
        FoldStopsAt(original, |original|, i, NoResponseFields, ResponseSteps(c));
        return Err(step.error);
      }
      ghost var before := children;
      children := children[i := step.value.0];
      fields := step.value.1;
      assert children[..i + 1] == before[..i] + [step.value.0];
      assert children[i + 1..] == before[i + 1..];
      i := i + 1;
    }
    assert children[..i] == children;
    assert ResponseOf(c, t) == ResponseChecked(t, children, fields);
    if fields.requestIdCount != 1 {
      return Err(Tlv(RequestIdMessage));
    }
    if fields.statusCount != 1 {
      return Err(Tlv(StatusMessage));
    }
    if fields.errorMessageCount > 1 {
      return Err(Tlv(ErrorMessageMessage));
    }
    if fields.calendarLastTimeCount > 1 {
      return Err(Tlv(CalendarLastTimeMessage));
    }
    if StatusIsZero(fields.status) && fields.calendarHashChainCount != 1 {
      return Err(Tlv(CalendarHashChainMessage));
    }
    r := Ok(ExtendResponsePayload(Rebuilt(t, "ExtendResponsePayload", children), fields.requestId, fields.status,
                                  fields.errorMessage, fields.calendarLastTime, fields.calendarHashChain));
  }

  // ----------------------------------------------------------------- getters

  /** RequestId: the value of the request id child. */
  function RequestId(p: ExtendResponsePayload): (id: nat)
    requires p.requestId.Some? && p.requestId.value.value.Integer?
    ensures Integer(id) == p.requestId.value.value
  {
    p.requestId.value.value.n
  }

  /** Status: the value of the status child. */
  function Status(p: ExtendResponsePayload): (status: nat)
    requires p.status.Some? && p.status.value.value.Integer?
    ensures Integer(status) == p.status.value.value
  {
    p.status.value.value.n
  }

  /** ErrorMessage: the text of the error message child, or null when there is none. */
  function ErrorMessage(p: ExtendResponsePayload): (message: Option<string>)
    requires p.errorMessage.Some? ==> p.errorMessage.value.value.Text?
    ensures message.Some? <==> p.errorMessage.Some?
    ensures message.Some? ==> Text(message.value) == p.errorMessage.value.value
  {
    if p.errorMessage.Some? then Some(p.errorMessage.value.value.s) else None
  }

  /** CalendarLastTime: the value of the calendar last time child, or null when there is none. */
  function CalendarLastTime(p: ExtendResponsePayload): (time: Option<nat>)
    requires p.calendarLastTime.Some? ==> p.calendarLastTime.value.value.Integer?
    ensures time.Some? <==> p.calendarLastTime.Some?
    ensures time.Some? ==> Integer(time.value) == p.calendarLastTime.value.value
  {
    if p.calendarLastTime.Some? then Some(p.calendarLastTime.value.value.n) else None
  }

  // -------------------------------------------------------------- properties

  /** One pass of the switch converts the child exactly as ResponseChild does, whatever the fields. */
  lemma ResponseStepConverts(c: Codec)
    ensures StepConverts(ResponseSteps(c), ResponseConversion(c))
    ensures KeepsTypes(ResponseConversion(c))
  {
    forall x: Tag, a: ResponseFields
      ensures ResponseSteps(c)(x, a) == ResponseStep(c, x, a) && ResponseConversion(c)(x) == ResponseChild(c, x)
    {
    }
  }

  /** After n children each field holds the typed form of the last child of its type, and each counter counts its type. */
  lemma {:induction false} ResponseUpToFields(c: Codec, cs: seq<Tag>, n: nat)
    requires n <= |cs| && FoldUpTo(cs, n, NoResponseFields, ResponseSteps(c)).Ok?
    ensures var fields := FoldUpTo(cs, n, NoResponseFields, ResponseSteps(c)).value.1;
            var f := ResponseConversion(c);
            && fields.requestId == Converted(f, LastUpTo(cs, n, PayloadRequestIdTagType))
            && fields.status == Converted(f, LastUpTo(cs, n, PayloadStatusTagType))
            && fields.errorMessage == Converted(f, LastUpTo(cs, n, PayloadErrorMessageTagType))
            && fields.calendarLastTime == Converted(f, LastUpTo(cs, n, ExtendResponseLastTimeTagType))
            && fields.calendarHashChain == Converted(f, LastUpTo(cs, n, CalendarHashChainTagType))
            && fields.requestIdCount == CountUpTo(cs, n, PayloadRequestIdTagType)
            && fields.statusCount == CountUpTo(cs, n, PayloadStatusTagType)
            && fields.errorMessageCount == CountUpTo(cs, n, PayloadErrorMessageTagType)
            && fields.calendarLastTimeCount == CountUpTo(cs, n, ExtendResponseLastTimeTagType)
            && fields.calendarHashChainCount == CountUpTo(cs, n, CalendarHashChainTagType)
  {
    if n > 0 {
      ResponseUpToFields(c, cs, n - 1);
      var x := cs[n - 1];
      var acc := FoldUpTo(cs, n - 1, NoResponseFields, ResponseSteps(c)).value.1;
      assert ResponseSteps(c)(x, acc) == ResponseStep(c, x, acc);
      assert ResponseConversion(c)(x) == ResponseChild(c, x);
      var next := ResponseStep(c, x, acc).value.1;
      assert FoldUpTo(cs, n, NoResponseFields, ResponseSteps(c)).value.1 == next;
      var y := ResponseChild(c, x).value;
      if x.tagType == PayloadRequestIdTagType {
        assert next == acc.(requestId := Some(y), requestIdCount := acc.requestIdCount + 1);
      } else if x.tagType == PayloadStatusTagType {
        assert next == acc.(status := Some(y), statusCount := acc.statusCount + 1);
      } else if x.tagType == PayloadErrorMessageTagType {
        assert next == acc.(errorMessage := Some(y), errorMessageCount := acc.errorMessageCount + 1);
      } else if x.tagType == ExtendResponseLastTimeTagType {
        assert next == acc.(calendarLastTime := Some(y), calendarLastTimeCount := acc.calendarLastTimeCount + 1);
      } else if x.tagType == CalendarHashChainTagType {
        assert next == acc.(calendarHashChain := Some(y), calendarHashChainCount := acc.calendarHashChainCount + 1);
      } else {
        assert next == acc;
      }
    }
  }

  /** The fields and counters the loop leaves when every child converts, in terms of the children. */
  ghost function ResponseFieldsOf(c: Codec, cs: seq<Tag>): ResponseFields {
    var f := ResponseConversion(c);
    ResponseFields(
      Converted(f, LastOfType(cs, PayloadRequestIdTagType)),
      Converted(f, LastOfType(cs, PayloadStatusTagType)),
      Converted(f, LastOfType(cs, PayloadErrorMessageTagType)),
      Converted(f, LastOfType(cs, ExtendResponseLastTimeTagType)),
      Converted(f, LastOfType(cs, CalendarHashChainTagType)),
      CountType(cs, PayloadRequestIdTagType),
      CountType(cs, PayloadStatusTagType),
      CountType(cs, PayloadErrorMessageTagType),
      CountType(cs, ExtendResponseLastTimeTagType),
      CountType(cs, CalendarHashChainTagType))
  }

  /** The whole loop throws exactly when converting the children throws; otherwise it leaves ResponseFieldsOf. */
  lemma ResponseLoop(c: Codec, cs: seq<Tag>)
    ensures FoldUpTo(cs, |cs|, NoResponseFields, ResponseSteps(c)).Ok? <==> ConvertAll(cs, ResponseConversion(c)).Ok?
    ensures FoldUpTo(cs, |cs|, NoResponseFields, ResponseSteps(c)).Err? ==>
              ConvertAll(cs, ResponseConversion(c)) == Err(FoldUpTo(cs, |cs|, NoResponseFields, ResponseSteps(c)).error)
    ensures ConvertAll(cs, ResponseConversion(c)).Ok? ==>
              FoldUpTo(cs, |cs|, NoResponseFields, ResponseSteps(c))
              == Ok((ConvertAll(cs, ResponseConversion(c)).value, ResponseFieldsOf(c, cs)))
  {
    ResponseStepConverts(c);
    FoldConverts(cs, |cs|, NoResponseFields, ResponseSteps(c), ResponseConversion(c));
    if ConvertAll(cs, ResponseConversion(c)).Ok? {
      ResponseUpToFields(c, cs, |cs|);
    }
  }

  /** The status value the final check reads: the integer decoded from the last status child. */
  function StatusValueOf(c: Codec, cs: seq<Tag>): Option<nat> {
    var status := LastOfType(cs, PayloadStatusTagType);
    if status.None? then None else c.decodeInteger(EncodeValue(c, status.value))
  }

  /** The checks the loop's counters face, in terms of the children, once every child converts. */
  lemma ResponseCheckedOf(c: Codec, t: Tag, cs: seq<Tag>)
    requires ConvertAll(cs, ResponseConversion(c)).Ok?
    ensures var fields := ResponseFieldsOf(c, cs);
            fields.statusCount == 1 ==> (StatusIsZero(fields.status) <==> StatusValueOf(c, cs) == Some(0))
  {
    var f := ResponseConversion(c);
    ConvertUpToSpec(cs, |cs|, f);
    LastUpToSpec(cs, |cs|, PayloadStatusTagType);
    CountUpToSpec(cs, |cs|, PayloadStatusTagType);
    var status := LastOfType(cs, PayloadStatusTagType);
    if status.Some? {
      assert f(status.value) == ResponseChild(c, status.value);
    }
  }

  /**
   * new ExtendResponsePayload(tag): it throws when the children cannot be
   * read, when the tag type is wrong, when a child cannot be converted, and
   * then, in this order, unless there is exactly one request id, exactly one
   * status, at most one error message, at most one calendar last time, and
   * exactly one calendar hash chain if the status is 0; any number of chains
   * is accepted with another status. It throws for no other reason.
   */
  lemma ResponseOfErrors(c: Codec, t: Tag)
    ensures ReadChildren(c, t).Err? ==> ResponseOf(c, t) == Err(ReadChildren(c, t).error)
    ensures ReadChildren(c, t).Ok? && t.tagType != ExtendResponsePayloadTagType ==>
              ResponseOf(c, t) == Err(Tlv("Invalid tag type"))
    ensures ReadChildren(c, t).Ok? && t.tagType == ExtendResponsePayloadTagType ==>
              var cs := ReadChildren(c, t).value;
              var f := ResponseConversion(c);
              && (ConvertAll(cs, f).Err? ==> ResponseOf(c, t) == Err(ConvertAll(cs, f).error))
              && (ConvertAll(cs, f).Ok? && CountType(cs, PayloadRequestIdTagType) != 1 ==>
                    ResponseOf(c, t) == Err(Tlv(RequestIdMessage)))
              && (ConvertAll(cs, f).Ok? && CountType(cs, PayloadRequestIdTagType) == 1
                  && CountType(cs, PayloadStatusTagType) != 1 ==>
                    ResponseOf(c, t) == Err(Tlv(StatusMessage)))
              && (ConvertAll(cs, f).Ok? && CountType(cs, PayloadRequestIdTagType) == 1
                  && CountType(cs, PayloadStatusTagType) == 1
                  && CountType(cs, PayloadErrorMessageTagType) > 1 ==>
                    ResponseOf(c, t) == Err(Tlv(ErrorMessageMessage)))
              && (ConvertAll(cs, f).Ok? && CountType(cs, PayloadRequestIdTagType) == 1
                  && CountType(cs, PayloadStatusTagType) == 1
                  && CountType(cs, PayloadErrorMessageTagType) <= 1
                  && CountType(cs, ExtendResponseLastTimeTagType) > 1 ==>
                    ResponseOf(c, t) == Err(Tlv(CalendarLastTimeMessage)))
              && (ConvertAll(cs, f).Ok? && CountType(cs, PayloadRequestIdTagType) == 1
                  && CountType(cs, PayloadStatusTagType) == 1
                  && CountType(cs, PayloadErrorMessageTagType) <= 1
                  && CountType(cs, ExtendResponseLastTimeTagType) <= 1
                  && StatusValueOf(c, cs) == Some(0) && CountType(cs, CalendarHashChainTagType) != 1 ==>
                    ResponseOf(c, t) == Err(Tlv(CalendarHashChainMessage)))
              && (ResponseOf(c, t).Ok? <==>
                    ConvertAll(cs, f).Ok? && CountType(cs, PayloadRequestIdTagType) == 1
                    && CountType(cs, PayloadStatusTagType) == 1
                    && CountType(cs, PayloadErrorMessageTagType) <= 1
                    && CountType(cs, ExtendResponseLastTimeTagType) <= 1
                    && (StatusValueOf(c, cs) == Some(0) ==> CountType(cs, CalendarHashChainTagType) == 1))
  {
    if ReadChildren(c, t).Ok? && t.tagType == ExtendResponsePayloadTagType {
      var cs := ReadChildren(c, t).value;
      ResponseLoop(c, cs);
      if ConvertAll(cs, ResponseConversion(c)).Ok? {
        ResponseCheckedOf(c, t, cs);
      }
    }
  }

  /**
   * The fields of a payload read from a tag: the request id and status are
   * the integers read from their one child each; the error message and the
   * calendar last time are null exactly when there is no child of their
   * type; the calendar hash chain is the last chain child, which with status
   * 0 is the only one.
   */
  lemma ResponseGetters(c: Codec, t: Tag)
    requires ResponseOf(c, t).Ok?
    ensures var p := ResponseOf(c, t).value;
            && p.requestId.Some? && p.requestId.value.value.Integer?
            && p.status.Some? && p.status.value.value.Integer?
            && (p.errorMessage.Some? ==> p.errorMessage.value.value.Text?)
            && (p.calendarLastTime.Some? ==> p.calendarLastTime.value.value.Integer?)
    ensures var cs := ReadChildren(c, t).value;
            var p := ResponseOf(c, t).value;
            && LastOfType(cs, PayloadRequestIdTagType).Some?
            && Some(RequestId(p)) == c.decodeInteger(EncodeValue(c, LastOfType(cs, PayloadRequestIdTagType).value))
            && Some(Status(p)) == StatusValueOf(c, cs)
            && (ErrorMessage(p).None? <==> CountType(cs, PayloadErrorMessageTagType) == 0)
            && (CalendarLastTime(p).None? <==> CountType(cs, ExtendResponseLastTimeTagType) == 0)
            && (p.calendarHashChain.None? <==> CountType(cs, CalendarHashChainTagType) == 0)
            && (p.calendarHashChain.Some? ==>
                  p.calendarHashChain == Converted(ResponseConversion(c), LastOfType(cs, CalendarHashChainTagType)))
            && (Status(p) == 0 ==> CountType(cs, CalendarHashChainTagType) == 1 && p.calendarHashChain.Some?)
  {
    var cs := ReadChildren(c, t).value;
    var f := ResponseConversion(c);
    ResponseOfErrors(c, t);
    ResponseLoop(c, cs);
    ConvertUpToSpec(cs, |cs|, f);
    LastUpToSpec(cs, |cs|, PayloadRequestIdTagType);
    LastUpToSpec(cs, |cs|, PayloadStatusTagType);
    LastUpToSpec(cs, |cs|, PayloadErrorMessageTagType);
    LastUpToSpec(cs, |cs|, ExtendResponseLastTimeTagType);
    LastUpToSpec(cs, |cs|, CalendarHashChainTagType);
    var id := LastOfType(cs, PayloadRequestIdTagType).value;
    var status := LastOfType(cs, PayloadStatusTagType).value;
    assert f(id) == ResponseChild(c, id);
    assert f(status) == ResponseChild(c, status);
    var message := LastOfType(cs, PayloadErrorMessageTagType);
    if message.Some? {
      assert f(message.value) == ResponseChild(c, message.value);
    }
    var lastTime := LastOfType(cs, ExtendResponseLastTimeTagType);
    if lastTime.Some? {
      assert f(lastTime.value) == ResponseChild(c, lastTime.value);
    }
  }

  /**
   * A payload that is read keeps the tag's header and every child's position
   * and header, and leaves the children of other types untouched.
   */
  lemma ResponseOfShape(c: Codec, t: Tag)
    requires ResponseOf(c, t).Ok?
    ensures var cs := ReadChildren(c, t).value;
            var p := ResponseOf(c, t).value;
            && SameHeader(p.tag, t) && p.tag.value.Composite?
            && var typed := p.tag.value.children;
            && |typed| == |cs|
            && (forall k :: 0 <= k < |cs| ==> SameHeader(typed[k], cs[k]))
            && (forall k :: 0 <= k < |cs| && !IsResponseField(cs[k].tagType) ==> typed[k] == cs[k])
  {
    var cs := ReadChildren(c, t).value;
    var f := ResponseConversion(c);
    ResponseLoop(c, cs);
    ConvertUpToSpec(cs, |cs|, f);
    assert forall k :: 0 <= k < |cs| ==> f(cs[k]) == ResponseChild(c, cs[k]);
  }
}
