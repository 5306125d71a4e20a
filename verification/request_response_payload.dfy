/**
 * RequestResponsePayload (ksi-net-api/Service/RequestResponsePayload.cs): a
 * response payload that carries a request id. ParseChild keeps a request id
 * child as an integer tag in a field and hands every other child to
 * ResponsePayload's ParseChild; Validate runs ResponsePayload's validation
 * and then demands exactly one request id.
 *
 * ResponsePayload is not part of this model: its ParseChild and its
 * validation are parameters. CompositeTag's constructor, which calls
 * ParseChild on each child in turn and counts the children's types, is not
 * part of it either and is written out as ReadChildren.
 */
module RequestResponsePayloads {
  import opened Wrappers
  import opened Exceptions
  import opened Parser
  import opened Children
  import opened Constants

  const RequestIdMessage := "Exactly one request id must exist in response payload."

  /** CompositeTag.GetIntegerTag: an integer tag as it is, anything else read as one. */
  function GetIntegerTag(c: Codec, x: Tag): (r: Result<Tag, Error>)
    ensures r.Ok? ==> SameHeader(r.value, x) && r.value.value.Integer?
    ensures x.value.Integer? ==> r == Ok(x)
  {
    if x.value.Integer? then Ok(x) else IntegerTagOf(c, x)
  }

  /** The typed form ParseChild gives a child: a request id through GetIntegerTag, anything else through the base ParseChild. */
  function PayloadChild(c: Codec, baseParseChild: Tag -> Result<Tag, Error>, x: Tag): Result<Tag, Error> {
    if x.tagType == PayloadRequestIdTagType then GetIntegerTag(c, x) else baseParseChild(x)
  }

  function PayloadConversion(c: Codec, baseParseChild: Tag -> Result<Tag, Error>): Tag -> Result<Tag, Error> {
    x => PayloadChild(c, baseParseChild, x)
  }

  /** A response payload object: its children and its request id field. */
  class RequestResponsePayload {
    var children: seq<Tag>
    var requestId: Option<Tag>

    /** A payload before any child is read. */
    constructor()
      ensures children == [] && requestId.None?
    {
      children := [];
      requestId := None;
    }

    /**
     * ParseChild: a request id child becomes an integer tag, which the field
     * keeps; any other child goes to the base ParseChild and leaves the field.
     */
    method ParseChild(c: Codec, baseParseChild: Tag -> Result<Tag, Error>, x: Tag) returns (r: Result<Tag, Error>)
      modifies this
      ensures x.tagType == PayloadRequestIdTagType ==>
                r == GetIntegerTag(c, x) && requestId == (if r.Ok? then Some(r.value) else old(requestId))
      ensures x.tagType != PayloadRequestIdTagType ==> r == baseParseChild(x) && requestId == old(requestId)
      ensures children == old(children)
    {
      if x.tagType == PayloadRequestIdTagType {
        r := GetIntegerTag(c, x);
        if r.Ok? {
          requestId := Some(r.value);
        }
      } else {
        r := baseParseChild(x);
      }
    }

    /**
     * Reading the children: each child in turn goes through ParseChild and is
     * appended; the request id field ends up holding the last request id child.
     */
    method ReadChildren(c: Codec, baseParseChild: Tag -> Result<Tag, Error>, cs: seq<Tag>) returns (r: Result<(), Error>)
      requires children == [] && requestId.None?
      modifies this
      ensures r.Ok? <==> ConvertAll(cs, PayloadConversion(c, baseParseChild)).Ok?
      ensures r.Err? ==> r.error == ConvertAll(cs, PayloadConversion(c, baseParseChild)).error
      ensures r.Ok? ==> children == ConvertAll(cs, PayloadConversion(c, baseParseChild)).value
      ensures r.Ok? ==> requestId == Converted(PayloadConversion(c, baseParseChild), LastOfType(cs, PayloadRequestIdTagType))
    {
      var f := PayloadConversion(c, baseParseChild);
      for i := 0 to |cs|
        invariant ConvertUpTo(cs, i, f) == Ok(children)
        invariant requestId == Converted(f, LastUpTo(cs, i, PayloadRequestIdTagType))
      {
        var typed := ParseChild(c, baseParseChild, cs[i]);
        assert f(cs[i]) == typed;
        if typed.Err? {
          ConvertStopsAt(cs, |cs|, i, f);
          return Err(typed.error);
        }
        children := children + [typed.value];
      }
      r := Ok(());
    }

    /** Validate: the base validation first, then exactly one request id child. */
    method Validate(baseValidate: seq<Tag> -> Result<(), Error>) returns (r: Result<(), Error>)
      ensures baseValidate(children).Err? ==> r == baseValidate(children)
      ensures baseValidate(children).Ok? && CountType(children, PayloadRequestIdTagType) != 1 ==> r == Err(Tlv(RequestIdMessage))
      ensures r.Ok? <==> baseValidate(children).Ok? && CountType(children, PayloadRequestIdTagType) == 1
    {
      r := baseValidate(children);
      if r.Err? {
        return;
      }
      if CountType(children, PayloadRequestIdTagType) != 1 {
        return Err(Tlv(RequestIdMessage));
      }
    }

    /** RequestId: the value of the stored request id. */
    function RequestId(): (id: nat)
      reads this
      requires requestId.Some? && requestId.value.value.Integer?
      ensures Integer(id) == requestId.value.value
    {
      requestId.value.value.n
    }
  }

  /**
   * A payload read from children and validated: it is built exactly when
   * every child converts, the base validation accepts the converted children
   * and exactly one child is a request id; its RequestId is then the integer
   * of that child, whether it came as an integer tag or was read as one.
   */
  method ReadRequestResponsePayload(c: Codec, baseParseChild: Tag -> Result<Tag, Error>,
                                    baseValidate: seq<Tag> -> Result<(), Error>, cs: seq<Tag>)
    returns (r: Result<RequestResponsePayload, Error>)
    requires KeepsTypes(PayloadConversion(c, baseParseChild))
    ensures r.Ok? <==>
              && ConvertAll(cs, PayloadConversion(c, baseParseChild)).Ok?
              && baseValidate(ConvertAll(cs, PayloadConversion(c, baseParseChild)).value).Ok?
              && CountType(cs, PayloadRequestIdTagType) == 1
    ensures r.Ok? ==>
              && LastOfType(cs, PayloadRequestIdTagType).Some?
              && r.value.requestId.Some? && r.value.requestId.value.value.Integer?
              && var child := LastOfType(cs, PayloadRequestIdTagType).value;
              (if child.value.Integer? then Integer(r.value.RequestId()) == child.value
               else Some(r.value.RequestId()) == c.decodeInteger(EncodeValue(c, child)))
  {
    var payload := new RequestResponsePayload();
    var read := payload.ReadChildren(c, baseParseChild, cs);
    if read.Err? {
      return Err(read.error);
    }
    var f := PayloadConversion(c, baseParseChild);
    ConvertAllInPlace(cs, f, PayloadRequestIdTagType);
    var valid := payload.Validate(baseValidate);
    if valid.Err? {
      return Err(valid.error);
    }
    LastUpToSpec(cs, |cs|, PayloadRequestIdTagType);
    var child := LastOfType(cs, PayloadRequestIdTagType).value;
    assert f(child) == PayloadChild(c, baseParseChild, child);
    r := Ok(payload);
  }
}
