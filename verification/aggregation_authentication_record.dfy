/**
 * AggregationAuthenticationRecord (ksi-net-api/Signature/AggregationAuthenticationRecord.cs):
 * Validate checks the tag type, converts every child in place, keeps the
 * typed children in fields, and then checks how many of each there were.
 */
module AggregationAuthenticationRecords {
  import opened Wrappers
  import opened Exceptions
  import opened Hashing
  import opened Parser
  import opened Children
  import opened Constants

  datatype AggregationAuthenticationRecord = AggregationAuthenticationRecord(
    tag: Tag,
    aggregationTime: Option<Tag>,
    chainIndex: seq<Tag>,           // an empty list until the first chain index child
    inputHash: Option<Tag>,
    signatureData: Option<Tag>)

  // The messages of the TlvExceptions Validate throws after its loop.
  const AggregationTimeMessage := "Exactly one aggregation time must exist in aggregation authentication record."
  const ChainIndexMessage := "Chain indexes must exist in aggregation authentication record."
  const InputHashMessage := "Exactly one input hash must exist in aggregation authentication record."
  const SignatureDataMessage := "Exactly one signature data must exist in aggregation authentication record."

  predicate IsAuthRecordField(tagType: nat) {
    tagType == AuthRecordAggregationTimeTagType || tagType == AuthRecordChainIndexTagType
    || tagType == AuthRecordInputHashTagType || tagType == SignatureDataTagType
  }

  /** The typed form Validate gives one child; a child of another type must pass VerifyUnknownTag. */
  function AuthRecordChild(c: Codec, x: Tag): (r: Result<Tag, Error>)
    ensures r.Ok? ==> SameHeader(r.value, x)
    ensures !IsAuthRecordField(x.tagType) ==> r == VerifyUnknownTag(c, x)
  {
    if x.tagType == AuthRecordAggregationTimeTagType || x.tagType == AuthRecordChainIndexTagType then IntegerTagOf(c, x)
    else if x.tagType == AuthRecordInputHashTagType then ImprintTagOf(c, x)
    else if x.tagType == SignatureDataTagType then OpaqueCompositeOf(c, x, "SignatureData")
    else VerifyUnknownTag(c, x)
  }

  function AuthRecordConversion(c: Codec): Tag -> Result<Tag, Error> {
    x => AuthRecordChild(c, x)
  }

  /** The object's fields and Validate's counters while the loop runs. */
  datatype AuthRecordFields = AuthRecordFields(
    aggregationTime: Option<Tag>,
    chainIndex: seq<Tag>,
    inputHash: Option<Tag>,
    signatureData: Option<Tag>,
    aggregationTimeCount: nat,
    inputHashCount: nat,
    signatureDataCount: nat)

  const NoAuthRecordFields := AuthRecordFields(None, [], None, None, 0, 0, 0)

  /** One pass of Validate's switch: the typed child and the fields and counters after it. */
  function AuthRecordStep(c: Codec, x: Tag, acc: AuthRecordFields): Result<(Tag, AuthRecordFields), Error> {
    var y :- AuthRecordChild(c, x);
    if x.tagType == AuthRecordAggregationTimeTagType then
      Ok((y, acc.(aggregationTime := Some(y), aggregationTimeCount := acc.aggregationTimeCount + 1)))
    else if x.tagType == AuthRecordChainIndexTagType then
      Ok((y, acc.(chainIndex := acc.chainIndex + [y])))
    else if x.tagType == AuthRecordInputHashTagType then
      Ok((y, acc.(inputHash := Some(y), inputHashCount := acc.inputHashCount + 1)))
    else if x.tagType == SignatureDataTagType then
      Ok((y, acc.(signatureData := Some(y), signatureDataCount := acc.signatureDataCount + 1)))
    else Ok((y, acc))
  }

  function AuthRecordSteps(c: Codec): (Tag, AuthRecordFields) -> Result<(Tag, AuthRecordFields), Error> {
    (x, acc) => AuthRecordStep(c, x, acc)
  }

  /** The record new AggregationAuthenticationRecord(tag) builds, or the exception it throws. */
  function AuthRecordOf(c: Codec, t: Tag): Result<AggregationAuthenticationRecord, Error> {
    var cs :- ReadChildren(c, t);
    var _ :- CheckTagType(t, AggregationAuthenticationRecordTagType);
    var done :- FoldUpTo(cs, |cs|, NoAuthRecordFields, AuthRecordSteps(c));
    AuthRecordChecked(t, done.0, done.1)
  }

  /** The checks after Validate's loop, on the typed children and the fields and counters the loop left. */
  function AuthRecordChecked(t: Tag, typed: seq<Tag>, fields: AuthRecordFields): Result<AggregationAuthenticationRecord, Error> {
    if fields.aggregationTimeCount != 1 then
      Err(Tlv(AggregationTimeMessage))
    else if |fields.chainIndex| == 0 then
      Err(Tlv(ChainIndexMessage))
    else if fields.inputHashCount != 1 then
      Err(Tlv(InputHashMessage))
    else if fields.signatureDataCount != 1 then
      Err(Tlv(SignatureDataMessage))
    else
      Ok(AggregationAuthenticationRecord(Rebuilt(t, "AggregationAuthenticationRecord", typed), fields.aggregationTime,
                                         fields.chainIndex, fields.inputHash, fields.signatureData))
  }

  /** The body of Validate's loop: the switch on the type of one child. */
  method ParseAuthRecordChild(c: Codec, x: Tag, fields: AuthRecordFields) returns (r: Result<(Tag, AuthRecordFields), Error>)
    ensures r == AuthRecordStep(c, x, fields)
  {
    var next := fields;
    var typedChild: Tag;
    if x.tagType == AuthRecordAggregationTimeTagType {
      var n := IntegerTagOf(c, x);
      if n.Err? {
        return Err(n.error);
      }
      typedChild := n.value;
      next := next.(aggregationTime := Some(typedChild), aggregationTimeCount := next.aggregationTimeCount + 1);
    } else if x.tagType == AuthRecordChainIndexTagType {
      var n := IntegerTagOf(c, x);
      if n.Err? {
        return Err(n.error);
      }
      typedChild := n.value;
      next := next.(chainIndex := next.chainIndex + [typedChild]);
    } else if x.tagType == AuthRecordInputHashTagType {
      var h := ImprintTagOf(c, x);
      if h.Err? {
        return Err(h.error);
      }
      typedChild := h.value;
      next := next.(inputHash := Some(typedChild), inputHashCount := next.inputHashCount + 1);
    } else if x.tagType == SignatureDataTagType {
      var s := OpaqueCompositeOf(c, x, "SignatureData");
      if s.Err? {
        return Err(s.error);
      }
      typedChild := s.value;
      next := next.(signatureData := Some(typedChild), signatureDataCount := next.signatureDataCount + 1);
    } else {
      var u := VerifyUnknownTag(c, x);
      if u.Err? {
        return Err(u.error);
      }
      typedChild := x;
    }
    r := Ok((typedChild, next));
  }

  /** AggregationAuthenticationRecord(TlvTag) and Validate: the loop over the children, then the count checks. */
  method NewAggregationAuthenticationRecord(c: Codec, t: Tag) returns (r: Result<AggregationAuthenticationRecord, Error>)
    ensures r == AuthRecordOf(c, t)
  {
    var read := ReadChildren(c, t);
    if read.Err? {
      return Err(read.error);
    }
    if t.tagType != AggregationAuthenticationRecordTagType {
      return Err(Tlv("Invalid tag type"));
    }
    ghost var original := read.value;
    var children := read.value;
    var fields := NoAuthRecordFields;
    var i := 0;
    while i < |children|
      invariant 0 <= i <= |children| == |original|
      invariant FoldUpTo(original, i, NoAuthRecordFields, AuthRecordSteps(c)) == Ok((children[..i], fields))
      invariant children[i..] == original[i..]
    {
      assert children[i] == original[i] by { assert children[i..][0] == original[i..][0]; }
      var step := ParseAuthRecordChild(c, children[i], fields);
      assert AuthRecordSteps(c)(children[i], fields) == step;
      if step.Err? {
        FoldStopsAt(original, |original|, i, NoAuthRecordFields, AuthRecordSteps(c));
        return Err(step.error);
      }
      ghost var before := children;
      children := children[i := step.value.0];
      fields := step.value.1;
      assert children[..i + 1] == before[..i] + [step.value.0];
      assert children[i + 1..] == before[i + 1..];
      i := i + 1;
    }
    assert children[..i] == children;
    assert AuthRecordOf(c, t) == AuthRecordChecked(t, children, fields);
    if fields.aggregationTimeCount != 1 {
      return Err(Tlv(AggregationTimeMessage));
    }
    if |fields.chainIndex| == 0 {
      return Err(Tlv(ChainIndexMessage));
    }
    if fields.inputHashCount != 1 {
      return Err(Tlv(InputHashMessage));
    }
    if fields.signatureDataCount != 1 {
      return Err(Tlv(SignatureDataMessage));
    }
    r := Ok(AggregationAuthenticationRecord(Rebuilt(t, "AggregationAuthenticationRecord", children), fields.aggregationTime,
                                            fields.chainIndex, fields.inputHash, fields.signatureData));
  }

  // ----------------------------------------------------------------- getters

  /** AggregationTime: the value of the aggregation time child. */
  function AggregationTime(r: AggregationAuthenticationRecord): (time: nat)
    requires r.aggregationTime.Some? && r.aggregationTime.value.value.Integer?
    ensures Integer(time) == r.aggregationTime.value.value
  {
    r.aggregationTime.value.value.n
  }

  /** InputHash: the hash of the input hash child. */
  function InputHash(r: AggregationAuthenticationRecord): (h: DataHash)
    requires r.inputHash.Some? && r.inputHash.value.value.Imprint?
    ensures Imprint(h) == r.inputHash.value.value
  {
    r.inputHash.value.value.hash
  }

  /** SignatureData: the signature data child. */
  function SignatureData(r: AggregationAuthenticationRecord): (s: Tag)
    requires r.signatureData.Some?
    ensures r.signatureData == Some(s)
  {
    r.signatureData.value
  }

  // -------------------------------------------------------------- properties

  lemma AuthRecordConversionIsChild(c: Codec, x: Tag)
    ensures AuthRecordConversion(c)(x) == AuthRecordChild(c, x)
  {
  }

  /** One pass of the switch converts the child exactly as AuthRecordChild does, whatever the fields. */
  lemma AuthRecordStepConverts(c: Codec)
    ensures StepConverts(AuthRecordSteps(c), AuthRecordConversion(c))
    ensures KeepsTypes(AuthRecordConversion(c))
  {
    forall x: Tag, a: AuthRecordFields
      ensures AuthRecordSteps(c)(x, a) == AuthRecordStep(c, x, a) && AuthRecordConversion(c)(x) == AuthRecordChild(c, x)
    {
    }
  }

  /** After n children each single field holds the typed form of the last child of its type, and each counter counts its type. */
  lemma {:induction false} AuthRecordUpToFields(c: Codec, cs: seq<Tag>, n: nat)
    requires n <= |cs| && FoldUpTo(cs, n, NoAuthRecordFields, AuthRecordSteps(c)).Ok?
    ensures var fields := FoldUpTo(cs, n, NoAuthRecordFields, AuthRecordSteps(c)).value.1;
            var f := AuthRecordConversion(c);
            && fields.aggregationTime == Converted(f, LastUpTo(cs, n, AuthRecordAggregationTimeTagType))
            && fields.inputHash == Converted(f, LastUpTo(cs, n, AuthRecordInputHashTagType))
            && fields.signatureData == Converted(f, LastUpTo(cs, n, SignatureDataTagType))
            && fields.aggregationTimeCount == CountUpTo(cs, n, AuthRecordAggregationTimeTagType)
            && fields.inputHashCount == CountUpTo(cs, n, AuthRecordInputHashTagType)
            && fields.signatureDataCount == CountUpTo(cs, n, SignatureDataTagType)
  {
    if n > 0 {
      AuthRecordUpToFields(c, cs, n - 1);
      var acc := FoldUpTo(cs, n - 1, NoAuthRecordFields, AuthRecordSteps(c)).value.1;
      assert AuthRecordSteps(c)(cs[n - 1], acc) == AuthRecordStep(c, cs[n - 1], acc);
      AuthRecordConversionIsChild(c, cs[n - 1]);
    }
  }

  /** After n children the chain index list holds the typed chain index children, in order. */
  lemma {:induction false} AuthRecordUpToIndexes(c: Codec, cs: seq<Tag>, n: nat)
    requires n <= |cs| && FoldUpTo(cs, n, NoAuthRecordFields, AuthRecordSteps(c)).Ok?
    ensures |FoldUpTo(cs, n, NoAuthRecordFields, AuthRecordSteps(c)).value.0| == n
    ensures var done := FoldUpTo(cs, n, NoAuthRecordFields, AuthRecordSteps(c)).value;
            done.1.chainIndex == AllUpTo(done.0, n, AuthRecordChainIndexTagType)
  {
    if n > 0 {
      AuthRecordUpToIndexes(c, cs, n - 1);
      var x := cs[n - 1];
      var before := FoldUpTo(cs, n - 1, NoAuthRecordFields, AuthRecordSteps(c)).value;
      assert AuthRecordSteps(c)(x, before.1) == AuthRecordStep(c, x, before.1);
      var y := AuthRecordStep(c, x, before.1).value.0;
      assert y.tagType == x.tagType;
      var typed := before.0 + [y];
      assert FoldUpTo(cs, n, NoAuthRecordFields, AuthRecordSteps(c)).value.0 == typed;
      AllFrame(typed, before.0, n - 1, AuthRecordChainIndexTagType);
      if x.tagType == AuthRecordChainIndexTagType {
        assert AllUpTo(typed, n, AuthRecordChainIndexTagType) == AllUpTo(before.0, n - 1, AuthRecordChainIndexTagType) + [y];
      } else {
        assert AllUpTo(typed, n, AuthRecordChainIndexTagType) == AllUpTo(before.0, n - 1, AuthRecordChainIndexTagType);
      }
    }
  }

  /** The fields and counters the loop leaves when every child converts, in terms of the children. */
  ghost function AuthRecordFieldsOf(c: Codec, cs: seq<Tag>): AuthRecordFields
    requires ConvertAll(cs, AuthRecordConversion(c)).Ok?
  {
    var f := AuthRecordConversion(c);
    AuthRecordFields(
      Converted(f, LastOfType(cs, AuthRecordAggregationTimeTagType)),
      AllOfType(ConvertAll(cs, f).value, AuthRecordChainIndexTagType),
      Converted(f, LastOfType(cs, AuthRecordInputHashTagType)),
      Converted(f, LastOfType(cs, SignatureDataTagType)),
      CountType(cs, AuthRecordAggregationTimeTagType),
      CountType(cs, AuthRecordInputHashTagType),
      CountType(cs, SignatureDataTagType))
  }

  /** The whole loop throws exactly when converting the children throws; otherwise it leaves AuthRecordFieldsOf. */
  lemma AuthRecordLoop(c: Codec, cs: seq<Tag>)
    ensures FoldUpTo(cs, |cs|, NoAuthRecordFields, AuthRecordSteps(c)).Ok? <==> ConvertAll(cs, AuthRecordConversion(c)).Ok?
    ensures FoldUpTo(cs, |cs|, NoAuthRecordFields, AuthRecordSteps(c)).Err? ==>
              ConvertAll(cs, AuthRecordConversion(c)) == Err(FoldUpTo(cs, |cs|, NoAuthRecordFields, AuthRecordSteps(c)).error)
    ensures ConvertAll(cs, AuthRecordConversion(c)).Ok? ==>
              FoldUpTo(cs, |cs|, NoAuthRecordFields, AuthRecordSteps(c))
              == Ok((ConvertAll(cs, AuthRecordConversion(c)).value, AuthRecordFieldsOf(c, cs)))
  {
    var f := AuthRecordConversion(c);
    AuthRecordStepConverts(c);
    FoldConverts(cs, |cs|, NoAuthRecordFields, AuthRecordSteps(c), f);
    if ConvertAll(cs, f).Ok? {
      AuthRecordUpToFields(c, cs, |cs|);
      AuthRecordUpToIndexes(c, cs, |cs|);
    }
  }

  /** The constructor after the tag type check: the conversion of the children, then the checks on what the loop left. */
  lemma AuthRecordOfIsChecked(c: Codec, t: Tag)
    requires ReadChildren(c, t).Ok? && t.tagType == AggregationAuthenticationRecordTagType
    ensures var cs := ReadChildren(c, t).value;
            var f := AuthRecordConversion(c);
            AuthRecordOf(c, t) == if ConvertAll(cs, f).Err? then Err(ConvertAll(cs, f).error)
                                  else AuthRecordChecked(t, ConvertAll(cs, f).value, AuthRecordFieldsOf(c, cs))
  {
    AuthRecordLoop(c, ReadChildren(c, t).value);
  }

  /**
   * new AggregationAuthenticationRecord(tag): it throws when the children
   * cannot be read, when the tag type is wrong, when a child cannot be
   * converted, and then, in this order, unless there is exactly one
   * aggregation time, at least one chain index, exactly one input hash and
   * exactly one signature data; and it throws for no other reason.
   */
  lemma AuthRecordOfErrors(c: Codec, t: Tag)
    ensures ReadChildren(c, t).Err? ==> AuthRecordOf(c, t) == Err(ReadChildren(c, t).error)
    ensures ReadChildren(c, t).Ok? && t.tagType != AggregationAuthenticationRecordTagType ==>
              AuthRecordOf(c, t) == Err(Tlv("Invalid tag type"))
    ensures ReadChildren(c, t).Ok? && t.tagType == AggregationAuthenticationRecordTagType ==>
              var cs := ReadChildren(c, t).value;
              var f := AuthRecordConversion(c);
              && (ConvertAll(cs, f).Err? ==> AuthRecordOf(c, t) == Err(ConvertAll(cs, f).error))
              && (ConvertAll(cs, f).Ok? && CountType(cs, AuthRecordAggregationTimeTagType) != 1 ==>
                    AuthRecordOf(c, t) == Err(Tlv(AggregationTimeMessage)))
              && (ConvertAll(cs, f).Ok? && CountType(cs, AuthRecordAggregationTimeTagType) == 1
                  && CountType(cs, AuthRecordChainIndexTagType) == 0 ==>
                    AuthRecordOf(c, t) == Err(Tlv(ChainIndexMessage)))
              && (ConvertAll(cs, f).Ok? && CountType(cs, AuthRecordAggregationTimeTagType) == 1
                  && CountType(cs, AuthRecordChainIndexTagType) > 0 && CountType(cs, AuthRecordInputHashTagType) != 1 ==>
                    AuthRecordOf(c, t) == Err(Tlv(InputHashMessage)))
              && (ConvertAll(cs, f).Ok? && CountType(cs, AuthRecordAggregationTimeTagType) == 1
                  && CountType(cs, AuthRecordChainIndexTagType) > 0 && CountType(cs, AuthRecordInputHashTagType) == 1
                  && CountType(cs, SignatureDataTagType) != 1 ==>
                    AuthRecordOf(c, t) == Err(Tlv(SignatureDataMessage)))
              && (AuthRecordOf(c, t).Ok? <==>
                    ConvertAll(cs, f).Ok? && CountType(cs, AuthRecordAggregationTimeTagType) == 1
                    && CountType(cs, AuthRecordChainIndexTagType) > 0 && CountType(cs, AuthRecordInputHashTagType) == 1
                    && CountType(cs, SignatureDataTagType) == 1)
  {
    if ReadChildren(c, t).Ok? && t.tagType == AggregationAuthenticationRecordTagType {
      var cs := ReadChildren(c, t).value;
      var f := AuthRecordConversion(c);
      AuthRecordOfIsChecked(c, t);
      if ConvertAll(cs, f).Ok? {
        AuthRecordChainIndexCount(c, cs);
      }
    }
  }

  /** The loop's chain index list has one element per chain index child. */
  lemma AuthRecordChainIndexCount(c: Codec, cs: seq<Tag>)
    requires ConvertAll(cs, AuthRecordConversion(c)).Ok?
    ensures |AuthRecordFieldsOf(c, cs).chainIndex| == CountType(cs, AuthRecordChainIndexTagType)
  {
    AuthRecordStepConverts(c);
    ConvertAllInPlace(cs, AuthRecordConversion(c), AuthRecordChainIndexTagType);
    AllUpToSpec(cs, |cs|, AuthRecordChainIndexTagType);
  }

  /**
   * A record that is built keeps the tag's header and every child's position
   * and header, and leaves the children of other types untouched.
   */
  lemma AuthRecordOfShape(c: Codec, t: Tag)
    requires AuthRecordOf(c, t).Ok?
    ensures var cs := ReadChildren(c, t).value;
            var r := AuthRecordOf(c, t).value;
            && SameHeader(r.tag, t) && r.tag.value.Composite?
            && var typed := r.tag.value.children;
            && |typed| == |cs|
            && (forall k :: 0 <= k < |cs| ==> SameHeader(typed[k], cs[k]))
            && (forall k :: 0 <= k < |cs| && !IsAuthRecordField(cs[k].tagType) ==> typed[k] == cs[k])
  {
    var cs := ReadChildren(c, t).value;
    var f := AuthRecordConversion(c);
    AuthRecordOfIsChecked(c, t);
    ConvertUpToSpec(cs, |cs|, f);
    assert forall k :: 0 <= k < |cs| ==> f(cs[k]) == AuthRecordChild(c, cs[k]);
  }

  /**
   * The aggregation time, input hash and signature data of a built record are
   * the typed forms of the one child of each type; its chain indexes are the
   * typed chain index children, in order, and there is at least one.
   */
  lemma AuthRecordOfFields(c: Codec, t: Tag)
    requires AuthRecordOf(c, t).Ok?
    ensures var cs := ReadChildren(c, t).value;
            var r := AuthRecordOf(c, t).value;
            && r.tag.value.Composite?
            && var typed := r.tag.value.children;
            && r.aggregationTime == LastOfType(typed, AuthRecordAggregationTimeTagType) && r.aggregationTime.Some?
            && r.inputHash == LastOfType(typed, AuthRecordInputHashTagType) && r.inputHash.Some?
            && r.signatureData == LastOfType(typed, SignatureDataTagType) && r.signatureData.Some?
            && r.chainIndex == AllOfType(typed, AuthRecordChainIndexTagType)
            && |r.chainIndex| == CountType(cs, AuthRecordChainIndexTagType) > 0
  {
    var cs := ReadChildren(c, t).value;
    var f := AuthRecordConversion(c);
    AuthRecordOfIsChecked(c, t);
    AuthRecordOfErrors(c, t);
    AuthRecordStepConverts(c);
    ConvertAllInPlace(cs, f, AuthRecordAggregationTimeTagType);
    ConvertAllInPlace(cs, f, AuthRecordChainIndexTagType);
    ConvertAllInPlace(cs, f, AuthRecordInputHashTagType);
    ConvertAllInPlace(cs, f, SignatureDataTagType);
    AllUpToSpec(cs, |cs|, AuthRecordChainIndexTagType);
    LastUpToSpec(cs, |cs|, AuthRecordAggregationTimeTagType);
    LastUpToSpec(cs, |cs|, AuthRecordInputHashTagType);
    LastUpToSpec(cs, |cs|, SignatureDataTagType);
  }

  /**
   * The getters of a built record are defined: the aggregation time is the
   * integer read from the one aggregation time child, the input hash is the
   * hash read from the one input hash child, and every chain index is an
   * integer.
   */
  lemma AuthRecordGetters(c: Codec, t: Tag)
    requires AuthRecordOf(c, t).Ok?
    ensures var cs := ReadChildren(c, t).value;
            var r := AuthRecordOf(c, t).value;
            && r.aggregationTime.Some? && r.aggregationTime.value.value.Integer?
            && r.inputHash.Some? && r.inputHash.value.value.Imprint?
            && r.signatureData.Some?
            && LastOfType(cs, AuthRecordAggregationTimeTagType).Some?
            && LastOfType(cs, AuthRecordInputHashTagType).Some?
            && Some(AggregationTime(r))
               == c.decodeInteger(EncodeValue(c, LastOfType(cs, AuthRecordAggregationTimeTagType).value))
            && Ok(InputHash(r))
               == FromImprint(c.algorithms, Some(EncodeValue(c, LastOfType(cs, AuthRecordInputHashTagType).value)))
            && (forall k :: 0 <= k < |r.chainIndex| ==> r.chainIndex[k].value.Integer?)
  {
    var cs := ReadChildren(c, t).value;
    var f := AuthRecordConversion(c);
    AuthRecordOfIsChecked(c, t);
    AuthRecordOfFields(c, t);
    AuthRecordStepConverts(c);
    ConvertAllInPlace(cs, f, AuthRecordAggregationTimeTagType);
    ConvertAllInPlace(cs, f, AuthRecordInputHashTagType);
    AuthRecordConversionIsChild(c, LastOfType(cs, AuthRecordAggregationTimeTagType).value);
    AuthRecordConversionIsChild(c, LastOfType(cs, AuthRecordInputHashTagType).value);
    LastUpToSpec(cs, |cs|, AuthRecordAggregationTimeTagType);
    LastUpToSpec(cs, |cs|, AuthRecordInputHashTagType);
    AuthRecordChainIndexesAreIntegers(c, cs);
  }

  /** Every typed chain index child is an integer. */
  lemma AuthRecordChainIndexesAreIntegers(c: Codec, cs: seq<Tag>)
    requires ConvertAll(cs, AuthRecordConversion(c)).Ok?
    ensures var typed := ConvertAll(cs, AuthRecordConversion(c)).value;
            forall k :: 0 <= k < |AllOfType(typed, AuthRecordChainIndexTagType)| ==>
              AllOfType(typed, AuthRecordChainIndexTagType)[k].value.Integer?
  {
    var f := AuthRecordConversion(c);
    AuthRecordStepConverts(c);
    ConvertAllInPlace(cs, f, AuthRecordChainIndexTagType);
    AllUpToSpec(cs, |cs|, AuthRecordChainIndexTagType);
    forall k | 0 <= k < |AllOfType(cs, AuthRecordChainIndexTagType)|
      ensures f(AllOfType(cs, AuthRecordChainIndexTagType)[k]) == AuthRecordChild(c, AllOfType(cs, AuthRecordChainIndexTagType)[k])
    {
    }
  }
}
