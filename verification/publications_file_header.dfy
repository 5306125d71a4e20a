/**
 * PublicationsFileHeader (ksi-net-api/Publication/PublicationsFileHeader.cs):
 * Validate checks the tag type, converts the version, creation time and
 * repository URI children in place, keeps them in fields and checks that
 * there is exactly one version, exactly one creation time and at most one
 * repository URI.
 */
module PublicationsFileHeaders {
  import opened Wrappers
  import opened Exceptions
  import opened Parser
  import opened Children
  import opened Constants

  datatype PublicationsFileHeader = PublicationsFileHeader(
    tag: Tag,
    version: Option<Tag>,
    creationTime: Option<Tag>,
    repositoryUri: Option<Tag>)   // None when the header has no repository URI

  const VersionMessage := "Exactly one version must exist in publications file header."
  const CreationTimeMessage := "Exactly one creation time must exist in publications file header."
  const RepositoryUriMessage := "Only one repository uri is allowed in publications file header."

  predicate IsHeaderField(tagType: nat) {
    tagType == PublicationsFileHeaderVersionTagType || tagType == PublicationsFileHeaderCreationTimeTagType
    || tagType == PublicationsFileHeaderRepositoryUriTagType
  }

  /**
   * The typed form Validate gives one child. The creation time is read as an
   * unsigned long from the child's value bytes, whatever their form, so it
   * never fails.
   */
  function HeaderChild(c: Codec, x: Tag): (r: Result<Tag, Error>)
    ensures r.Ok? ==> SameHeader(r.value, x)
    ensures !IsHeaderField(x.tagType) ==> r == VerifyUnknownTag(c, x)
    ensures x.tagType == PublicationsFileHeaderCreationTimeTagType ==>
              r == Ok(Tag(x.tagType, x.nonCritical, x.forward, Integer(c.decodeUnsignedLong(EncodeValue(c, x)))))
  {
    if x.tagType == PublicationsFileHeaderVersionTagType then IntegerTagOf(c, x)
    else if x.tagType == PublicationsFileHeaderCreationTimeTagType then
      Ok(Tag(x.tagType, x.nonCritical, x.forward, Integer(c.decodeUnsignedLong(EncodeValue(c, x)))))
    else if x.tagType == PublicationsFileHeaderRepositoryUriTagType then StringTagOf(c, x)
    else VerifyUnknownTag(c, x)
  }

  function HeaderConversion(c: Codec): Tag -> Result<Tag, Error> {
    x => HeaderChild(c, x)
  }

  /** The object's fields and Validate's counters while the loop runs. */
  datatype HeaderFields = HeaderFields(
    version: Option<Tag>,
    creationTime: Option<Tag>,
    repositoryUri: Option<Tag>,
    versionCount: nat,
    creationTimeCount: nat,
    repositoryUriCount: nat)

  const NoHeaderFields := HeaderFields(None, None, None, 0, 0, 0)

  /** One pass of Validate's switch: the typed child and the fields and counters after it. */
  function HeaderStep(c: Codec, x: Tag, acc: HeaderFields): Result<(Tag, HeaderFields), Error> {
    var y :- HeaderChild(c, x);
    if x.tagType == PublicationsFileHeaderVersionTagType then
      Ok((y, acc.(version := Some(y), versionCount := acc.versionCount + 1)))
    else if x.tagType == PublicationsFileHeaderCreationTimeTagType then
      Ok((y, acc.(creationTime := Some(y), creationTimeCount := acc.creationTimeCount + 1)))
    else if x.tagType == PublicationsFileHeaderRepositoryUriTagType then
      Ok((y, acc.(repositoryUri := Some(y), repositoryUriCount := acc.repositoryUriCount + 1)))
    else Ok((y, acc))
  }

  function HeaderSteps(c: Codec): (Tag, HeaderFields) -> Result<(Tag, HeaderFields), Error> {
    (x, acc) => HeaderStep(c, x, acc)
  }

  /** The header new PublicationsFileHeader(tag) builds, or the exception it throws. */
  function HeaderOf(c: Codec, t: Tag): Result<PublicationsFileHeader, Error> {
    var cs :- ReadChildren(c, t);
    var _ :- CheckTagType(t, PublicationsFileHeaderTagType);
    var done :- FoldUpTo(cs, |cs|, NoHeaderFields, HeaderSteps(c));
    HeaderChecked(t, done.0, done.1)
  }

  /** The checks after Validate's loop. */
  function HeaderChecked(t: Tag, typed: seq<Tag>, fields: HeaderFields): Result<PublicationsFileHeader, Error> {
    if fields.versionCount != 1 then Err(Tlv(VersionMessage))
    else if fields.creationTimeCount != 1 then Err(Tlv(CreationTimeMessage))
    else if fields.repositoryUriCount > 1 then Err(Tlv(RepositoryUriMessage))
    else Ok(PublicationsFileHeader(Rebuilt(t, "PublicationsFileHeader", typed), fields.version, fields.creationTime,
                                   fields.repositoryUri))
  }

  /** The body of Validate's loop: the switch on the type of one child. */
  method ParseHeaderChild(c: Codec, x: Tag, fields: HeaderFields) returns (r: Result<(Tag, HeaderFields), Error>)
    ensures r == HeaderStep(c, x, fields)
  {
    var next := fields;
    var typedChild: Tag;
    if x.tagType == PublicationsFileHeaderVersionTagType {
      var n := IntegerTagOf(c, x);
      if n.Err? {
        return Err(n.error);
      }
      typedChild := n.value;
      next := next.(version := Some(typedChild), versionCount := next.versionCount + 1);
    } else if x.tagType == PublicationsFileHeaderCreationTimeTagType {
      var valueBytes := EncodeValue(c, x);
      typedChild := Tag(x.tagType, x.nonCritical, x.forward, Integer(c.decodeUnsignedLong(valueBytes)));
      next := next.(creationTime := Some(typedChild), creationTimeCount := next.creationTimeCount + 1);
    } else if x.tagType == PublicationsFileHeaderRepositoryUriTagType {
      var s := StringTagOf(c, x);
      if s.Err? {
        return Err(s.error);
      }
      typedChild := s.value;
      next := next.(repositoryUri := Some(typedChild), repositoryUriCount := next.repositoryUriCount + 1);
    } else {
      var u := VerifyUnknownTag(c, x);
      if u.Err? {
        return Err(u.error);
      }
      typedChild := x;
    }
    r := Ok((typedChild, next));
  }

  /** PublicationsFileHeader(ITlvTag) and Validate: the loop over the children, then the count checks. */
  method NewPublicationsFileHeader(c: Codec, t: Tag) returns (r: Result<PublicationsFileHeader, Error>)
    ensures r == HeaderOf(c, t)
  {
    var read := ReadChildren(c, t);
    if read.Err? {
      return Err(read.error);
    }
    if t.tagType != PublicationsFileHeaderTagType {
      return Err(Tlv("Invalid tag type"));
    }
    ghost var original := read.value;
    var children := read.value;
    var fields := NoHeaderFields;
    var i := 0;
    while i < |children|
      invariant 0 <= i <= |children| == |original|
      invariant FoldUpTo(original, i, NoHeaderFields, HeaderSteps(c)) == Ok((children[..i], fields))
      invariant children[i..] == original[i..]
    {
      assert children[i] == original[i] by { assert children[i..][0] == original[i..][0]; }
      var step := ParseHeaderChild(c, children[i], fields);
      assert HeaderSteps(c)(children[i], fields) == step;
      if step.Err? {
        FoldStopsAt(original, |original|, i, NoHeaderFields, HeaderSteps(c));
        return Err(step.error);
      }
      ghost var before := children;
      children := children[i := step.value.0];
      fields := step.value.1;
      assert children[..i + 1] == before[..i] + [step.value.0];
      assert children[i + 1..] == before[i + 1..];
      i := i + 1;
    }
    assert children[..i] == children;
    assert HeaderOf(c, t) == HeaderChecked(t, children, fields);
    if fields.versionCount != 1 {
      return Err(Tlv(VersionMessage));
    }
    if fields.creationTimeCount != 1 {
      return Err(Tlv(CreationTimeMessage));
    }
    if fields.repositoryUriCount > 1 {
      return Err(Tlv(RepositoryUriMessage));
    }
    r := Ok(PublicationsFileHeader(Rebuilt(t, "PublicationsFileHeader", children), fields.version, fields.creationTime,
                                   fields.repositoryUri));
  }

  // ----------------------------------------------------------------- getters

  /** CreationTime: the value of the creation time child. */
  function CreationTime(h: PublicationsFileHeader): (time: nat)
    requires h.creationTime.Some? && h.creationTime.value.value.Integer?
    ensures Integer(time) == h.creationTime.value.value
  {
    h.creationTime.value.value.n
  }

  /** RepositoryUri: the text of the repository URI child, or null when there is none. */
  function RepositoryUri(h: PublicationsFileHeader): (uri: Option<string>)
    requires h.repositoryUri.Some? ==> h.repositoryUri.value.value.Text?
    ensures uri.Some? <==> h.repositoryUri.Some?
    ensures uri.Some? ==> Text(uri.value) == h.repositoryUri.value.value
  {
    if h.repositoryUri.Some? then Some(h.repositoryUri.value.value.s) else None
  }

  /** Version: the value of the version child. */
  function Version(h: PublicationsFileHeader): (version: nat)
    requires h.version.Some? && h.version.value.value.Integer?
    ensures Integer(version) == h.version.value.value
  {
    h.version.value.value.n
  }

  // -------------------------------------------------------------- properties

  /** One pass of the switch converts the child exactly as HeaderChild does, whatever the fields. */
  lemma HeaderStepConverts(c: Codec)
    ensures StepConverts(HeaderSteps(c), HeaderConversion(c))
    ensures KeepsTypes(HeaderConversion(c))
  {
    forall x: Tag, a: HeaderFields
      ensures HeaderSteps(c)(x, a) == HeaderStep(c, x, a) && HeaderConversion(c)(x) == HeaderChild(c, x)
    {
    }
  }

  /** After n children each field holds the typed form of the last child of its type, and each counter counts its type. */
  lemma {:induction false} HeaderUpToFields(c: Codec, cs: seq<Tag>, n: nat)
    requires n <= |cs| && FoldUpTo(cs, n, NoHeaderFields, HeaderSteps(c)).Ok?
    ensures var fields := FoldUpTo(cs, n, NoHeaderFields, HeaderSteps(c)).value.1;
            var f := HeaderConversion(c);
            && fields.version == Converted(f, LastUpTo(cs, n, PublicationsFileHeaderVersionTagType))
            && fields.creationTime == Converted(f, LastUpTo(cs, n, PublicationsFileHeaderCreationTimeTagType))
            && fields.repositoryUri == Converted(f, LastUpTo(cs, n, PublicationsFileHeaderRepositoryUriTagType))
            && fields.versionCount == CountUpTo(cs, n, PublicationsFileHeaderVersionTagType)
            && fields.creationTimeCount == CountUpTo(cs, n, PublicationsFileHeaderCreationTimeTagType)
            && fields.repositoryUriCount == CountUpTo(cs, n, PublicationsFileHeaderRepositoryUriTagType)
  {
    if n > 0 {
      HeaderUpToFields(c, cs, n - 1);
      var acc := FoldUpTo(cs, n - 1, NoHeaderFields, HeaderSteps(c)).value.1;
      assert HeaderSteps(c)(cs[n - 1], acc) == HeaderStep(c, cs[n - 1], acc);
      assert HeaderConversion(c)(cs[n - 1]) == HeaderChild(c, cs[n - 1]);
    }
  }

  /** The fields and counters the loop leaves when every child converts, in terms of the children. */
  ghost function HeaderFieldsOf(c: Codec, cs: seq<Tag>): HeaderFields {
    var f := HeaderConversion(c);
    HeaderFields(
      Converted(f, LastOfType(cs, PublicationsFileHeaderVersionTagType)),
      Converted(f, LastOfType(cs, PublicationsFileHeaderCreationTimeTagType)),
      Converted(f, LastOfType(cs, PublicationsFileHeaderRepositoryUriTagType)),
      CountType(cs, PublicationsFileHeaderVersionTagType),
      CountType(cs, PublicationsFileHeaderCreationTimeTagType),
      CountType(cs, PublicationsFileHeaderRepositoryUriTagType))
  }

  /** The whole loop throws exactly when converting the children throws; otherwise it leaves HeaderFieldsOf. */
  lemma HeaderLoop(c: Codec, cs: seq<Tag>)
    ensures FoldUpTo(cs, |cs|, NoHeaderFields, HeaderSteps(c)).Ok? <==> ConvertAll(cs, HeaderConversion(c)).Ok?
    ensures FoldUpTo(cs, |cs|, NoHeaderFields, HeaderSteps(c)).Err? ==>
              ConvertAll(cs, HeaderConversion(c)) == Err(FoldUpTo(cs, |cs|, NoHeaderFields, HeaderSteps(c)).error)
    ensures ConvertAll(cs, HeaderConversion(c)).Ok? ==>
              FoldUpTo(cs, |cs|, NoHeaderFields, HeaderSteps(c))
              == Ok((ConvertAll(cs, HeaderConversion(c)).value, HeaderFieldsOf(c, cs)))
  {
    HeaderStepConverts(c);
    FoldConverts(cs, |cs|, NoHeaderFields, HeaderSteps(c), HeaderConversion(c));
    if ConvertAll(cs, HeaderConversion(c)).Ok? {
      HeaderUpToFields(c, cs, |cs|);
    }
  }

  /**
   * new PublicationsFileHeader(tag): it throws when the children cannot be
   * read, when the tag type is wrong, when a child cannot be converted, and
   * then, in this order, unless there is exactly one version, exactly one
   * creation time and at most one repository URI; and for no other reason.
   */
  lemma HeaderOfErrors(c: Codec, t: Tag)
    ensures ReadChildren(c, t).Err? ==> HeaderOf(c, t) == Err(ReadChildren(c, t).error)
    ensures ReadChildren(c, t).Ok? && t.tagType != PublicationsFileHeaderTagType ==>
              HeaderOf(c, t) == Err(Tlv("Invalid tag type"))
    ensures ReadChildren(c, t).Ok? && t.tagType == PublicationsFileHeaderTagType ==>
              var cs := ReadChildren(c, t).value;
              var f := HeaderConversion(c);
              && (ConvertAll(cs, f).Err? ==> HeaderOf(c, t) == Err(ConvertAll(cs, f).error))
              && (ConvertAll(cs, f).Ok? && CountType(cs, PublicationsFileHeaderVersionTagType) != 1 ==>
                    HeaderOf(c, t) == Err(Tlv(VersionMessage)))
              && (ConvertAll(cs, f).Ok? && CountType(cs, PublicationsFileHeaderVersionTagType) == 1
                  && CountType(cs, PublicationsFileHeaderCreationTimeTagType) != 1 ==>
                    HeaderOf(c, t) == Err(Tlv(CreationTimeMessage)))
              && (ConvertAll(cs, f).Ok? && CountType(cs, PublicationsFileHeaderVersionTagType) == 1
                  && CountType(cs, PublicationsFileHeaderCreationTimeTagType) == 1
                  && CountType(cs, PublicationsFileHeaderRepositoryUriTagType) > 1 ==>
                    HeaderOf(c, t) == Err(Tlv(RepositoryUriMessage)))
              && (HeaderOf(c, t).Ok? <==>
                    ConvertAll(cs, f).Ok? && CountType(cs, PublicationsFileHeaderVersionTagType) == 1
                    && CountType(cs, PublicationsFileHeaderCreationTimeTagType) == 1
                    && CountType(cs, PublicationsFileHeaderRepositoryUriTagType) <= 1)
  {
    if ReadChildren(c, t).Ok? && t.tagType == PublicationsFileHeaderTagType {
      HeaderLoop(c, ReadChildren(c, t).value);
    }
  }

  /**
   * The getters of a built header: the version is the integer read from the
   * one version child, the creation time the unsigned long read from the
   * value bytes of the one creation time child, and the repository URI is
   * null exactly when there is no repository URI child, and otherwise the
   * text read from it.
   */
  lemma HeaderGetters(c: Codec, t: Tag)
    requires HeaderOf(c, t).Ok?
    ensures var h := HeaderOf(c, t).value;
            && h.version.Some? && h.version.value.value.Integer?
            && h.creationTime.Some? && h.creationTime.value.value.Integer?
            && (h.repositoryUri.Some? ==> h.repositoryUri.value.value.Text?)
    ensures var cs := ReadChildren(c, t).value;
            var h := HeaderOf(c, t).value;
            && LastOfType(cs, PublicationsFileHeaderVersionTagType).Some?
            && LastOfType(cs, PublicationsFileHeaderCreationTimeTagType).Some?
            && Some(Version(h)) == c.decodeInteger(EncodeValue(c, LastOfType(cs, PublicationsFileHeaderVersionTagType).value))
            && CreationTime(h)
               == c.decodeUnsignedLong(EncodeValue(c, LastOfType(cs, PublicationsFileHeaderCreationTimeTagType).value))
            && (RepositoryUri(h).None? <==> CountType(cs, PublicationsFileHeaderRepositoryUriTagType) == 0)
            && (RepositoryUri(h).Some? <==> LastOfType(cs, PublicationsFileHeaderRepositoryUriTagType).Some?)
            && (RepositoryUri(h).Some? ==>
                  Ok(RepositoryUri(h).value)
                  == StringDecodeValue(c, EncodeValue(c, LastOfType(cs, PublicationsFileHeaderRepositoryUriTagType).value)))
  {
    var cs := ReadChildren(c, t).value;
    var f := HeaderConversion(c);
    HeaderOfErrors(c, t);
    HeaderLoop(c, cs);
    ConvertUpToSpec(cs, |cs|, f);
    LastUpToSpec(cs, |cs|, PublicationsFileHeaderVersionTagType);
    LastUpToSpec(cs, |cs|, PublicationsFileHeaderCreationTimeTagType);
    LastUpToSpec(cs, |cs|, PublicationsFileHeaderRepositoryUriTagType);
    var version := LastOfType(cs, PublicationsFileHeaderVersionTagType).value;
    var creation := LastOfType(cs, PublicationsFileHeaderCreationTimeTagType).value;
    assert f(version) == HeaderChild(c, version);
    assert f(creation) == HeaderChild(c, creation);
    var uri := LastOfType(cs, PublicationsFileHeaderRepositoryUriTagType);
    if uri.Some? {
      assert f(uri.value) == HeaderChild(c, uri.value);
    }
  }

  /**
   * A header that is built keeps the tag's header and every child's position
   * and header, and leaves the children of other types untouched.
   */
  lemma HeaderOfShape(c: Codec, t: Tag)
    requires HeaderOf(c, t).Ok?
    ensures var cs := ReadChildren(c, t).value;
            var h := HeaderOf(c, t).value;
            && SameHeader(h.tag, t) && h.tag.value.Composite?
            && var typed := h.tag.value.children;
            && |typed| == |cs|
            && (forall k :: 0 <= k < |cs| ==> SameHeader(typed[k], cs[k]))
            && (forall k :: 0 <= k < |cs| && !IsHeaderField(cs[k].tagType) ==> typed[k] == cs[k])
  {
    var cs := ReadChildren(c, t).value;
    var f := HeaderConversion(c);
    HeaderLoop(c, cs);
    ConvertUpToSpec(cs, |cs|, f);
    assert forall k :: 0 <= k < |cs| ==> f(cs[k]) == HeaderChild(c, cs[k]);
  }
}
