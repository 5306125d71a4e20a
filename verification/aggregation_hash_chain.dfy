/**
 * AggregationHashChain (ksi-net-api/Signature/AggregationHashChain.cs) and its
 * nested Link and MetaData structures. Each constructor walks the children
 * the TLV reader found, replaces every child of a recognised type by its typed
 * form at the same position, and keeps that typed child in a field; repeated
 * children overwrite the field (or are appended, for chain indexes and links).
 * Children of other types stay as they are, and this revision checks no
 * counts (CheckStructure is empty).
 */
module AggregationHashChains {
  import opened Wrappers
  import opened Exceptions
  import opened Parser
  import opened Children
  import opened Constants

  datatype MetaData = MetaData(tag: Tag, clientId: Option<Tag>, machineId: Option<Tag>,
                               sequenceNr: Option<Tag>, requestTime: Option<Tag>)

  /** A link: its typed tag, its direction (the link's tag type, 0x7 or 0x8) and its fields. */
  datatype Link = Link(tag: Tag, direction: nat, levelCorrection: Option<Tag>, siblingHash: Option<Tag>,
                       metaHash: Option<Tag>, metaData: Option<MetaData>)

  datatype AggregationHashChain = AggregationHashChain(
    tag: Tag,
    aggregationTime: Option<Tag>,
    chainIndex: Option<seq<Tag>>,   // null until the first chain index child
    inputData: Option<Tag>,
    inputHash: Option<Tag>,
    aggrAlgorithmId: Option<Tag>,
    chain: Option<seq<Link>>)       // null until the first link child

  // ---------------------------------------------------------------- MetaData

  predicate IsMetaDataField(tagType: nat) {
    tagType == MetaDataClientIdTagType || tagType == MetaDataMachineIdTagType
    || tagType == MetaDataSequenceNumberTagType || tagType == MetaDataRequestTimeTagType
  }

  /** The typed form MetaData gives one child. */
  function MetaDataChild(c: Codec, x: Tag): (r: Result<Tag, Error>)
    ensures r.Ok? ==> SameHeader(r.value, x)
    ensures !IsMetaDataField(x.tagType) ==> r == Ok(x)
  {
    if x.tagType == MetaDataClientIdTagType || x.tagType == MetaDataMachineIdTagType then StringTagOf(c, x)
    else if x.tagType == MetaDataSequenceNumberTagType || x.tagType == MetaDataRequestTimeTagType then IntegerTagOf(c, x)
    else Ok(x)
  }

  function MetaDataConversion(c: Codec): Tag -> Result<Tag, Error> {
    x => MetaDataChild(c, x)
  }

  /** The MetaData object new MetaData(tag) builds, or the exception it throws. */
  function MetaDataOf(c: Codec, t: Tag): Result<MetaData, Error> {
    var cs :- ReadChildren(c, t);
    var f := MetaDataConversion(c);
    var typed :- ConvertAll(cs, f);
    Ok(MetaData(Rebuilt(t, "MetaData", typed),
                Converted(f, LastOfType(cs, MetaDataClientIdTagType)),
                Converted(f, LastOfType(cs, MetaDataMachineIdTagType)),
                Converted(f, LastOfType(cs, MetaDataSequenceNumberTagType)),
                Converted(f, LastOfType(cs, MetaDataRequestTimeTagType))))
  }

  /** MetaData(TlvTag): the constructor's loop over the children. */
  method NewMetaData(c: Codec, t: Tag) returns (r: Result<MetaData, Error>)
    ensures r == MetaDataOf(c, t)
  {
    var read := ReadChildren(c, t);
    if read.Err? {
      return Err(read.error);
    }
    ghost var original := read.value;
    ghost var f := MetaDataConversion(c);
    var children := read.value;
    var clientId: Option<Tag> := None;
    var machineId: Option<Tag> := None;
    var sequenceNr: Option<Tag> := None;
    var requestTime: Option<Tag> := None;
    var i := 0;
    while i < |children|
      invariant 0 <= i <= |children| == |original|
      invariant ConvertUpTo(original, i, f) == Ok(children[..i])
      invariant children[i..] == original[i..]
      invariant clientId == Converted(f, LastUpTo(original, i, MetaDataClientIdTagType))
      invariant machineId == Converted(f, LastUpTo(original, i, MetaDataMachineIdTagType))
      invariant sequenceNr == Converted(f, LastUpTo(original, i, MetaDataSequenceNumberTagType))
      invariant requestTime == Converted(f, LastUpTo(original, i, MetaDataRequestTimeTagType))
    {
      var x := children[i];
      assert x == original[i] by { assert children[i..][0] == original[i..][0]; }
      assert f(x) == MetaDataChild(c, x);
      var typedChild := x;
      if x.tagType == MetaDataClientIdTagType || x.tagType == MetaDataMachineIdTagType {
        var s := StringTagOf(c, x);
        if s.Err? {
          ConvertStopsAt(original, |original|, i, f);
          return Err(s.error);
        }
        if x.tagType == MetaDataClientIdTagType { clientId := Some(s.value); } else { machineId := Some(s.value); }
        typedChild := s.value;
      } else if x.tagType == MetaDataSequenceNumberTagType || x.tagType == MetaDataRequestTimeTagType {
        var n := IntegerTagOf(c, x);
        if n.Err? {
          ConvertStopsAt(original, |original|, i, f);
          return Err(n.error);
        }
        if x.tagType == MetaDataSequenceNumberTagType { sequenceNr := Some(n.value); } else { requestTime := Some(n.value); }
        typedChild := n.value;
      }
      ghost var before := children;
      children := children[i := typedChild];
      assert children[..i + 1] == before[..i] + [typedChild];
      assert children[i + 1..] == before[i + 1..];
      i := i + 1;
    }
    assert children[..i] == children;
    r := Ok(MetaData(Rebuilt(t, "MetaData", children), clientId, machineId, sequenceNr, requestTime));
  }

  // -------------------------------------------------------------------- Link

  predicate IsLinkField(tagType: nat) {
    tagType == LinkLevelCorrectionTagType || tagType == LinkSiblingHashTagType
    || tagType == LinkMetaHashTagType || tagType == MetaDataTagType
  }

  /** The typed form Link gives one child. */
  function LinkChild(c: Codec, x: Tag): (r: Result<Tag, Error>)
    ensures r.Ok? ==> SameHeader(r.value, x)
    ensures !IsLinkField(x.tagType) ==> r == Ok(x)
  {
    if x.tagType == LinkLevelCorrectionTagType then IntegerTagOf(c, x)
    else if x.tagType == LinkSiblingHashTagType || x.tagType == LinkMetaHashTagType then ImprintTagOf(c, x)
    else if x.tagType == MetaDataTagType then
      (match MetaDataOf(c, x)
       case Ok(m) => Ok(m.tag)
       case Err(e) => Err(e))
    else Ok(x)
  }

  function LinkConversion(c: Codec): Tag -> Result<Tag, Error> {
    x => LinkChild(c, x)
  }

  /** The MetaData object built from a metadata child: what the link's field keeps for the last such child. */
  function MetaDataOfLast(c: Codec, last: Option<Tag>): Option<MetaData> {
    match last
    case None => None
    case Some(x) =>
      match MetaDataOf(c, x)
      case Ok(m) => Some(m)
      case Err(_) => None
  }

  /** The Link object new Link(tag, direction) builds, or the exception it throws. */
  function LinkOf(c: Codec, t: Tag, direction: nat): Result<Link, Error> {
    var cs :- ReadChildren(c, t);
    var f := LinkConversion(c);
    var typed :- ConvertAll(cs, f);
    Ok(Link(Rebuilt(t, "Link", typed), direction,
            Converted(f, LastOfType(cs, LinkLevelCorrectionTagType)),
            Converted(f, LastOfType(cs, LinkSiblingHashTagType)),
            Converted(f, LastOfType(cs, LinkMetaHashTagType)),
            MetaDataOfLast(c, LastOfType(cs, MetaDataTagType))))
  }

  /** Link(TlvTag, LinkDirection): the constructor's loop over the children. */
  method NewLink(c: Codec, t: Tag, direction: nat) returns (r: Result<Link, Error>)
    ensures r == LinkOf(c, t, direction)
  {
    var read := ReadChildren(c, t);
    if read.Err? {
      return Err(read.error);
    }
    ghost var original := read.value;
    ghost var f := LinkConversion(c);
    var children := read.value;
    var levelCorrection: Option<Tag> := None;
    var siblingHash: Option<Tag> := None;
    var metaHash: Option<Tag> := None;
    var metaData: Option<MetaData> := None;
    var i := 0;
    while i < |children|
      invariant 0 <= i <= |children| == |original|
      invariant ConvertUpTo(original, i, f) == Ok(children[..i])
      invariant children[i..] == original[i..]
      invariant levelCorrection == Converted(f, LastUpTo(original, i, LinkLevelCorrectionTagType))
      invariant siblingHash == Converted(f, LastUpTo(original, i, LinkSiblingHashTagType))
      invariant metaHash == Converted(f, LastUpTo(original, i, LinkMetaHashTagType))
      invariant metaData == MetaDataOfLast(c, LastUpTo(original, i, MetaDataTagType))
    {
      var x := children[i];
      assert x == original[i] by { assert children[i..][0] == original[i..][0]; }
      assert f(x) == LinkChild(c, x);
      var typedChild := x;
      if x.tagType == LinkLevelCorrectionTagType {
        var n := IntegerTagOf(c, x);
        if n.Err? {
          ConvertStopsAt(original, |original|, i, f);
          return Err(n.error);
        }
        levelCorrection := Some(n.value);
        typedChild := n.value;
      } else if x.tagType == LinkSiblingHashTagType || x.tagType == LinkMetaHashTagType {
        var h := ImprintTagOf(c, x);
        if h.Err? {
          ConvertStopsAt(original, |original|, i, f);
          return Err(h.error);
        }
        if x.tagType == LinkSiblingHashTagType { siblingHash := Some(h.value); } else { metaHash := Some(h.value); }
        typedChild := h.value;
      } else if x.tagType == MetaDataTagType {
        var m := NewMetaData(c, x);
        if m.Err? {
          ConvertStopsAt(original, |original|, i, f);
          return Err(m.error);
        }
        metaData := Some(m.value);
        typedChild := m.value.tag;
      }
      ghost var before := children;
      children := children[i := typedChild];
      assert children[..i + 1] == before[..i] + [typedChild];
      assert children[i + 1..] == before[i + 1..];
      i := i + 1;
    }
    assert children[..i] == children;
    r := Ok(Link(Rebuilt(t, "Link", children), direction, levelCorrection, siblingHash, metaHash, metaData));
  }

  // ---------------------------------------------------- AggregationHashChain

  predicate IsLinkType(tagType: nat) {
    tagType == LeftLinkTagType || tagType == RightLinkTagType
  }

  predicate IsChainField(tagType: nat) {
    tagType == ChainAggregationTimeTagType || tagType == ChainIndexTagType || tagType == ChainInputDataTagType
    || tagType == ChainInputHashTagType || tagType == ChainAggregationAlgorithmIdTagType || IsLinkType(tagType)
  }

  /** The typed form AggregationHashChain gives one child; a link's direction is its tag type. */
  function ChainChild(c: Codec, x: Tag): (r: Result<Tag, Error>)
    ensures r.Ok? ==> SameHeader(r.value, x)
    ensures !IsChainField(x.tagType) ==> r == Ok(x)
  {
    if x.tagType == ChainAggregationTimeTagType || x.tagType == ChainIndexTagType
       || x.tagType == ChainAggregationAlgorithmIdTagType then IntegerTagOf(c, x)
    else if x.tagType == ChainInputDataTagType then Ok(RawTagOf(c, x))
    else if x.tagType == ChainInputHashTagType then ImprintTagOf(c, x)
    else if IsLinkType(x.tagType) then
      (match LinkOf(c, x, x.tagType)
       case Ok(l) => Ok(l.tag)
       case Err(e) => Err(e))
    else Ok(x)
  }

  function ChainConversion(c: Codec): Tag -> Result<Tag, Error> {
    x => ChainChild(c, x)
  }

  /** The Link objects of the link children among the first n, in order: the list each link child is appended to. */
  function LinksUpTo(c: Codec, cs: seq<Tag>, n: nat): seq<Link>
    requires n <= |cs|
  {
    if n == 0 then []
    else
      var x := cs[n - 1];
      LinksUpTo(c, cs, n - 1)
      + (if IsLinkType(x.tagType) && LinkOf(c, x, x.tagType).Ok? then [LinkOf(c, x, x.tagType).value] else [])
  }

  /** The fields of an AggregationHashChain while its constructor walks the children. */
  datatype ChainFields = ChainFields(
    aggregationTime: Option<Tag>,
    chainIndex: Option<seq<Tag>>,
    inputData: Option<Tag>,
    inputHash: Option<Tag>,
    aggrAlgorithmId: Option<Tag>,
    chain: Option<seq<Link>>)

  const NoChainFields := ChainFields(None, None, None, None, None, None)

  /** A list field after one more element: created on first use, then appended to. */
  function Appended<T>(list: Option<seq<T>>, x: T): Option<seq<T>> {
    Some((if list.None? then [] else list.value) + [x])
  }

  /**
   * One pass of the constructor's switch: the typed form of the child and the
   * fields after it, or the exception the child's constructor throws.
   */
  function ChainStep(c: Codec, x: Tag, acc: ChainFields): Result<(Tag, ChainFields), Error> {
    if x.tagType == ChainAggregationTimeTagType || x.tagType == ChainIndexTagType
       || x.tagType == ChainAggregationAlgorithmIdTagType then
      var n :- IntegerTagOf(c, x);
      if x.tagType == ChainAggregationTimeTagType then Ok((n, acc.(aggregationTime := Some(n))))
      else if x.tagType == ChainIndexTagType then Ok((n, acc.(chainIndex := Appended(acc.chainIndex, n))))
      else Ok((n, acc.(aggrAlgorithmId := Some(n))))
    else if x.tagType == ChainInputDataTagType then
      var raw := RawTagOf(c, x);
      Ok((raw, acc.(inputData := Some(raw))))
    else if x.tagType == ChainInputHashTagType then
      var h :- ImprintTagOf(c, x);
      Ok((h, acc.(inputHash := Some(h))))
    else if IsLinkType(x.tagType) then
      var l :- LinkOf(c, x, x.tagType);
      Ok((l.tag, acc.(chain := Appended(acc.chain, l))))
    else Ok((x, acc))
  }

  function ChainSteps(c: Codec): (Tag, ChainFields) -> Result<(Tag, ChainFields), Error> {
    (x, acc) => ChainStep(c, x, acc)
  }

  /** The AggregationHashChain object new AggregationHashChain(tag) builds, or the exception it throws. */
  function AggregationHashChainOf(c: Codec, t: Tag): Result<AggregationHashChain, Error> {
    var cs :- ReadChildren(c, t);
    var done :- FoldUpTo(cs, |cs|, NoChainFields, ChainSteps(c));
    var fields := done.1;
    Ok(AggregationHashChain(Rebuilt(t, "AggregationHashChain", done.0), fields.aggregationTime, fields.chainIndex,
                            fields.inputData, fields.inputHash, fields.aggrAlgorithmId, fields.chain))
  }

  /** The body of the constructor's loop: the switch on the type of one child. */
  method ParseChainChild(c: Codec, x: Tag, fields: ChainFields) returns (r: Result<(Tag, ChainFields), Error>)
    ensures r == ChainStep(c, x, fields)
  {
    var typedChild := x;
    var next := fields;
    if x.tagType == ChainAggregationTimeTagType || x.tagType == ChainIndexTagType
       || x.tagType == ChainAggregationAlgorithmIdTagType {
      var n := IntegerTagOf(c, x);
      if n.Err? {
        return Err(n.error);
      }
      if x.tagType == ChainAggregationTimeTagType {
        next := next.(aggregationTime := Some(n.value));
      } else if x.tagType == ChainIndexTagType {
        var list := next.chainIndex;
        if list == None {
          list := Some([]);
        }
        next := next.(chainIndex := Some(list.value + [n.value]));
      } else {
        next := next.(aggrAlgorithmId := Some(n.value));
      }
      typedChild := n.value;
    } else if x.tagType == ChainInputDataTagType {
      var raw := RawTagOf(c, x);
      next := next.(inputData := Some(raw));
      typedChild := raw;
    } else if x.tagType == ChainInputHashTagType {
      var h := ImprintTagOf(c, x);
      if h.Err? {
        return Err(h.error);
      }
      next := next.(inputHash := Some(h.value));
      typedChild := h.value;
    } else if IsLinkType(x.tagType) {
      var l := NewLink(c, x, x.tagType);
      if l.Err? {
        return Err(l.error);
      }
      var list := next.chain;
      if list == None {
        list := Some([]);
      }
      next := next.(chain := Some(list.value + [l.value]));
      typedChild := l.value.tag;
    }
    r := Ok((typedChild, next));
  }

  /** AggregationHashChain(TlvTag): the constructor's loop over the children. */
  method NewAggregationHashChain(c: Codec, t: Tag) returns (r: Result<AggregationHashChain, Error>)
    ensures r == AggregationHashChainOf(c, t)
  {
    var read := ReadChildren(c, t);
    if read.Err? {
      return Err(read.error);
    }
    ghost var original := read.value;
    var children := read.value;
    var fields := NoChainFields;
    var i := 0;
    while i < |children|
      invariant 0 <= i <= |children| == |original|
      invariant FoldUpTo(original, i, NoChainFields, ChainSteps(c)) == Ok((children[..i], fields))
      invariant children[i..] == original[i..]
    {
      assert children[i] == original[i] by { assert children[i..][0] == original[i..][0]; }
      var step := ParseChainChild(c, children[i], fields);
      assert ChainSteps(c)(children[i], fields) == step;
      if step.Err? {
        FoldStopsAt(original, |original|, i, NoChainFields, ChainSteps(c));
        return Err(step.error);
      }
      ghost var before := children;
      children := children[i := step.value.0];
      fields := step.value.1;
      assert children[..i + 1] == before[..i] + [step.value.0];
      assert children[i + 1..] == before[i + 1..];
      i := i + 1;
    }
    assert children[..i] == children;
    r := Ok(AggregationHashChain(Rebuilt(t, "AggregationHashChain", children), fields.aggregationTime, fields.chainIndex,
                                 fields.inputData, fields.inputHash, fields.aggrAlgorithmId, fields.chain));
  }

  // ------------------------------------------------------------- properties

  /** One pass of the switch converts the child exactly as ChainChild does. */
  lemma ChainStepConverts(c: Codec, x: Tag, acc: ChainFields)
    ensures ChainStep(c, x, acc).Ok? <==> ChainChild(c, x).Ok?
    ensures ChainStep(c, x, acc).Ok? ==> ChainStep(c, x, acc).value.0 == ChainChild(c, x).value
    ensures ChainStep(c, x, acc).Err? ==> ChainStep(c, x, acc).error == ChainChild(c, x).error
  {
  }

  /** The switch converts every child as ChainChild does, whatever the fields. */
  lemma ChainStepsConvert(c: Codec)
    ensures StepConverts(ChainSteps(c), ChainConversion(c))
  {
    forall x: Tag, acc: ChainFields
      ensures ChainSteps(c)(x, acc) == ChainStep(c, x, acc) && ChainConversion(c)(x) == ChainChild(c, x)
    {
      ChainStepConverts(c, x, acc);
    }
  }

  /** After n children each single field holds the typed form of the last child of its type. */
  lemma {:induction false} ChainUpToLastFields(c: Codec, cs: seq<Tag>, n: nat)
    requires n <= |cs| && FoldUpTo(cs, n, NoChainFields, ChainSteps(c)).Ok?
    ensures var fields := FoldUpTo(cs, n, NoChainFields, ChainSteps(c)).value.1;
            var f := ChainConversion(c);
            && fields.aggregationTime == Converted(f, LastUpTo(cs, n, ChainAggregationTimeTagType))
            && fields.inputData == Converted(f, LastUpTo(cs, n, ChainInputDataTagType))
            && fields.inputHash == Converted(f, LastUpTo(cs, n, ChainInputHashTagType))
            && fields.aggrAlgorithmId == Converted(f, LastUpTo(cs, n, ChainAggregationAlgorithmIdTagType))
  {
    if n > 0 {
      ChainUpToLastFields(c, cs, n - 1);
      assert ChainConversion(c)(cs[n - 1]) == ChainChild(c, cs[n - 1]);
      var acc := FoldUpTo(cs, n - 1, NoChainFields, ChainSteps(c)).value.1;
      assert ChainSteps(c)(cs[n - 1], acc) == ChainStep(c, cs[n - 1], acc);
      ChainStepConverts(c, cs[n - 1], acc);
    }
  }

  /** After n children the chain index list holds the typed chain index children in order, and is null when there is none. */
  lemma {:induction false} ChainUpToIndexes(c: Codec, cs: seq<Tag>, n: nat)
    requires n <= |cs| && FoldUpTo(cs, n, NoChainFields, ChainSteps(c)).Ok?
    ensures |FoldUpTo(cs, n, NoChainFields, ChainSteps(c)).value.0| == n
    ensures var typed := FoldUpTo(cs, n, NoChainFields, ChainSteps(c)).value.0;
            FoldUpTo(cs, n, NoChainFields, ChainSteps(c)).value.1.chainIndex
            == if CountUpTo(typed, n, ChainIndexTagType) == 0 then None else Some(AllUpTo(typed, n, ChainIndexTagType))
  {
    if n > 0 {
      ChainUpToIndexes(c, cs, n - 1);
      var x := cs[n - 1];
      var before := FoldUpTo(cs, n - 1, NoChainFields, ChainSteps(c)).value;
      assert ChainSteps(c)(x, before.1) == ChainStep(c, x, before.1);
      ChainStepConverts(c, x, before.1);
      var y := ChainStep(c, x, before.1).value.0;
      assert y.tagType == x.tagType;
      var typed := before.0 + [y];
      assert FoldUpTo(cs, n, NoChainFields, ChainSteps(c)).value.0 == typed;
      AllFrame(typed, before.0, n - 1, ChainIndexTagType);
      AllUpToSpec(before.0, n - 1, ChainIndexTagType);
      if x.tagType == ChainIndexTagType {
        assert AllUpTo(typed, n, ChainIndexTagType) == AllUpTo(before.0, n - 1, ChainIndexTagType) + [y];
      } else {
        assert AllUpTo(typed, n, ChainIndexTagType) == AllUpTo(before.0, n - 1, ChainIndexTagType);
      }
    }
  }

  /** After n children the chain holds a Link for every link child, in order, and is null when there is none. */
  lemma {:induction false} ChainUpToLinks(c: Codec, cs: seq<Tag>, n: nat)
    requires n <= |cs| && FoldUpTo(cs, n, NoChainFields, ChainSteps(c)).Ok?
    ensures FoldUpTo(cs, n, NoChainFields, ChainSteps(c)).value.1.chain == if LinksUpTo(c, cs, n) == [] then None else Some(LinksUpTo(c, cs, n))
  {
    if n > 0 {
      ChainUpToLinks(c, cs, n - 1);
      var x := cs[n - 1];
      var before := LinksUpTo(c, cs, n - 1);
      if IsLinkType(x.tagType) {
        assert LinksUpTo(c, cs, n) == before + [LinkOf(c, x, x.tagType).value];
      } else {
        assert LinksUpTo(c, cs, n) == before;
      }
    }
  }

  /** Every conversion of this file keeps the type of the child it converts. */
  lemma ConversionsKeepTypes(c: Codec)
    ensures KeepsTypes(MetaDataConversion(c)) && KeepsTypes(LinkConversion(c)) && KeepsTypes(ChainConversion(c))
  {
    forall x: Tag
      ensures MetaDataConversion(c)(x) == MetaDataChild(c, x) && LinkConversion(c)(x) == LinkChild(c, x)
              && ChainConversion(c)(x) == ChainChild(c, x)
    {
    }
  }

  /**
   * MetaData(tag): it throws when the children cannot be read or one of them
   * cannot be converted, and nothing else (there are no count checks). A
   * built object keeps the tag's header and every child's position and
   * header, leaves the children of other types untouched, and each field holds
   * the typed form of the last child of its type.
   */
  lemma MetaDataOfSpec(c: Codec, t: Tag)
    ensures ReadChildren(c, t).Err? ==> MetaDataOf(c, t) == Err(ReadChildren(c, t).error)
    ensures ReadChildren(c, t).Ok? ==>
              (MetaDataOf(c, t).Ok? <==>
               forall k :: 0 <= k < |ReadChildren(c, t).value| ==> MetaDataChild(c, ReadChildren(c, t).value[k]).Ok?)
    ensures MetaDataOf(c, t).Ok? ==>
              var cs := ReadChildren(c, t).value;
              var m := MetaDataOf(c, t).value;
              && SameHeader(m.tag, t) && m.tag.value.Composite?
              && var typed := m.tag.value.children;
              && |typed| == |cs|
              && (forall k :: 0 <= k < |cs| ==> SameHeader(typed[k], cs[k]))
              && (forall k :: 0 <= k < |cs| && !IsMetaDataField(cs[k].tagType) ==> typed[k] == cs[k])
              && m.clientId == LastOfType(typed, MetaDataClientIdTagType)
              && m.machineId == LastOfType(typed, MetaDataMachineIdTagType)
              && m.sequenceNr == LastOfType(typed, MetaDataSequenceNumberTagType)
              && m.requestTime == LastOfType(typed, MetaDataRequestTimeTagType)
  {
    var f := MetaDataConversion(c);
    ConversionsKeepTypes(c);
    if ReadChildren(c, t).Ok? {
      var cs := ReadChildren(c, t).value;
      ConvertUpToSpec(cs, |cs|, f);
      assert forall k :: 0 <= k < |cs| ==> f(cs[k]) == MetaDataChild(c, cs[k]);
      if MetaDataOf(c, t).Ok? {
        ConvertAllInPlace(cs, f, MetaDataClientIdTagType);
        ConvertAllInPlace(cs, f, MetaDataMachineIdTagType);
        ConvertAllInPlace(cs, f, MetaDataSequenceNumberTagType);
        ConvertAllInPlace(cs, f, MetaDataRequestTimeTagType);
      }
    }
  }

  /**
   * Link(tag, direction): it throws when the children cannot be read or one of
   * them cannot be converted, and nothing else. A built link keeps the given
   * direction, the tag's header and every child's position and header, leaves
   * the children of other types untouched, and each field holds the typed form
   * of the last child of its type; the metadata object is the one whose tag is
   * the last typed metadata child.
   */
  lemma LinkOfSpec(c: Codec, t: Tag, direction: nat)
    ensures ReadChildren(c, t).Err? ==> LinkOf(c, t, direction) == Err(ReadChildren(c, t).error)
    ensures ReadChildren(c, t).Ok? ==>
              (LinkOf(c, t, direction).Ok? <==>
               forall k :: 0 <= k < |ReadChildren(c, t).value| ==> LinkChild(c, ReadChildren(c, t).value[k]).Ok?)
    ensures LinkOf(c, t, direction).Ok? ==>
              var cs := ReadChildren(c, t).value;
              var l := LinkOf(c, t, direction).value;
              && l.direction == direction
              && SameHeader(l.tag, t) && l.tag.value.Composite?
              && var typed := l.tag.value.children;
              && |typed| == |cs|
              && (forall k :: 0 <= k < |cs| ==> SameHeader(typed[k], cs[k]))
              && (forall k :: 0 <= k < |cs| && !IsLinkField(cs[k].tagType) ==> typed[k] == cs[k])
              && l.levelCorrection == LastOfType(typed, LinkLevelCorrectionTagType)
              && l.siblingHash == LastOfType(typed, LinkSiblingHashTagType)
              && l.metaHash == LastOfType(typed, LinkMetaHashTagType)
              && (l.metaData.Some? <==> LastOfType(typed, MetaDataTagType).Some?)
              && (l.metaData.Some? ==> l.metaData.value.tag == LastOfType(typed, MetaDataTagType).value)
  {
    var f := LinkConversion(c);
    ConversionsKeepTypes(c);
    if ReadChildren(c, t).Ok? {
      var cs := ReadChildren(c, t).value;
      ConvertUpToSpec(cs, |cs|, f);
      assert forall k :: 0 <= k < |cs| ==> f(cs[k]) == LinkChild(c, cs[k]);
      if LinkOf(c, t, direction).Ok? {
        ConvertAllInPlace(cs, f, LinkLevelCorrectionTagType);
        ConvertAllInPlace(cs, f, LinkSiblingHashTagType);
        ConvertAllInPlace(cs, f, LinkMetaHashTagType);
        LinkMetaDataIsLast(c, cs);
      }
    }
  }

  /** The metadata object a link keeps is the one whose tag is the last typed metadata child. */
  lemma LinkMetaDataIsLast(c: Codec, cs: seq<Tag>)
    requires ConvertAll(cs, LinkConversion(c)).Ok?
    ensures var last := LastOfType(ConvertAll(cs, LinkConversion(c)).value, MetaDataTagType);
            var m := MetaDataOfLast(c, LastOfType(cs, MetaDataTagType));
            (m.Some? <==> last.Some?) && (m.Some? ==> m.value.tag == last.value)
  {
    var f := LinkConversion(c);
    ConversionsKeepTypes(c);
    ConvertAllInPlace(cs, f, MetaDataTagType);
    LastUpToSpec(cs, |cs|, MetaDataTagType);
    if LastOfType(cs, MetaDataTagType).Some? {
      var x := LastOfType(cs, MetaDataTagType).value;
      assert f(x) == LinkChild(c, x);
    }
  }

  /** Every link child that converts gives one Link, whose direction is its own tag type. */
  lemma {:induction false} LinksUpToSpec(c: Codec, cs: seq<Tag>, n: nat)
    requires n <= |cs|
    requires forall k :: 0 <= k < n ==> ChainChild(c, cs[k]).Ok?
    ensures |LinksUpTo(c, cs, n)| == CountUpTo(cs, n, LeftLinkTagType) + CountUpTo(cs, n, RightLinkTagType)
    ensures forall j :: 0 <= j < |LinksUpTo(c, cs, n)| ==>
              IsLinkType(LinksUpTo(c, cs, n)[j].direction) && LinksUpTo(c, cs, n)[j].direction == LinksUpTo(c, cs, n)[j].tag.tagType
  {
    if n > 0 {
      LinksUpToSpec(c, cs, n - 1);
      var x := cs[n - 1];
      if IsLinkType(x.tagType) {
        assert LinkOf(c, x, x.tagType).Ok?;
        LinkOfSpec(c, x, x.tagType);
      }
    }
  }

  /**
   * AggregationHashChain(tag): it throws when the children cannot be read or
   * one of them cannot be converted, and nothing else (there are no count
   * checks). A built chain keeps the tag's header and every child's position
   * and header, and leaves the children of other types untouched. Each single
   * field holds the typed form of the last child of its type; the chain index
   * list holds the typed chain index children in order, and is null when there
   * is none; the chain holds one Link per link child, with the child's type as
   * its direction, and is null when there is none.
   */
  lemma AggregationHashChainOfSpec(c: Codec, t: Tag)
    ensures ReadChildren(c, t).Err? ==> AggregationHashChainOf(c, t) == Err(ReadChildren(c, t).error)
    ensures ReadChildren(c, t).Ok? ==>
              (AggregationHashChainOf(c, t).Ok? <==>
               forall k :: 0 <= k < |ReadChildren(c, t).value| ==> ChainChild(c, ReadChildren(c, t).value[k]).Ok?)
    ensures AggregationHashChainOf(c, t).Ok? ==>
              var cs := ReadChildren(c, t).value;
              var a := AggregationHashChainOf(c, t).value;
              && SameHeader(a.tag, t) && a.tag.value.Composite?
              && var typed := a.tag.value.children;
              && |typed| == |cs|
              && (forall k :: 0 <= k < |cs| ==> SameHeader(typed[k], cs[k]))
              && (forall k :: 0 <= k < |cs| && !IsChainField(cs[k].tagType) ==> typed[k] == cs[k])
              && a.aggregationTime == LastOfType(typed, ChainAggregationTimeTagType)
              && a.inputData == LastOfType(typed, ChainInputDataTagType)
              && a.inputHash == LastOfType(typed, ChainInputHashTagType)
              && a.aggrAlgorithmId == LastOfType(typed, ChainAggregationAlgorithmIdTagType)
              && a.chainIndex == (if CountType(cs, ChainIndexTagType) == 0 then None
                                  else Some(AllOfType(typed, ChainIndexTagType)))
              && (a.chain.None? <==> CountType(cs, LeftLinkTagType) + CountType(cs, RightLinkTagType) == 0)
              && (a.chain.Some? ==>
                    |a.chain.value| == CountType(cs, LeftLinkTagType) + CountType(cs, RightLinkTagType)
                    && forall j :: 0 <= j < |a.chain.value| ==>
                         IsLinkType(a.chain.value[j].direction) && a.chain.value[j].direction == a.chain.value[j].tag.tagType)
  {
    var f := ChainConversion(c);
    ConversionsKeepTypes(c);
    if ReadChildren(c, t).Ok? {
      var cs := ReadChildren(c, t).value;
      ChainStepsConvert(c);
      FoldConverts(cs, |cs|, NoChainFields, ChainSteps(c), f);
      ConvertUpToSpec(cs, |cs|, f);
      assert forall k :: 0 <= k < |cs| ==> f(cs[k]) == ChainChild(c, cs[k]);
      if AggregationHashChainOf(c, t).Ok? {
        ChainUpToLastFields(c, cs, |cs|);
        ChainUpToIndexes(c, cs, |cs|);
        ChainUpToLinks(c, cs, |cs|);
        LinksUpToSpec(c, cs, |cs|);
        ConvertAllInPlace(cs, f, ChainAggregationTimeTagType);
        ConvertAllInPlace(cs, f, ChainIndexTagType);
        ConvertAllInPlace(cs, f, ChainInputDataTagType);
        ConvertAllInPlace(cs, f, ChainInputHashTagType);
        ConvertAllInPlace(cs, f, ChainAggregationAlgorithmIdTagType);
      }
    }
  }
}

