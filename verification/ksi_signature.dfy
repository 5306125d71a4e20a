/**
 * KsiSignature (ksi-net-api/Signature/KsiSignature.cs): the constructor's
 * loop over the signature's children and its count rules, the ordering and
 * consistency check of the aggregation hash chains, the root hash and the
 * identity (both cached), and Extend.
 *
 * The members of AggregationHashChain that KsiSignature calls are not in the
 * modelled revision of AggregationHashChain.cs (ChainIndexOrdering,
 * GetChainIndex, AggregationTime, InputHash, GetOutputHash,
 * GetChainIdentity); they come in as the fields of a ChainOps value, together
 * with the internal verification policy.
 */
module KsiSignatures {
  import opened Wrappers
  import opened Exceptions
  import opened Hashing
  import opened Parser
  import opened Children
  import opened Constants
  import opened AggregationHashChains
  import opened AggregationAuthenticationRecords

  /** AggregationHashChainResult: the level and hash a chain passes to the next one. */
  datatype ChainResult = ChainResult(level: nat, hash: DataHash)

  datatype ChainOps = ChainOps(
    compare: (AggregationHashChain, AggregationHashChain) -> int,    // ChainIndexOrdering.Compare
    chainIndex: AggregationHashChain -> seq<nat>,                    // GetChainIndex
    aggregationTime: AggregationHashChain -> nat,                    // AggregationTime
    inputHash: AggregationHashChain -> DataHash,                     // InputHash
    outputHash: (AggregationHashChain, ChainResult) -> ChainResult,  // GetOutputHash
    chainIdentity: AggregationHashChain -> string,                   // GetChainIdentity
    internalVerification: (SignatureParts, DataHash) -> Option<string>) // InternalVerificationPolicy: the error, if not Ok

  /** What a constructed signature holds: its header flags, its typed children, and the typed objects it keeps. */
  datatype SignatureParts = SignatureParts(
    nonCritical: bool,
    forward: bool,
    children: seq<Tag>,
    chains: seq<AggregationHashChain>,     // sorted by ChainIndexOrdering
    calendarHashChain: Option<Tag>,
    publicationRecord: Option<Tag>,
    aggregationAuthenticationRecord: Option<AggregationAuthenticationRecord>,
    calendarAuthenticationRecord: Option<Tag>,
    rfc3161Record: Option<Tag>)

  // The messages of the exceptions the constructor and Extend throw.
  const NoChainsMessage := "Aggregation hash chains must exist in KSI signature."
  const CalendarChainsMessage := "Only one calendar hash chain is allowed in KSI signature."
  const NoCalendarChainMessage :=
    "No publication record or calendar authentication record is allowed in KSI signature if there is no calendar hash chain."
  const PublicationOrAuthenticationMessage :=
    "Only one from publication record or calendar authentication record is allowed in KSI signature."
  const Rfc3161RecordsMessage := "Only one RFC 3161 record is allowed in KSI signature."
  const ChainIndexMismatchMessage := "Chain index mismatch."
  const NullCalendarChainMessage := "Invalid calendar hash chain: null."
  const InternalVerificationMessage := "Signature internal verification failed. Verification error: "

  // ------------------------------------------------------------- chain order

  /** An IComparer's sign rule: when a ranks after b, b ranks before a. */
  ghost predicate ConsistentComparer(cmp: (AggregationHashChain, AggregationHashChain) -> int) {
    forall a, b :: cmp(a, b) > 0 ==> cmp(b, a) < 0
  }

  predicate SortedBy(cmp: (AggregationHashChain, AggregationHashChain) -> int, s: seq<AggregationHashChain>) {
    forall i :: 0 <= i < |s| - 1 ==> cmp(s[i], s[i + 1]) <= 0
  }

  /** x placed before the first element it does not rank after. */
  function Insert(cmp: (AggregationHashChain, AggregationHashChain) -> int, x: AggregationHashChain,
                  s: seq<AggregationHashChain>): (r: seq<AggregationHashChain>)
    ensures multiset(r) == multiset(s) + multiset{x}
    ensures |r| == |s| + 1
  {
    if s == [] || cmp(x, s[0]) <= 0 then [x] + s
    else
      assert s == [s[0]] + s[1..];
      [s[0]] + Insert(cmp, x, s[1..])
  }

  /**
   * List.Sort with ChainIndexOrdering: insertion sort, which keeps chains the
   * ordering ranks equal in their order of appearance.
   */
  function SortChains(cmp: (AggregationHashChain, AggregationHashChain) -> int, s: seq<AggregationHashChain>): (r: seq<AggregationHashChain>)
    ensures multiset(r) == multiset(s)
    ensures |r| == |s|
  {
    if s == [] then []
    else
      assert s == [s[0]] + s[1..];
      Insert(cmp, s[0], SortChains(cmp, s[1..]))
  }

  lemma {:induction false} InsertSorted(cmp: (AggregationHashChain, AggregationHashChain) -> int, x: AggregationHashChain,
                                        s: seq<AggregationHashChain>)
    requires ConsistentComparer(cmp) && SortedBy(cmp, s)
    ensures SortedBy(cmp, Insert(cmp, x, s))
    ensures Insert(cmp, x, s)[0] == x || (s != [] && Insert(cmp, x, s)[0] == s[0])
  {
    if s != [] && cmp(x, s[0]) > 0 {
      var rest := Insert(cmp, x, s[1..]);
      assert SortedBy(cmp, s[1..]) by {
        forall i | 0 <= i < |s[1..]| - 1 ensures cmp(s[1..][i], s[1..][i + 1]) <= 0 {
          assert s[1..][i] == s[i + 1] && s[1..][i + 1] == s[i + 2];
        }
      }
      InsertSorted(cmp, x, s[1..]);
      assert cmp(s[0], x) < 0;
      assert |s| > 1 ==> cmp(s[0], s[1]) <= 0;
      assert cmp(s[0], rest[0]) <= 0;
      var r := [s[0]] + rest;
      forall i | 0 <= i < |r| - 1 ensures cmp(r[i], r[i + 1]) <= 0 {
        if i > 0 {
          assert r[i] == rest[i - 1] && r[i + 1] == rest[i];
        }
      }
    }
  }

  /** The sorted chains are ordered by the comparer (and, by SortChains' contract, a permutation of the input). */
  lemma {:induction false} SortChainsSorted(cmp: (AggregationHashChain, AggregationHashChain) -> int, s: seq<AggregationHashChain>)
    requires ConsistentComparer(cmp)
    ensures SortedBy(cmp, SortChains(cmp, s))
  {
    if s != [] {
      SortChainsSorted(cmp, s[1..]);
      InsertSorted(cmp, s[0], SortChains(cmp, s[1..]));
    }
  }

  // ---------------------------------------------------- chain index agreement

  /** CheckAggregationHashChainIndexes does not throw: the indexes agree at every position both have. */
  predicate IndexesAgree(parentIndex: seq<nat>, childIndex: seq<nat>) {
    forall i :: 0 <= i < |parentIndex| && i < |childIndex| ==> parentIndex[i] == childIndex[i]
  }

  /** Two chain indexes agree exactly when one is a prefix of the other. */
  lemma IndexesAgreeIsPrefix(parentIndex: seq<nat>, childIndex: seq<nat>)
    ensures IndexesAgree(parentIndex, childIndex) <==> (parentIndex <= childIndex || childIndex <= parentIndex)
  {
    if IndexesAgree(parentIndex, childIndex) {
      if |parentIndex| <= |childIndex| {
        assert parentIndex == childIndex[..|parentIndex|];
      } else {
        assert childIndex == parentIndex[..|childIndex|];
      }
    }
  }

  /** CheckAggregationHashChainIndexes: throws at the first position both indexes have and where they differ. */
  method CheckAggregationHashChainIndexes(parentIndex: seq<nat>, childIndex: seq<nat>) returns (r: Result<(), Error>)
    ensures r.Ok? <==> IndexesAgree(parentIndex, childIndex)
    ensures r.Err? ==> r.error == Tlv(ChainIndexMismatchMessage)
  {
    var i := 0;
    while i < |parentIndex|
      invariant 0 <= i <= |parentIndex|
      invariant forall k :: 0 <= k < i && k < |childIndex| ==> parentIndex[k] == childIndex[k]
    {
      if i >= |childIndex| {
        break;
      }
      if parentIndex[i] != childIndex[i] {
        return Err(Tlv(ChainIndexMismatchMessage));
      }
      i := i + 1;
    }
    r := Ok(());
  }

  /** Every chain's index agrees with the next chain's. */
  predicate IndexesConsistent(ops: ChainOps, chains: seq<AggregationHashChain>) {
    forall i :: 0 <= i < |chains| - 1 ==> IndexesAgree(ops.chainIndex(chains[i]), ops.chainIndex(chains[i + 1]))
  }

  /** SortAggregationHashChains: the chains in ChainIndexOrdering, or the mismatch exception. */
  function SortedChains(ops: ChainOps, chains: seq<AggregationHashChain>): Result<seq<AggregationHashChain>, Error> {
    var sorted := SortChains(ops.compare, chains);
    if IndexesConsistent(ops, sorted) then Ok(sorted) else Err(Tlv(ChainIndexMismatchMessage))
  }

  /** SortAggregationHashChains: sort, then check each adjacent pair of chain indexes. */
  method SortAggregationHashChains(ops: ChainOps, chains: seq<AggregationHashChain>) returns (r: Result<seq<AggregationHashChain>, Error>)
    ensures r == SortedChains(ops, chains)
  {
    var sorted := SortChains(ops.compare, chains);
    if |sorted| < 2 {
      return Ok(sorted);
    }
    var parentIndex := ops.chainIndex(sorted[0]);
    var childIndex := ops.chainIndex(sorted[1]);
    var check := CheckAggregationHashChainIndexes(parentIndex, childIndex);
    if check.Err? {
      return Err(check.error);
    }
    var i := 2;
    while i < |sorted|
      invariant 2 <= i <= |sorted|
      invariant childIndex == ops.chainIndex(sorted[i - 1])
      invariant forall k :: 0 <= k < i - 1 ==> IndexesAgree(ops.chainIndex(sorted[k]), ops.chainIndex(sorted[k + 1]))
    {
      parentIndex := childIndex;
      childIndex := ops.chainIndex(sorted[i]);
      check := CheckAggregationHashChainIndexes(parentIndex, childIndex);
      if check.Err? {
        return Err(check.error);
      }
      i := i + 1;
    }
    r := Ok(sorted);
  }

  /**
   * The chains a signature keeps are the input chains reordered, sorted by
   * the ordering, with every adjacent pair of chain indexes agreeing.
   */
  lemma SortedChainsSpec(ops: ChainOps, chains: seq<AggregationHashChain>)
    requires ConsistentComparer(ops.compare)
    ensures SortedChains(ops, chains).Ok? <==> IndexesConsistent(ops, SortChains(ops.compare, chains))
    ensures SortedChains(ops, chains).Ok? ==>
              var s := SortedChains(ops, chains).value;
              multiset(s) == multiset(chains) && SortedBy(ops.compare, s)
              && forall i :: 0 <= i < |s| - 1 ==> (ops.chainIndex(s[i]) <= ops.chainIndex(s[i + 1]) || ops.chainIndex(s[i + 1]) <= ops.chainIndex(s[i]))
  {
    SortChainsSorted(ops.compare, chains);
    var s := SortChains(ops.compare, chains);
    forall i | 0 <= i < |s| - 1
      ensures IndexesAgree(ops.chainIndex(s[i]), ops.chainIndex(s[i + 1]))
              <==> (ops.chainIndex(s[i]) <= ops.chainIndex(s[i + 1]) || ops.chainIndex(s[i + 1]) <= ops.chainIndex(s[i]))
    {
      IndexesAgreeIsPrefix(ops.chainIndex(s[i]), ops.chainIndex(s[i + 1]));
    }
  }

  // ------------------------------------------------------------- constructor

  predicate IsSignatureField(tagType: nat) {
    tagType == AggregationHashChainTagType || tagType == CalendarHashChainTagType
    || tagType == PublicationRecordInSignatureTagType || tagType == AggregationAuthenticationRecordTagType
    || tagType == CalendarAuthenticationRecordTagType || tagType == Rfc3161RecordTagType
  }

  /**
   * The typed form the constructor gives one child. Calendar hash chains,
   * publication records, calendar authentication records and RFC 3161 records
   * are kept with the children the TLV reader finds in them.
   */
  function SignatureChild(c: Codec, x: Tag): (r: Result<Tag, Error>)
    ensures !IsSignatureField(x.tagType) ==> r == VerifyUnknownTag(c, x)
  {
    if x.tagType == AggregationHashChainTagType then
      var a :- AggregationHashChainOf(c, x);
      Ok(a.tag)
    else if x.tagType == CalendarHashChainTagType then OpaqueCompositeOf(c, x, "CalendarHashChain")
    else if x.tagType == PublicationRecordInSignatureTagType then OpaqueCompositeOf(c, x, "PublicationRecordInSignature")
    else if x.tagType == AggregationAuthenticationRecordTagType then
      var a :- AuthRecordOf(c, x);
      Ok(a.tag)
    else if x.tagType == CalendarAuthenticationRecordTagType then OpaqueCompositeOf(c, x, "CalendarAuthenticationRecord")
    else if x.tagType == Rfc3161RecordTagType then OpaqueCompositeOf(c, x, "Rfc3161Record")
    else VerifyUnknownTag(c, x)
  }

  function SignatureConversion(c: Codec): Tag -> Result<Tag, Error> {
    x => SignatureChild(c, x)
  }

  /** The signature's fields and the constructor's counters while the loop runs. */
  datatype SignatureFields = SignatureFields(
    chains: seq<AggregationHashChain>,
    calendarHashChain: Option<Tag>,
    publicationRecord: Option<Tag>,
    aggregationAuthenticationRecord: Option<AggregationAuthenticationRecord>,
    calendarAuthenticationRecord: Option<Tag>,
    rfc3161Record: Option<Tag>,
    calendarChainCount: nat,
    publicationRecordCount: nat,
    calendarAuthenticationRecordCount: nat,
    rfc3161RecordCount: nat)

  const NoSignatureFields := SignatureFields([], None, None, None, None, None, 0, 0, 0, 0)

  /** One pass of the constructor's switch. */
  function SignatureStep(c: Codec, x: Tag, acc: SignatureFields): Result<(Tag, SignatureFields), Error> {
    if x.tagType == AggregationHashChainTagType then
      var a :- AggregationHashChainOf(c, x);
      Ok((a.tag, acc.(chains := acc.chains + [a])))
    else if x.tagType == AggregationAuthenticationRecordTagType then
      var a :- AuthRecordOf(c, x);
      Ok((a.tag, acc.(aggregationAuthenticationRecord := Some(a))))
    else
      var y :- SignatureChild(c, x);
      if x.tagType == CalendarHashChainTagType then
        Ok((y, acc.(calendarHashChain := Some(y), calendarChainCount := acc.calendarChainCount + 1)))
      else if x.tagType == PublicationRecordInSignatureTagType then
        Ok((y, acc.(publicationRecord := Some(y), publicationRecordCount := acc.publicationRecordCount + 1)))
      else if x.tagType == CalendarAuthenticationRecordTagType then
        Ok((y, acc.(calendarAuthenticationRecord := Some(y),
                    calendarAuthenticationRecordCount := acc.calendarAuthenticationRecordCount + 1)))
      else if x.tagType == Rfc3161RecordTagType then
        Ok((y, acc.(rfc3161Record := Some(y), rfc3161RecordCount := acc.rfc3161RecordCount + 1)))
      else Ok((y, acc))
  }

  function SignatureSteps(c: Codec): (Tag, SignatureFields) -> Result<(Tag, SignatureFields), Error> {
    (x, acc) => SignatureStep(c, x, acc)
  }

  /** The signature new KsiSignature(tag) builds, or the exception it throws. */
  function SignatureOf(c: Codec, ops: ChainOps, t: Tag): Result<SignatureParts, Error> {
    var cs :- ReadChildren(c, t);
    var _ :- CheckTagType(t, KsiSignatureTagType);
    var done :- FoldUpTo(cs, |cs|, NoSignatureFields, SignatureSteps(c));
    SignatureChecked(ops, t, done.0, done.1)
  }

  /** The count rules after the constructor's loop, then SortAggregationHashChains. */
  function SignatureChecked(ops: ChainOps, t: Tag, typed: seq<Tag>, fields: SignatureFields): Result<SignatureParts, Error> {
    if |fields.chains| == 0 then Err(Tlv(NoChainsMessage))
    else if fields.calendarChainCount > 1 then Err(Tlv(CalendarChainsMessage))
    else if fields.calendarChainCount == 0
            && (fields.publicationRecordCount != 0 || fields.calendarAuthenticationRecordCount != 0) then
      Err(Tlv(NoCalendarChainMessage))
    else if (fields.publicationRecordCount == 1 && fields.calendarAuthenticationRecordCount == 1)
            || fields.publicationRecordCount > 1 || fields.calendarAuthenticationRecordCount > 1 then
      Err(Tlv(PublicationOrAuthenticationMessage))
    else if fields.rfc3161RecordCount > 1 then Err(Tlv(Rfc3161RecordsMessage))
    else
      var sorted :- SortedChains(ops, fields.chains);
      Ok(SignatureParts(t.nonCritical, t.forward, typed, sorted, fields.calendarHashChain, fields.publicationRecord,
                        fields.aggregationAuthenticationRecord, fields.calendarAuthenticationRecord, fields.rfc3161Record))
  }

  /** The body of the constructor's loop: the switch on the type of one child. */
  method ParseSignatureChild(c: Codec, x: Tag, fields: SignatureFields) returns (r: Result<(Tag, SignatureFields), Error>)
    ensures r == SignatureStep(c, x, fields)
  {
    var next := fields;
    var typedChild: Tag;
    if x.tagType == AggregationHashChainTagType {
      var a := NewAggregationHashChain(c, x);
      if a.Err? {
        return Err(a.error);
      }
      next := next.(chains := next.chains + [a.value]);
      typedChild := a.value.tag;
    } else if x.tagType == CalendarHashChainTagType {
      var y := OpaqueCompositeOf(c, x, "CalendarHashChain");
      if y.Err? {
        return Err(y.error);
      }
      typedChild := y.value;
      next := next.(calendarHashChain := Some(typedChild), calendarChainCount := next.calendarChainCount + 1);
    } else if x.tagType == PublicationRecordInSignatureTagType {
      var y := OpaqueCompositeOf(c, x, "PublicationRecordInSignature");
      if y.Err? {
        return Err(y.error);
      }
      typedChild := y.value;
      next := next.(publicationRecord := Some(typedChild), publicationRecordCount := next.publicationRecordCount + 1);
    } else if x.tagType == AggregationAuthenticationRecordTagType {
      var a := NewAggregationAuthenticationRecord(c, x);
      if a.Err? {
        return Err(a.error);
      }
      typedChild := a.value.tag;
      next := next.(aggregationAuthenticationRecord := Some(a.value));
    } else if x.tagType == CalendarAuthenticationRecordTagType {
      var y := OpaqueCompositeOf(c, x, "CalendarAuthenticationRecord");
      if y.Err? {
        return Err(y.error);
      }
      typedChild := y.value;
      next := next.(calendarAuthenticationRecord := Some(typedChild),
                    calendarAuthenticationRecordCount := next.calendarAuthenticationRecordCount + 1);
    } else if x.tagType == Rfc3161RecordTagType {
      var y := OpaqueCompositeOf(c, x, "Rfc3161Record");
      if y.Err? {
        return Err(y.error);
      }
      typedChild := y.value;
      next := next.(rfc3161Record := Some(typedChild), rfc3161RecordCount := next.rfc3161RecordCount + 1);
    } else {
      var u := VerifyUnknownTag(c, x);
      if u.Err? {
        return Err(u.error);
      }
      typedChild := x;
    }
    r := Ok((typedChild, next));
  }

  /** The constructor's loop over the children: each child replaced by its typed form, the fields and counters filled in. */
  method ParseSignatureChildren(c: Codec, original: seq<Tag>) returns (r: Result<(seq<Tag>, SignatureFields), Error>)
    ensures r == FoldUpTo(original, |original|, NoSignatureFields, SignatureSteps(c))
  {
    var children := original;
    var fields := NoSignatureFields;
    var i := 0;
    while i < |children|
      invariant 0 <= i <= |children| == |original|
      invariant FoldUpTo(original, i, NoSignatureFields, SignatureSteps(c)) == Ok((children[..i], fields))
      invariant children[i..] == original[i..]
    {
      assert children[i] == original[i] by { assert children[i..][0] == original[i..][0]; }
      var step := ParseSignatureChild(c, children[i], fields);
      assert SignatureSteps(c)(children[i], fields) == step;
      if step.Err? {
        FoldStopsAt(original, |original|, i, NoSignatureFields, SignatureSteps(c));
        return Err(step.error);
      }
      ghost var before := children;
      children := children[i := step.value.0];
      fields := step.value.1;
      assert children[..i + 1] == before[..i] + [step.value.0];
      assert children[i + 1..] == before[i + 1..];
      i := i + 1;
    }
    assert children[..i] == children;
    r := Ok((children, fields));
  }

  /** KsiSignature(ITlvTag): the loop over the children, the count rules, then SortAggregationHashChains. */
  method NewSignatureParts(c: Codec, ops: ChainOps, t: Tag) returns (r: Result<SignatureParts, Error>)
    ensures r == SignatureOf(c, ops, t)
  {
    var read := ReadChildren(c, t);
    if read.Err? {
      return Err(read.error);
    }
    if t.tagType != KsiSignatureTagType {
      return Err(Tlv("Invalid tag type"));
    }
    var done := ParseSignatureChildren(c, read.value);
    if done.Err? {
      return Err(done.error);
    }
    var children := done.value.0;
    var fields := done.value.1;
    assert SignatureOf(c, ops, t) == SignatureChecked(ops, t, children, fields);
    if |fields.chains| == 0 {
      return Err(Tlv(NoChainsMessage));
    }
    if fields.calendarChainCount > 1 {
      return Err(Tlv(CalendarChainsMessage));
    }
    if fields.calendarChainCount == 0 && (fields.publicationRecordCount != 0 || fields.calendarAuthenticationRecordCount != 0) {
      return Err(Tlv(NoCalendarChainMessage));
    }
    if (fields.publicationRecordCount == 1 && fields.calendarAuthenticationRecordCount == 1)
       || fields.publicationRecordCount > 1 || fields.calendarAuthenticationRecordCount > 1 {
      return Err(Tlv(PublicationOrAuthenticationMessage));
    }
    if fields.rfc3161RecordCount > 1 {
      return Err(Tlv(Rfc3161RecordsMessage));
    }
    var sorted := SortAggregationHashChains(ops, fields.chains);
    if sorted.Err? {
      return Err(sorted.error);
    }
    r := Ok(SignatureParts(t.nonCritical, t.forward, children, sorted.value, fields.calendarHashChain, fields.publicationRecord,
                           fields.aggregationAuthenticationRecord, fields.calendarAuthenticationRecord, fields.rfc3161Record));
  }

  // --------------------------------------------------- constructor properties

  /** The AggregationHashChain objects built from the first n children that are chains, in order. */
  function ChainsUpTo(c: Codec, cs: seq<Tag>, n: nat): seq<AggregationHashChain>
    requires n <= |cs|
  {
    if n == 0 then []
    else
      var x := cs[n - 1];
      ChainsUpTo(c, cs, n - 1)
      + (if x.tagType == AggregationHashChainTagType && AggregationHashChainOf(c, x).Ok?
         then [AggregationHashChainOf(c, x).value] else [])
  }

  function ChainsOf(c: Codec, cs: seq<Tag>): seq<AggregationHashChain> {
    ChainsUpTo(c, cs, |cs|)
  }

  /** The AggregationAuthenticationRecord object built from a child, if there is one. */
  function AuthRecordOfLast(c: Codec, last: Option<Tag>): Option<AggregationAuthenticationRecord> {
    match last
    case None => None
    case Some(x) =>
      match AuthRecordOf(c, x)
      case Ok(a) => Some(a)
      case Err(_) => None
  }

  lemma SignatureChildKeepsHeader(c: Codec, x: Tag)
    ensures SignatureChild(c, x).Ok? ==> SameHeader(SignatureChild(c, x).value, x)
  {
    if x.tagType == AggregationHashChainTagType {
      AggregationHashChainOfSpec(c, x);
    } else if x.tagType == AggregationAuthenticationRecordTagType && AuthRecordOf(c, x).Ok? {
      AuthRecordOfShape(c, x);
    }
  }

  /** The switch converts every child as SignatureChild does, whatever the fields, and keeps its type. */
  lemma SignatureStepsConvert(c: Codec)
    ensures StepConverts(SignatureSteps(c), SignatureConversion(c))
    ensures KeepsTypes(SignatureConversion(c))
  {
    forall x: Tag, acc: SignatureFields
      ensures SignatureSteps(c)(x, acc) == SignatureStep(c, x, acc) && SignatureConversion(c)(x) == SignatureChild(c, x)
    {
    }
    forall x: Tag ensures SignatureChild(c, x).Ok? ==> SignatureChild(c, x).value.tagType == x.tagType {
      SignatureChildKeepsHeader(c, x);
    }
  }

  /** After n children each counter counts its type. */
  lemma {:induction false} SignatureUpToCounts(c: Codec, cs: seq<Tag>, n: nat)
    requires n <= |cs| && FoldUpTo(cs, n, NoSignatureFields, SignatureSteps(c)).Ok?
    ensures var fields := FoldUpTo(cs, n, NoSignatureFields, SignatureSteps(c)).value.1;
            && fields.calendarChainCount == CountUpTo(cs, n, CalendarHashChainTagType)
            && fields.publicationRecordCount == CountUpTo(cs, n, PublicationRecordInSignatureTagType)
            && fields.calendarAuthenticationRecordCount == CountUpTo(cs, n, CalendarAuthenticationRecordTagType)
            && fields.rfc3161RecordCount == CountUpTo(cs, n, Rfc3161RecordTagType)
  {
    if n > 0 {
      SignatureUpToCounts(c, cs, n - 1);
      var acc := FoldUpTo(cs, n - 1, NoSignatureFields, SignatureSteps(c)).value.1;
      assert SignatureSteps(c)(cs[n - 1], acc) == SignatureStep(c, cs[n - 1], acc);
    }
  }

  /** After n children the calendar hash chain and publication record fields hold the typed last child of their type. */
  lemma {:induction false} SignatureUpToCalendarFields(c: Codec, cs: seq<Tag>, n: nat)
    requires n <= |cs| && FoldUpTo(cs, n, NoSignatureFields, SignatureSteps(c)).Ok?
    ensures var fields := FoldUpTo(cs, n, NoSignatureFields, SignatureSteps(c)).value.1;
            && fields.calendarHashChain == Converted(SignatureConversion(c), LastUpTo(cs, n, CalendarHashChainTagType))
            && fields.publicationRecord == Converted(SignatureConversion(c), LastUpTo(cs, n, PublicationRecordInSignatureTagType))
  {
    if n > 0 {
      SignatureUpToCalendarFields(c, cs, n - 1);
      var acc := FoldUpTo(cs, n - 1, NoSignatureFields, SignatureSteps(c)).value.1;
      assert SignatureSteps(c)(cs[n - 1], acc) == SignatureStep(c, cs[n - 1], acc);
      assert SignatureConversion(c)(cs[n - 1]) == SignatureChild(c, cs[n - 1]);
    }
  }

  /** After n children the calendar authentication record and RFC 3161 record fields hold the typed last child of their type. */
  lemma {:induction false} SignatureUpToRecordFields(c: Codec, cs: seq<Tag>, n: nat)
    requires n <= |cs| && FoldUpTo(cs, n, NoSignatureFields, SignatureSteps(c)).Ok?
    ensures var fields := FoldUpTo(cs, n, NoSignatureFields, SignatureSteps(c)).value.1;
            && fields.calendarAuthenticationRecord
               == Converted(SignatureConversion(c), LastUpTo(cs, n, CalendarAuthenticationRecordTagType))
            && fields.rfc3161Record == Converted(SignatureConversion(c), LastUpTo(cs, n, Rfc3161RecordTagType))
  {
    if n > 0 {
      SignatureUpToRecordFields(c, cs, n - 1);
      var acc := FoldUpTo(cs, n - 1, NoSignatureFields, SignatureSteps(c)).value.1;
      assert SignatureSteps(c)(cs[n - 1], acc) == SignatureStep(c, cs[n - 1], acc);
      assert SignatureConversion(c)(cs[n - 1]) == SignatureChild(c, cs[n - 1]);
    }
  }

  /** After n children the chain list holds a chain per chain child, in order, and the last authentication record is kept. */
  lemma {:induction false} SignatureUpToChains(c: Codec, cs: seq<Tag>, n: nat)
    requires n <= |cs| && FoldUpTo(cs, n, NoSignatureFields, SignatureSteps(c)).Ok?
    ensures var fields := FoldUpTo(cs, n, NoSignatureFields, SignatureSteps(c)).value.1;
            && fields.chains == ChainsUpTo(c, cs, n)
            && fields.aggregationAuthenticationRecord == AuthRecordOfLast(c, LastUpTo(cs, n, AggregationAuthenticationRecordTagType))
  {
    if n > 0 {
      SignatureUpToChains(c, cs, n - 1);
      var acc := FoldUpTo(cs, n - 1, NoSignatureFields, SignatureSteps(c)).value.1;
      assert SignatureSteps(c)(cs[n - 1], acc) == SignatureStep(c, cs[n - 1], acc);
    }
  }

  /** One chain per chain child, each built from that child, in order. */
  lemma {:induction false} ChainsUpToSpec(c: Codec, cs: seq<Tag>, n: nat)
    requires n <= |cs|
    requires forall k :: 0 <= k < n ==> SignatureChild(c, cs[k]).Ok?
    ensures |ChainsUpTo(c, cs, n)| == CountUpTo(cs, n, AggregationHashChainTagType)
            == |AllUpTo(cs, n, AggregationHashChainTagType)|
    ensures forall k :: 0 <= k < |ChainsUpTo(c, cs, n)| ==>
              Ok(ChainsUpTo(c, cs, n)[k].tag) == SignatureChild(c, AllUpTo(cs, n, AggregationHashChainTagType)[k])
  {
    if n > 0 {
      ChainsUpToSpec(c, cs, n - 1);
      AllUpToSpec(cs, n, AggregationHashChainTagType);
      var x := cs[n - 1];
      assert SignatureChild(c, x).Ok?;
      if x.tagType == AggregationHashChainTagType {
        assert AllUpTo(cs, n, AggregationHashChainTagType) == AllUpTo(cs, n - 1, AggregationHashChainTagType) + [x];
        assert ChainsUpTo(c, cs, n) == ChainsUpTo(c, cs, n - 1) + [AggregationHashChainOf(c, x).value];
      } else {
        assert AllUpTo(cs, n, AggregationHashChainTagType) == AllUpTo(cs, n - 1, AggregationHashChainTagType);
        assert ChainsUpTo(c, cs, n) == ChainsUpTo(c, cs, n - 1);
      }
    }
  }

  /** The fields and counters the loop leaves when every child converts, in terms of the children. */
  ghost function SignatureFieldsOf(c: Codec, cs: seq<Tag>): SignatureFields {
    var f := SignatureConversion(c);
    SignatureFields(
      ChainsOf(c, cs),
      Converted(f, LastOfType(cs, CalendarHashChainTagType)),
      Converted(f, LastOfType(cs, PublicationRecordInSignatureTagType)),
      AuthRecordOfLast(c, LastOfType(cs, AggregationAuthenticationRecordTagType)),
      Converted(f, LastOfType(cs, CalendarAuthenticationRecordTagType)),
      Converted(f, LastOfType(cs, Rfc3161RecordTagType)),
      CountType(cs, CalendarHashChainTagType),
      CountType(cs, PublicationRecordInSignatureTagType),
      CountType(cs, CalendarAuthenticationRecordTagType),
      CountType(cs, Rfc3161RecordTagType))
  }

  /** The whole loop throws exactly when converting the children throws; otherwise it leaves SignatureFieldsOf. */
  lemma SignatureLoop(c: Codec, cs: seq<Tag>)
    ensures FoldUpTo(cs, |cs|, NoSignatureFields, SignatureSteps(c)).Ok? <==> ConvertAll(cs, SignatureConversion(c)).Ok?
    ensures FoldUpTo(cs, |cs|, NoSignatureFields, SignatureSteps(c)).Err? ==>
              ConvertAll(cs, SignatureConversion(c)) == Err(FoldUpTo(cs, |cs|, NoSignatureFields, SignatureSteps(c)).error)
    ensures ConvertAll(cs, SignatureConversion(c)).Ok? ==>
              FoldUpTo(cs, |cs|, NoSignatureFields, SignatureSteps(c))
              == Ok((ConvertAll(cs, SignatureConversion(c)).value, SignatureFieldsOf(c, cs)))
  {
    var f := SignatureConversion(c);
    SignatureStepsConvert(c);
    FoldConverts(cs, |cs|, NoSignatureFields, SignatureSteps(c), f);
    if ConvertAll(cs, f).Ok? {
      SignatureUpToCounts(c, cs, |cs|);
      SignatureUpToCalendarFields(c, cs, |cs|);
      SignatureUpToRecordFields(c, cs, |cs|);
      SignatureUpToChains(c, cs, |cs|);
    }
  }

  /** The constructor after the tag type check: the conversion of the children, then the rules on what the loop left. */
  lemma SignatureOfIsChecked(c: Codec, ops: ChainOps, t: Tag)
    requires ReadChildren(c, t).Ok? && t.tagType == KsiSignatureTagType
    ensures var cs := ReadChildren(c, t).value;
            var f := SignatureConversion(c);
            SignatureOf(c, ops, t) == if ConvertAll(cs, f).Err? then Err(ConvertAll(cs, f).error)
                                      else SignatureChecked(ops, t, ConvertAll(cs, f).value, SignatureFieldsOf(c, cs))
  {
    SignatureLoop(c, ReadChildren(c, t).value);
  }

  /**
   * When the constructor throws, and what: the TLV reader's and the tag type
   * check's exceptions, the first child that does not convert, then the count
   * rules in the order the constructor checks them, then the chain index
   * mismatch. The number of aggregation authentication records is not checked.
   */
  lemma SignatureOfErrors(c: Codec, ops: ChainOps, t: Tag)
    ensures ReadChildren(c, t).Err? ==> SignatureOf(c, ops, t) == Err(ReadChildren(c, t).error)
    ensures ReadChildren(c, t).Ok? && t.tagType != KsiSignatureTagType ==>
              SignatureOf(c, ops, t) == Err(Tlv("Invalid tag type"))
    ensures ReadChildren(c, t).Ok? && t.tagType == KsiSignatureTagType ==>
              var cs := ReadChildren(c, t).value;
              var f := SignatureConversion(c);
              var chains := CountType(cs, AggregationHashChainTagType);
              var calendar := CountType(cs, CalendarHashChainTagType);
              var publication := CountType(cs, PublicationRecordInSignatureTagType);
              var authentication := CountType(cs, CalendarAuthenticationRecordTagType);
              var rfc3161 := CountType(cs, Rfc3161RecordTagType);
              && (ConvertAll(cs, f).Err? ==> SignatureOf(c, ops, t) == Err(ConvertAll(cs, f).error))
              && (ConvertAll(cs, f).Ok? && chains == 0 ==> SignatureOf(c, ops, t) == Err(Tlv(NoChainsMessage)))
              && (ConvertAll(cs, f).Ok? && chains > 0 && calendar > 1 ==>
                    SignatureOf(c, ops, t) == Err(Tlv(CalendarChainsMessage)))
              && (ConvertAll(cs, f).Ok? && chains > 0 && calendar == 0 && publication + authentication > 0 ==>
                    SignatureOf(c, ops, t) == Err(Tlv(NoCalendarChainMessage)))
              && (ConvertAll(cs, f).Ok? && chains > 0 && calendar == 1 && publication + authentication > 1 ==>
                    SignatureOf(c, ops, t) == Err(Tlv(PublicationOrAuthenticationMessage)))
              && (ConvertAll(cs, f).Ok? && chains > 0 && calendar <= 1 && publication + authentication <= calendar
                  && rfc3161 > 1 ==>
                    SignatureOf(c, ops, t) == Err(Tlv(Rfc3161RecordsMessage)))
              && (ConvertAll(cs, f).Ok? && chains > 0 && calendar <= 1 && publication + authentication <= calendar
                  && rfc3161 <= 1 && !IndexesConsistent(ops, SortChains(ops.compare, ChainsOf(c, cs))) ==>
                    SignatureOf(c, ops, t) == Err(Tlv(ChainIndexMismatchMessage)))
              && (SignatureOf(c, ops, t).Ok? <==>
                    ConvertAll(cs, f).Ok? && chains > 0 && calendar <= 1 && publication + authentication <= calendar
                    && rfc3161 <= 1 && IndexesConsistent(ops, SortChains(ops.compare, ChainsOf(c, cs))))
  {
    if ReadChildren(c, t).Ok? && t.tagType == KsiSignatureTagType {
      var cs := ReadChildren(c, t).value;
      SignatureOfIsChecked(c, ops, t);
      if ConvertAll(cs, SignatureConversion(c)).Ok? {
        SignatureChainCount(c, cs);
      }
    }
  }

  /** When every child converts, there is one chain per chain child. */
  lemma SignatureChainCount(c: Codec, cs: seq<Tag>)
    requires ConvertAll(cs, SignatureConversion(c)).Ok?
    ensures |ChainsOf(c, cs)| == CountType(cs, AggregationHashChainTagType) == |AllOfType(cs, AggregationHashChainTagType)|
    ensures forall k :: 0 <= k < |ChainsOf(c, cs)| ==>
              Ok(ChainsOf(c, cs)[k].tag) == SignatureChild(c, AllOfType(cs, AggregationHashChainTagType)[k])
  {
    ConvertUpToSpec(cs, |cs|, SignatureConversion(c));
    forall k | 0 <= k < |cs| ensures SignatureChild(c, cs[k]).Ok? {
      assert SignatureConversion(c)(cs[k]).Ok?;
    }
    ChainsUpToSpec(c, cs, |cs|);
  }

  /**
   * A signature that is built keeps the tag's header and its typed children,
   * one per child; its chains are the chains built from the chain children,
   * reordered by the ordering (and sorted by it when it is consistent), and
   * each chain's tag is one of the typed chain children.
   */
  lemma SignatureOfChains(c: Codec, ops: ChainOps, t: Tag)
    requires SignatureOf(c, ops, t).Ok?
    ensures SignatureOf(c, ops, t).value.nonCritical == t.nonCritical
    ensures SignatureOf(c, ops, t).value.forward == t.forward
    ensures ConvertAll(ReadChildren(c, t).value, SignatureConversion(c)) == Ok(SignatureOf(c, ops, t).value.children)
    ensures multiset(SignatureOf(c, ops, t).value.chains) == multiset(ChainsOf(c, ReadChildren(c, t).value))
    ensures |SignatureOf(c, ops, t).value.chains| == |ChainsOf(c, ReadChildren(c, t).value)|
            == |AllOfType(SignatureOf(c, ops, t).value.children, AggregationHashChainTagType)|
            == CountType(ReadChildren(c, t).value, AggregationHashChainTagType) > 0
    ensures forall k :: 0 <= k < |ChainsOf(c, ReadChildren(c, t).value)| ==>
              ChainsOf(c, ReadChildren(c, t).value)[k].tag
              == AllOfType(SignatureOf(c, ops, t).value.children, AggregationHashChainTagType)[k]
    ensures ConsistentComparer(ops.compare) ==> SortedBy(ops.compare, SignatureOf(c, ops, t).value.chains)
  {
    var cs := ReadChildren(c, t).value;
    var f := SignatureConversion(c);
    SignatureOfIsChecked(c, ops, t);
    SignatureOfErrors(c, ops, t);
    SignatureChainCount(c, cs);
    SignatureStepsConvert(c);
    ConvertAllInPlace(cs, f, AggregationHashChainTagType);
    if ConsistentComparer(ops.compare) {
      SortedChainsSpec(ops, ChainsOf(c, cs));
    }
  }

  /**
   * The single records of a built signature are the typed last children of
   * their types; there is a calendar hash chain whenever there is a
   * publication record or a calendar authentication record, never both of
   * those, at most one RFC 3161 record, and the signature is extended exactly
   * when it has one publication record child.
   */
  lemma SignatureOfRecords(c: Codec, ops: ChainOps, t: Tag)
    requires SignatureOf(c, ops, t).Ok?
    ensures var cs := ReadChildren(c, t).value;
            var r := SignatureOf(c, ops, t).value;
            && r.calendarHashChain == LastOfType(r.children, CalendarHashChainTagType)
            && r.publicationRecord == LastOfType(r.children, PublicationRecordInSignatureTagType)
            && r.calendarAuthenticationRecord == LastOfType(r.children, CalendarAuthenticationRecordTagType)
            && r.rfc3161Record == LastOfType(r.children, Rfc3161RecordTagType)
            && (r.calendarHashChain.Some? <==> CountType(cs, CalendarHashChainTagType) == 1)
            && (r.publicationRecord.Some? <==> CountType(cs, PublicationRecordInSignatureTagType) == 1)
            && (r.calendarAuthenticationRecord.Some? <==> CountType(cs, CalendarAuthenticationRecordTagType) == 1)
            && (r.rfc3161Record.Some? <==> CountType(cs, Rfc3161RecordTagType) == 1)
            && (r.publicationRecord.Some? || r.calendarAuthenticationRecord.Some? ==> r.calendarHashChain.Some?)
            && !(r.publicationRecord.Some? && r.calendarAuthenticationRecord.Some?)
  {
    var cs := ReadChildren(c, t).value;
    var f := SignatureConversion(c);
    SignatureOfIsChecked(c, ops, t);
    SignatureOfErrors(c, ops, t);
    SignatureStepsConvert(c);
    ConvertAllInPlace(cs, f, CalendarHashChainTagType);
    ConvertAllInPlace(cs, f, PublicationRecordInSignatureTagType);
    ConvertAllInPlace(cs, f, CalendarAuthenticationRecordTagType);
    ConvertAllInPlace(cs, f, Rfc3161RecordTagType);
    LastUpToSpec(cs, |cs|, CalendarHashChainTagType);
    LastUpToSpec(cs, |cs|, PublicationRecordInSignatureTagType);
    LastUpToSpec(cs, |cs|, CalendarAuthenticationRecordTagType);
    LastUpToSpec(cs, |cs|, Rfc3161RecordTagType);
  }

  /**
   * The aggregation authentication record of a built signature is the record
   * built from the last such child, and there is one exactly when there is
   * such a child.
   */
  lemma SignatureOfAuthRecord(c: Codec, ops: ChainOps, t: Tag)
    requires SignatureOf(c, ops, t).Ok?
    ensures var cs := ReadChildren(c, t).value;
            var r := SignatureOf(c, ops, t).value;
            && (r.aggregationAuthenticationRecord.Some? <==> LastOfType(cs, AggregationAuthenticationRecordTagType).Some?)
            && (LastOfType(cs, AggregationAuthenticationRecordTagType).Some? <==>
                  CountType(cs, AggregationAuthenticationRecordTagType) > 0)
            && (r.aggregationAuthenticationRecord.Some? ==>
                  && AuthRecordOf(c, LastOfType(cs, AggregationAuthenticationRecordTagType).value)
                     == Ok(r.aggregationAuthenticationRecord.value)
                  && Some(r.aggregationAuthenticationRecord.value.tag)
                     == LastOfType(r.children, AggregationAuthenticationRecordTagType))
  {
    var cs := ReadChildren(c, t).value;
    SignatureOfIsChecked(c, ops, t);
    AuthRecordOfLastSpec(c, cs);
  }

  /** The record kept from the last aggregation authentication record child, in terms of the children alone. */
  lemma AuthRecordOfLastSpec(c: Codec, cs: seq<Tag>)
    requires ConvertAll(cs, SignatureConversion(c)).Ok?
    ensures var last := LastOfType(cs, AggregationAuthenticationRecordTagType);
            var a := AuthRecordOfLast(c, last);
            && (a.Some? <==> last.Some?)
            && (last.Some? <==> CountType(cs, AggregationAuthenticationRecordTagType) > 0)
            && (a.Some? ==>
                  && AuthRecordOf(c, last.value) == Ok(a.value)
                  && Some(a.value.tag)
                     == LastOfType(ConvertAll(cs, SignatureConversion(c)).value, AggregationAuthenticationRecordTagType))
  {
    var f := SignatureConversion(c);
    SignatureStepsConvert(c);
    ConvertAllInPlace(cs, f, AggregationAuthenticationRecordTagType);
    LastUpToSpec(cs, |cs|, AggregationAuthenticationRecordTagType);
    ConvertUpToSpec(cs, |cs|, f);
    var last := LastOfType(cs, AggregationAuthenticationRecordTagType);
    if last.Some? {
      var x := last.value;
      assert f(x) == SignatureChild(c, x);
      assert f(x).Ok?;
    }
  }
}
