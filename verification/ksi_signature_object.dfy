/**
 * The KsiSignature object (ksi-net-api/Signature/KsiSignature.cs) once it is
 * built: the aggregation hash chain root hash and the identity, each computed
 * by a loop over the chains and cached in a field, the getters, and Extend,
 * which rewrites the signature's children around a new calendar hash chain and
 * publication record and parses the result as a new signature.
 */
module KsiSignatureObjects {
  import opened Wrappers
  import opened Exceptions
  import opened Hashing
  import opened Parser
  import opened Children
  import opened Constants
  import opened AggregationHashChains
  import opened KsiSignatures

  // ------------------------------------------------------------- root hash

  /** The result after the first n chains, each chain given what the one before it returned. */
  function OutputUpTo(ops: ChainOps, chains: seq<AggregationHashChain>, n: nat, start: ChainResult): ChainResult
    requires n <= |chains|
  {
    if n == 0 then start else ops.outputHash(chains[n - 1], OutputUpTo(ops, chains, n - 1, start))
  }

  /** Reference definition: the first chain takes the start, and the rest take its result. */
  function PassThrough(ops: ChainOps, chains: seq<AggregationHashChain>, start: ChainResult): ChainResult
    decreases |chains|
  {
    if |chains| == 0 then start else PassThrough(ops, chains[1..], ops.outputHash(chains[0], start))
  }

  /** The loop's result after n chains, passed through the remaining chains, is the result of passing the start through all of them. */
  lemma {:induction false} OutputUpToPasses(ops: ChainOps, chains: seq<AggregationHashChain>, n: nat, start: ChainResult)
    requires n <= |chains|
    ensures PassThrough(ops, chains[n..], OutputUpTo(ops, chains, n, start)) == PassThrough(ops, chains, start)
  {
    if n == 0 {
      assert chains[0..] == chains;
    } else {
      OutputUpToPasses(ops, chains, n - 1, start);
      assert chains[n - 1..][1..] == chains[n..];
    }
  }

  /** GetAggregationHashChainRootHash: the first chain's input hash at the given level, passed through every chain in order. */
  function RootHash(ops: ChainOps, chains: seq<AggregationHashChain>, level: nat): DataHash
    requires |chains| > 0
  {
    OutputUpTo(ops, chains, |chains|, ChainResult(level, ops.inputHash(chains[0]))).hash
  }

  /** The root hash is the hash the last chain returns when the chains are applied from the first to the last. */
  lemma RootHashPasses(ops: ChainOps, chains: seq<AggregationHashChain>, level: nat)
    requires |chains| > 0
    ensures RootHash(ops, chains, level) == PassThrough(ops, chains, ChainResult(level, ops.inputHash(chains[0]))).hash
  {
    OutputUpToPasses(ops, chains, |chains|, ChainResult(level, ops.inputHash(chains[0])));
  }

  /** The loop of GetAggregationHashChainRootHash. */
  method ComputeRootHash(ops: ChainOps, chains: seq<AggregationHashChain>, level: nat) returns (h: DataHash)
    requires |chains| > 0
    ensures h == RootHash(ops, chains, level)
  {
    var start := ChainResult(level, ops.inputHash(chains[0]));
    var lastResult := start;
    for i := 0 to |chains|
      invariant lastResult == OutputUpTo(ops, chains, i, start)
    {
      lastResult := ops.outputHash(chains[i], lastResult);
    }
    h := lastResult.hash;
  }

  // -------------------------------------------------------------- identity

  const IdentitySeparator := " :: "

  /** GetIdentity after the first n chains: a non-empty chain identity goes in front, after a separator when there is one already. */
  function IdentityUpTo(ops: ChainOps, chains: seq<AggregationHashChain>, n: nat): string
    requires n <= |chains|
  {
    if n == 0 then ""
    else
      var identity := IdentityUpTo(ops, chains, n - 1);
      var id := ops.chainIdentity(chains[n - 1]);
      if |id| <= 0 then identity
      else if |identity| > 0 then id + (IdentitySeparator + identity)
      else id + identity
  }

  function IdentityOf(ops: ChainOps, chains: seq<AggregationHashChain>): string {
    IdentityUpTo(ops, chains, |chains|)
  }

  /** The non-empty chain identities among the first n chains, in chain order. */
  function NonEmptyIdentities(ops: ChainOps, chains: seq<AggregationHashChain>, n: nat): seq<string>
    requires n <= |chains|
  {
    if n == 0 then []
    else
      var id := ops.chainIdentity(chains[n - 1]);
      NonEmptyIdentities(ops, chains, n - 1) + (if |id| > 0 then [id] else [])
  }

  function Reversed(s: seq<string>): seq<string> {
    if |s| == 0 then [] else [s[|s| - 1]] + Reversed(s[..|s| - 1])
  }

  /** The strings one after the other with the separator between each two. */
  function Join(separator: string, parts: seq<string>): string {
    if |parts| == 0 then ""
    else if |parts| == 1 then parts[0]
    else parts[0] + separator + Join(separator, parts[1..])
  }

  /**
   * The identity is the non-empty chain identities from the last chain to
   * the first, joined by " :: "; it is empty exactly when every chain
   * identity is.
   */
  lemma {:induction false} IdentityIsJoin(ops: ChainOps, chains: seq<AggregationHashChain>, n: nat)
    requires n <= |chains|
    ensures IdentityUpTo(ops, chains, n) == Join(IdentitySeparator, Reversed(NonEmptyIdentities(ops, chains, n)))
    ensures |IdentityUpTo(ops, chains, n)| == 0 <==> |NonEmptyIdentities(ops, chains, n)| == 0
  {
    if n > 0 {
      IdentityIsJoin(ops, chains, n - 1);
      var before := NonEmptyIdentities(ops, chains, n - 1);
      var id := ops.chainIdentity(chains[n - 1]);
      if |id| > 0 {
        assert (before + [id])[..|before|] == before;
        assert Reversed(before + [id]) == [id] + Reversed(before);
        var rest := Reversed(before);
        assert ([id] + rest)[1..] == rest;
        if |before| > 0 {
          assert |rest| > 0;
          assert Join(IdentitySeparator, [id] + rest) == id + IdentitySeparator + Join(IdentitySeparator, rest);
          assert id + (IdentitySeparator + IdentityUpTo(ops, chains, n - 1)) == id + IdentitySeparator + IdentityUpTo(ops, chains, n - 1);
        } else {
          assert rest == [];
          assert Join(IdentitySeparator, [id] + rest) == id;
          assert id + IdentityUpTo(ops, chains, n - 1) == id;
        }
      } else {
        assert NonEmptyIdentities(ops, chains, n) == before;
      }
    }
  }

  /** The identity is empty exactly when no chain has a non-empty identity. */
  lemma {:induction false} IdentityEmpty(ops: ChainOps, chains: seq<AggregationHashChain>, n: nat)
    requires n <= |chains|
    ensures |IdentityUpTo(ops, chains, n)| == 0 <==> forall k :: 0 <= k < n ==> |ops.chainIdentity(chains[k])| == 0
  {
    if n > 0 {
      IdentityEmpty(ops, chains, n - 1);
    }
  }

  /** The loop of GetIdentity. */
  method GetIdentity(ops: ChainOps, chains: seq<AggregationHashChain>) returns (identity: string)
    ensures identity == IdentityOf(ops, chains)
  {
    identity := "";
    for i := 0 to |chains|
      invariant identity == IdentityUpTo(ops, chains, i)
    {
      var id := ops.chainIdentity(chains[i]);
      if |id| <= 0 {
        continue;
      }
      if |identity| > 0 {
        identity := IdentitySeparator + identity;
      }
      identity := id + identity;
    }
  }

  // ---------------------------------------------------------------- extend

  /** What Extend writes for the first n children: the new calendar hash chain for each calendar hash chain, nothing for publication records and calendar authentication records, every other child as it is. */
  function ExtendedUpTo(children: seq<Tag>, n: nat, calendarHashChain: Tag): seq<Tag>
    requires n <= |children|
  {
    if n == 0 then []
    else
      var x := children[n - 1];
      ExtendedUpTo(children, n - 1, calendarHashChain)
      + (if x.tagType == CalendarHashChainTagType then [calendarHashChain]
         else if x.tagType == CalendarAuthenticationRecordTagType || x.tagType == PublicationRecordInSignatureTagType then []
         else [x])
  }

  /** Everything Extend writes: the rewritten children, then the publication record if there is one. */
  function ExtendedChildren(children: seq<Tag>, calendarHashChain: Tag, publicationRecord: Option<Tag>): seq<Tag> {
    ExtendedUpTo(children, |children|, calendarHashChain) + (if publicationRecord.Some? then [publicationRecord.value] else [])
  }

  /** Extend's writing loop. */
  method WriteExtendedChildren(children: seq<Tag>, calendarHashChain: Tag, publicationRecord: Option<Tag>) returns (written: seq<Tag>)
    ensures written == ExtendedChildren(children, calendarHashChain, publicationRecord)
  {
    written := [];
    for i := 0 to |children|
      invariant written == ExtendedUpTo(children, i, calendarHashChain)
    {
      var childTag := children[i];
      if childTag.tagType == CalendarHashChainTagType {
        written := written + [calendarHashChain];
      } else if childTag.tagType == CalendarAuthenticationRecordTagType || childTag.tagType == PublicationRecordInSignatureTagType {
      } else {
        written := written + [childTag];
      }
    }
    if publicationRecord.Some? {
      written := written + [publicationRecord.value];
    }
  }

  /**
   * The rewritten children hold no calendar authentication record and no
   * publication record, as many calendar hash chains as before (each of them
   * the new one), and the children of every other type unchanged and in order.
   */
  lemma {:induction false} ExtendedUpToTypes(children: seq<Tag>, n: nat, calendarHashChain: Tag, t: nat)
    requires n <= |children| && calendarHashChain.tagType == CalendarHashChainTagType
    ensures CountType(ExtendedUpTo(children, n, calendarHashChain), CalendarAuthenticationRecordTagType) == 0
    ensures CountType(ExtendedUpTo(children, n, calendarHashChain), PublicationRecordInSignatureTagType) == 0
    ensures CountType(ExtendedUpTo(children, n, calendarHashChain), CalendarHashChainTagType)
            == CountUpTo(children, n, CalendarHashChainTagType)
    ensures t != CalendarHashChainTagType && t != CalendarAuthenticationRecordTagType && t != PublicationRecordInSignatureTagType ==>
              AllOfType(ExtendedUpTo(children, n, calendarHashChain), t) == AllUpTo(children, n, t)
    ensures forall k :: 0 <= k < |ExtendedUpTo(children, n, calendarHashChain)|
                        && ExtendedUpTo(children, n, calendarHashChain)[k].tagType == CalendarHashChainTagType ==>
              ExtendedUpTo(children, n, calendarHashChain)[k] == calendarHashChain
  {
    if n > 0 {
      ExtendedUpToTypes(children, n - 1, calendarHashChain, t);
      var before := ExtendedUpTo(children, n - 1, calendarHashChain);
      var x := children[n - 1];
      if x.tagType == CalendarHashChainTagType {
        TypeSnoc(before, calendarHashChain, CalendarAuthenticationRecordTagType);
        TypeSnoc(before, calendarHashChain, PublicationRecordInSignatureTagType);
        TypeSnoc(before, calendarHashChain, CalendarHashChainTagType);
        TypeSnoc(before, calendarHashChain, t);
      } else if !(x.tagType == CalendarAuthenticationRecordTagType || x.tagType == PublicationRecordInSignatureTagType) {
        TypeSnoc(before, x, CalendarAuthenticationRecordTagType);
        TypeSnoc(before, x, PublicationRecordInSignatureTagType);
        TypeSnoc(before, x, CalendarHashChainTagType);
        TypeSnoc(before, x, t);
      } else {
        assert ExtendedUpTo(children, n, calendarHashChain) == before;
      }
    }
  }

  /** Everything Extend writes: no calendar authentication record, a publication record exactly when one is given, the calendar hash chains counted as before, and the children of every other type unchanged. */
  lemma ExtendedChildrenTypes(children: seq<Tag>, calendarHashChain: Tag, publicationRecord: Option<Tag>, t: nat)
    requires calendarHashChain.tagType == CalendarHashChainTagType
    requires publicationRecord.Some? ==> publicationRecord.value.tagType == PublicationRecordInSignatureTagType
    ensures var written := ExtendedChildren(children, calendarHashChain, publicationRecord);
            && CountType(written, CalendarAuthenticationRecordTagType) == 0
            && CountType(written, PublicationRecordInSignatureTagType) == (if publicationRecord.Some? then 1 else 0)
            && CountType(written, CalendarHashChainTagType) == CountType(children, CalendarHashChainTagType)
            && ((t != CalendarHashChainTagType && t != CalendarAuthenticationRecordTagType
                 && t != PublicationRecordInSignatureTagType) ==> AllOfType(written, t) == AllOfType(children, t))
  {
    ExtendedUpToTypes(children, |children|, calendarHashChain, t);
    var rewritten := ExtendedUpTo(children, |children|, calendarHashChain);
    if publicationRecord.Some? {
      TypeSnoc(rewritten, publicationRecord.value, CalendarAuthenticationRecordTagType);
      TypeSnoc(rewritten, publicationRecord.value, PublicationRecordInSignatureTagType);
      TypeSnoc(rewritten, publicationRecord.value, CalendarHashChainTagType);
      TypeSnoc(rewritten, publicationRecord.value, t);
    } else {
      assert ExtendedChildren(children, calendarHashChain, publicationRecord) == rewritten;
    }
  }

  /** The raw signature tag Extend parses: the written children as the value of a KSI signature tag with both flags clear. */
  function ExtendedTag(c: Codec, written: seq<Tag>): Tag {
    Tag(KsiSignatureTagType, false, false, Raw(c.writeTags(written)))
  }

  /**
   * Extend(calendarHashChain, publicationRecord): throws on a null calendar
   * hash chain; otherwise parses the rewritten children as a new signature and
   * runs the internal verification policy on it with this signature's first
   * chain's input hash.
   */
  function ExtendOf(c: Codec, ops: ChainOps, parts: SignatureParts, calendarHashChain: Option<Tag>,
                    publicationRecord: Option<Tag>): (r: Result<SignatureParts, Error>)
    requires |parts.chains| > 0
    ensures calendarHashChain.None? ==> r == Err(Ksi(NullCalendarChainMessage))
    ensures r.Ok? ==> SignatureOf(c, ops, ExtendedTag(c, ExtendedChildren(parts.children, calendarHashChain.value, publicationRecord))) == r
                      && ops.internalVerification(r.value, ops.inputHash(parts.chains[0])).None?
    ensures calendarHashChain.Some? ==>
              var parsed := SignatureOf(c, ops, ExtendedTag(c, ExtendedChildren(parts.children, calendarHashChain.value, publicationRecord)));
              && (parsed.Err? ==> r == Err(parsed.error))
              && (parsed.Ok? && ops.internalVerification(parsed.value, ops.inputHash(parts.chains[0])).None? ==> r == parsed)
              && (parsed.Ok? && ops.internalVerification(parsed.value, ops.inputHash(parts.chains[0])).Some? ==>
                    r == Err(SignatureFailure(InternalVerificationMessage
                                              + ops.internalVerification(parsed.value, ops.inputHash(parts.chains[0])).value)))
  {
    if calendarHashChain.None? then Err(Ksi(NullCalendarChainMessage))
    else
      var written := ExtendedChildren(parts.children, calendarHashChain.value, publicationRecord);
      var signature :- SignatureOf(c, ops, ExtendedTag(c, written));
      match ops.internalVerification(signature, ops.inputHash(parts.chains[0]))
      case Some(error) => Err(SignatureFailure(InternalVerificationMessage + error))
      case None => Ok(signature)
  }

  /**
   * When the TLV reader reads back what the writer wrote, an extended
   * signature has no calendar authentication record, has a publication record
   * exactly when one was given, has a calendar hash chain exactly when this
   * one had one, and keeps the aggregation hash chain children; extending to a
   * publication therefore needs a calendar hash chain.
   */
  lemma ExtendOfRecords(c: Codec, ops: ChainOps, parts: SignatureParts, calendarHashChain: Tag, publicationRecord: Option<Tag>)
    requires |parts.chains| > 0
    requires calendarHashChain.tagType == CalendarHashChainTagType
    requires publicationRecord.Some? ==> publicationRecord.value.tagType == PublicationRecordInSignatureTagType
    requires var written := ExtendedChildren(parts.children, calendarHashChain, publicationRecord);
             c.readTags(c.writeTags(written)) == Some(written)
    requires ExtendOf(c, ops, parts, Some(calendarHashChain), publicationRecord).Ok?
    ensures var r := ExtendOf(c, ops, parts, Some(calendarHashChain), publicationRecord).value;
            && r.calendarAuthenticationRecord.None?
            && (r.publicationRecord.Some? <==> publicationRecord.Some?)
            && (r.calendarHashChain.Some? <==> CountType(parts.children, CalendarHashChainTagType) == 1)
            && (publicationRecord.Some? ==> CountType(parts.children, CalendarHashChainTagType) == 1)
            && !r.nonCritical && !r.forward
    ensures var written := ExtendedChildren(parts.children, calendarHashChain, publicationRecord);
            AllOfType(written, AggregationHashChainTagType) == AllOfType(parts.children, AggregationHashChainTagType)
  {
    var written := ExtendedChildren(parts.children, calendarHashChain, publicationRecord);
    var t := ExtendedTag(c, written);
    assert ReadChildren(c, t) == Ok(written);
    ExtendedChildrenTypes(parts.children, calendarHashChain, publicationRecord, AggregationHashChainTagType);
    SignatureOfRecords(c, ops, t);
    SignatureOfChains(c, ops, t);
  }

  // ------------------------------------------------------------ the object

  /** A KsiSignature: what its constructor built, and the two values it caches. */
  class KsiSignature {
    const ops: ChainOps
    const parts: SignatureParts
    var identity: Option<string>     // _identity
    var rootHash: Option<DataHash>   // _aggregationHashChainRootHash
    ghost var rootLevel: nat         // the level the cached root hash was computed for

    /** There is a chain, and each cached value is the value it caches. */
    ghost predicate Valid()
      reads this
    {
      && |parts.chains| > 0
      && (identity.Some? ==> identity.value == IdentityOf(ops, parts.chains))
      && (rootHash.Some? ==> rootHash.value == RootHash(ops, parts.chains, rootLevel))
    }

    constructor FromParts(ops: ChainOps, parts: SignatureParts)
      requires |parts.chains| > 0
      ensures Valid() && this.ops == ops && this.parts == parts && identity.None? && rootHash.None?
    {
      this.ops := ops;
      this.parts := parts;
      identity := None;
      rootHash := None;
      rootLevel := 0;
    }

    /** new KsiSignature(tag): the signature, or the exception the constructor throws. */
    static method Parse(c: Codec, ops: ChainOps, t: Tag) returns (r: Result<KsiSignature, Error>)
      ensures r.Ok? <==> SignatureOf(c, ops, t).Ok?
      ensures r.Err? ==> r.error == SignatureOf(c, ops, t).error
      ensures r.Ok? ==> fresh(r.value) && r.value.Valid() && r.value.ops == ops && r.value.parts == SignatureOf(c, ops, t).value
                        && r.value.identity.None? && r.value.rootHash.None?
    {
      var parts := NewSignatureParts(c, ops, t);
      if parts.Err? {
        return Err(parts.error);
      }
      SignatureOfChains(c, ops, t);
      var signature := new KsiSignature.FromParts(ops, parts.value);
      r := Ok(signature);
    }

    /**
     * GetAggregationHashChainRootHash(level): the first call computes the root
     * hash for its level and caches it; every later call returns the cached
     * hash, whatever level it is given.
     */
    method GetAggregationHashChainRootHash(level: nat) returns (h: DataHash)
      requires Valid()
      modifies this
      ensures Valid() && identity == old(identity)
      ensures rootHash == Some(h) && h == RootHash(ops, parts.chains, rootLevel)
      ensures old(rootHash).None? ==> rootLevel == level
      ensures old(rootHash).Some? ==> h == old(rootHash).value && rootLevel == old(rootLevel)
    {
      if rootHash.Some? {
        return rootHash.value;
      }
      h := ComputeRootHash(ops, parts.chains, level);
      rootHash := Some(h);
      rootLevel := level;
    }

    /** Identity: computed by GetIdentity on first use and cached. */
    method Identity() returns (id: string)
      requires Valid()
      modifies this
      ensures Valid() && id == IdentityOf(ops, parts.chains) && identity == Some(id)
      ensures rootHash == old(rootHash) && rootLevel == old(rootLevel)
    {
      if identity.Some? {
        return identity.value;
      }
      id := GetIdentity(ops, parts.chains);
      identity := Some(id);
    }

    /** IsExtended: the signature has a publication record. */
    predicate IsExtended() {
      parts.publicationRecord.Some?
    }

    /** IsRfc3161Signature: the signature has an RFC 3161 record. */
    predicate IsRfc3161Signature() {
      parts.rfc3161Record.Some?
    }

    /** AggregationTime: the aggregation time of the first chain. */
    function AggregationTime(): nat
      requires |parts.chains| > 0
    {
      ops.aggregationTime(parts.chains[0])
    }

    /**
     * Extend(calendarHashChain, publicationRecord): the new signature, or the
     * exception. This signature does not change.
     */
    method Extend(c: Codec, calendarHashChain: Option<Tag>, publicationRecord: Option<Tag>) returns (r: Result<KsiSignature, Error>)
      requires Valid()
      ensures r.Ok? <==> ExtendOf(c, ops, parts, calendarHashChain, publicationRecord).Ok?
      ensures r.Err? ==> r.error == ExtendOf(c, ops, parts, calendarHashChain, publicationRecord).error
      ensures r.Ok? ==> fresh(r.value) && r.value.Valid() && r.value.ops == ops
                        && r.value.parts == ExtendOf(c, ops, parts, calendarHashChain, publicationRecord).value
    {
      if calendarHashChain.None? {
        return Err(Ksi(NullCalendarChainMessage));
      }
      var written := WriteExtendedChildren(parts.children, calendarHashChain.value, publicationRecord);
      var signature := Parse(c, ops, ExtendedTag(c, written));
      if signature.Err? {
        return Err(signature.error);
      }
      var verification := ops.internalVerification(signature.value.parts, ops.inputHash(parts.chains[0]));
      if verification.Some? {
        return Err(SignatureFailure(InternalVerificationMessage + verification.value));
      }
      r := signature;
    }
  }
}
