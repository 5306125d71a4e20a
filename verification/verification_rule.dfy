/**
 * The verification rule engine (ksi-net-api/Signature/Verification/Rule/):
 * VerificationRule, whose three successors say which rule runs after an Ok,
 * a Fail or an Na result, its static accessors, which raise an exception
 * for a structurally missing context, signature or chain instead of
 * returning Fail or Na, and six rules.
 *
 * The rules see the verification context and the signature through views
 * holding what the rules read: IVerificationContext and IKsiSignature are
 * interfaces, and the calendar hash chain, calendar authentication record,
 * publication record and publications file are not part of this model.
 * The context's extension functions are oracles held in the context.
 */
module VerificationRules {
  import opened Wrappers
  import opened Exceptions
  import opened Hashing

  // ------------------------------------------------------------------ views

  /** A DataHash object: its reference, which `==` and `!=` compare, and its value, which Equals compares. */
  datatype HashRef = HashRef(reference: nat, hash: DataHash)

  datatype PublicationDataView = PublicationDataView(publicationTime: nat, publicationHash: HashRef)

  datatype CalendarHashChainView = CalendarHashChainView(
    publicationTime: nat,
    aggregationTime: nat,
    outputHash: HashRef,
    publicationData: Option<PublicationDataView>)

  datatype CalendarAuthenticationRecordView = CalendarAuthenticationRecordView(publicationData: PublicationDataView)

  datatype PublicationRecordView = PublicationRecordView(publicationData: PublicationDataView)

  datatype AggregationHashChainView = AggregationHashChainView(aggregationTime: nat)

  /** What the rules read from an IKsiSignature; a null chain collection is None. */
  datatype SignatureView = SignatureView(
    aggregationHashChains: Option<seq<AggregationHashChainView>>,
    calendarHashChain: Option<CalendarHashChainView>,
    calendarAuthenticationRecord: Option<CalendarAuthenticationRecordView>,
    publicationRecord: Option<PublicationRecordView>)

  /** An IPublicationsFile: GetNearestPublicationRecord is an oracle. */
  datatype PublicationsFileView = PublicationsFileView(nearestPublicationRecord: nat -> Option<PublicationRecordView>)

  /** An IVerificationContext; the two extension functions are oracles. */
  datatype VerificationContext = VerificationContext(
    signature: Option<SignatureView>,
    publicationsFile: Option<PublicationsFileView>,
    userPublication: Option<PublicationDataView>,
    extendedLatestCalendarHashChain: Option<CalendarHashChainView>,
    extendedTimeCalendarHashChain: nat -> Option<CalendarHashChainView>)

  // ---------------------------------------------------------------- results

  datatype VerificationResultCode = CodeOk | CodeFail | CodeNa

  datatype VerificationError = Int02 | Int06 | Int08 | Cal03 | Gen02

  datatype VerificationResult = VerificationResult(ruleName: string, code: VerificationResultCode, error: Option<VerificationError>)

  /** The rules of this model; GetRuleName is the name of the rule's class. */
  datatype RuleKind =
    | AggregationHashChainTimeConsistency
    | CalendarAuthenticationRecordAggregationHash
    | CalendarAuthenticationRecordAggregationTime
    | ExtendedSignatureCalendarChainAggregationTime
    | CalendarHashChainExistence
    | UserProvidedPublicationExistence

  function RuleName(kind: RuleKind): string {
    match kind
    case AggregationHashChainTimeConsistency => "AggregationHashChainTimeConsistencyRule"
    case CalendarAuthenticationRecordAggregationHash => "CalendarAuthenticationRecordAggregationHashRule"
    case CalendarAuthenticationRecordAggregationTime => "CalendarAuthenticationRecordAggregationTimeRule"
    case ExtendedSignatureCalendarChainAggregationTime => "ExtendedSignatureCalendarChainAggregationTimeRule"
    case CalendarHashChainExistence => "CalendarHashChainExistenceRule"
    case UserProvidedPublicationExistence => "UserProvidedPublicationExistenceRule"
  }

  function Passed(kind: RuleKind): VerificationResult {
    VerificationResult(RuleName(kind), CodeOk, None)
  }

  function Failed(kind: RuleKind, error: VerificationError): VerificationResult {
    VerificationResult(RuleName(kind), CodeFail, Some(error))
  }

  function NotApplicable(kind: RuleKind, error: VerificationError): VerificationResult {
    VerificationResult(RuleName(kind), CodeNa, Some(error))
  }

  // -------------------------------------------------------------- accessors

  const InvalidContextMessage := "Invalid verification context: null."
  const InvalidSignatureMessage := "Invalid KSI signature in context: null."
  const MissingAggregationHashChainsMessage := "Aggregation hash chains are missing from KSI signature."
  const InvalidPublicationsFileMessage := "Invalid publications file in context: null."
  const MissingCalendarHashChainMessage := "Calendar hash chain is missing from KSI signature."
  const InvalidCalendarAuthenticationRecordMessage := "Invalid calendar authentication record in signature: null."
  const InvalidPublicationRecordMessage := "Invalid publications record in KSI signature: null."
  const InvalidUserPublicationMessage := "Invalid user publication in context: null."
  const InvalidExtendedCalendarHashChainMessage :=
    "Received invalid extended calendar hash chain from context extension function: null."
  /** The exception message when no publication record follows the time: it names the time. */
  function NoNearestPublicationRecordMessage(time: nat): string {
    "No publication record found after given time in publications file: " + Decimal(time) + "."
  }

  /** CheckVerificationContext: a KsiException exactly for a null context. */
  function CheckVerificationContext(context: Option<VerificationContext>): (r: Result<VerificationContext, Error>)
    ensures r.Ok? <==> context.Some?
    ensures r.Ok? ==> r.value == context.value
    ensures r.Err? ==> r.error == Ksi(InvalidContextMessage)
  {
    if context.None? then Err(Ksi(InvalidContextMessage)) else Ok(context.value)
  }

  /** GetSignature: the context's signature, unchanged; a null context or signature raises an exception. */
  function GetSignature(context: Option<VerificationContext>): (r: Result<SignatureView, Error>)
    ensures context.None? ==> r == Err(Ksi(InvalidContextMessage))
    ensures context.Some? && context.value.signature.None? ==> r == Err(KsiVerification(InvalidSignatureMessage))
    ensures r.Ok? <==> context.Some? && context.value.signature.Some?
    ensures r.Ok? ==> r.value == context.value.signature.value
  {
    var c :- CheckVerificationContext(context);
    if c.signature.None? then Err(KsiVerification(InvalidSignatureMessage)) else Ok(c.signature.value)
  }

  /** GetAggregationHashChains: the signature's chains, unchanged; raises for a null collection, or an empty one unless allowed. */
  function GetAggregationHashChains(signature: SignatureView, canBeEmpty: bool): (r: Result<seq<AggregationHashChainView>, Error>)
    ensures r.Ok? <==> signature.aggregationHashChains.Some? && (canBeEmpty || |signature.aggregationHashChains.value| > 0)
    ensures r.Ok? ==> r.value == signature.aggregationHashChains.value
    ensures r.Err? ==> r.error == KsiVerification(MissingAggregationHashChainsMessage)
  {
    var chains := signature.aggregationHashChains;
    if chains.None? || (!canBeEmpty && |chains.value| == 0) then Err(KsiVerification(MissingAggregationHashChainsMessage))
    else Ok(chains.value)
  }

  /** GetPublicationsFile: the context's publications file, unchanged; a null context or file raises an exception. */
  function GetPublicationsFile(context: Option<VerificationContext>): (r: Result<PublicationsFileView, Error>)
    ensures context.None? ==> r == Err(Ksi(InvalidContextMessage))
    ensures context.Some? && context.value.publicationsFile.None? ==> r == Err(KsiVerification(InvalidPublicationsFileMessage))
    ensures r.Ok? <==> context.Some? && context.value.publicationsFile.Some?
    ensures r.Ok? ==> r.value == context.value.publicationsFile.value
  {
    var c :- CheckVerificationContext(context);
    if c.publicationsFile.None? then Err(KsiVerification(InvalidPublicationsFileMessage)) else Ok(c.publicationsFile.value)
  }

  /** GetCalendarHashChain: the signature's calendar chain, unchanged; a missing chain raises unless allowNullValue is set. */
  function GetCalendarHashChain(signature: SignatureView, allowNullValue: bool): (r: Result<Option<CalendarHashChainView>, Error>)
    ensures r.Ok? <==> allowNullValue || signature.calendarHashChain.Some?
    ensures r.Ok? ==> r.value == signature.calendarHashChain
    ensures r.Err? ==> r.error == KsiVerification(MissingCalendarHashChainMessage)
  {
    if !allowNullValue && signature.calendarHashChain.None? then Err(KsiVerification(MissingCalendarHashChainMessage))
    else Ok(signature.calendarHashChain)
  }

  /** GetCalendarAuthenticationRecord: the signature's record, unchanged; a missing one raises an exception. */
  function GetCalendarAuthenticationRecord(signature: SignatureView): (r: Result<CalendarAuthenticationRecordView, Error>)
    ensures r.Ok? <==> signature.calendarAuthenticationRecord.Some?
    ensures r.Ok? ==> r.value == signature.calendarAuthenticationRecord.value
    ensures r.Err? ==> r.error == KsiVerification(InvalidCalendarAuthenticationRecordMessage)
  {
    if signature.calendarAuthenticationRecord.None? then Err(KsiVerification(InvalidCalendarAuthenticationRecordMessage))
    else Ok(signature.calendarAuthenticationRecord.value)
  }

  /** GetPublicationRecord: the signature's publication record, unchanged; a missing one raises an exception. */
  function GetPublicationRecord(signature: SignatureView): (r: Result<PublicationRecordView, Error>)
    ensures r.Ok? <==> signature.publicationRecord.Some?
    ensures r.Ok? ==> r.value == signature.publicationRecord.value
    ensures r.Err? ==> r.error == KsiVerification(InvalidPublicationRecordMessage)
  {
    if signature.publicationRecord.None? then Err(KsiVerification(InvalidPublicationRecordMessage))
    else Ok(signature.publicationRecord.value)
  }

  /** GetUserPublication: the context's user publication, unchanged; a null context or publication raises an exception. */
  function GetUserPublication(context: Option<VerificationContext>): (r: Result<PublicationDataView, Error>)
    ensures context.None? ==> r == Err(Ksi(InvalidContextMessage))
    ensures context.Some? && context.value.userPublication.None? ==> r == Err(KsiVerification(InvalidUserPublicationMessage))
    ensures r.Ok? <==> context.Some? && context.value.userPublication.Some?
    ensures r.Ok? ==> r.value == context.value.userPublication.value
  {
    var c :- CheckVerificationContext(context);
    if c.userPublication.None? then Err(KsiVerification(InvalidUserPublicationMessage)) else Ok(c.userPublication.value)
  }

  /** GetExtendedTimeCalendarHashChain: what the extension function returns for the time; null raises an exception. */
  function GetExtendedTimeCalendarHashChain(context: VerificationContext, publicationTime: nat): (r: Result<CalendarHashChainView, Error>)
    ensures r.Ok? <==> context.extendedTimeCalendarHashChain(publicationTime).Some?
    ensures r.Ok? ==> r.value == context.extendedTimeCalendarHashChain(publicationTime).value
    ensures r.Err? ==> r.error == KsiVerification(InvalidExtendedCalendarHashChainMessage)
  {
    var chain := context.extendedTimeCalendarHashChain(publicationTime);
    if chain.None? then Err(KsiVerification(InvalidExtendedCalendarHashChainMessage)) else Ok(chain.value)
  }

  /** GetNearestPublicationRecord: what the publications file finds for the time; null raises an exception. */
  function GetNearestPublicationRecord(publicationsFile: PublicationsFileView, time: nat): (r: Result<PublicationRecordView, Error>)
    ensures r.Ok? <==> publicationsFile.nearestPublicationRecord(time).Some?
    ensures r.Ok? ==> r.value == publicationsFile.nearestPublicationRecord(time).value
    ensures r.Err? ==> r.error == KsiVerification(NoNearestPublicationRecordMessage(time))
  {
    var record := publicationsFile.nearestPublicationRecord(time);
    if record.None? then Err(KsiVerification(NoNearestPublicationRecordMessage(time))) else Ok(record.value)
  }

  // ------------------------------------------------------------------ rules

  /** Every chain has the aggregation time of the first. */
  predicate SameAggregationTimes(chains: seq<AggregationHashChainView>) {
    forall i :: 0 <= i < |chains| ==> chains[i].aggregationTime == chains[0].aggregationTime
  }

  /**
   * AggregationHashChainTimeConsistencyRule.Verify: Ok exactly when every
   * aggregation hash chain has the aggregation time of the first (so also
   * for no chains), and otherwise Fail with Int02; never Na.
   */
  function TimeConsistencyOutcome(context: Option<VerificationContext>): (r: Result<VerificationResult, Error>)
    ensures context.None? ==> r == Err(Ksi(InvalidContextMessage))
    ensures context.Some? && context.value.signature.None? ==> r == Err(KsiVerification(InvalidSignatureMessage))
    ensures context.Some? && context.value.signature.Some? && context.value.signature.value.aggregationHashChains.None? ==>
              r == Err(KsiVerification(MissingAggregationHashChainsMessage))
    ensures r.Ok? ==> r.value.ruleName == RuleName(AggregationHashChainTimeConsistency) && r.value.code != CodeNa
    ensures r.Ok? ==>
              (r.value.code == CodeOk <==> SameAggregationTimes(context.value.signature.value.aggregationHashChains.value))
    ensures r.Ok? && r.value.code == CodeFail ==> r.value.error == Some(Int02)
  {
    var signature :- GetSignature(context);
    var chains :- GetAggregationHashChains(signature, true);
    Ok(if SameAggregationTimes(chains) then Passed(AggregationHashChainTimeConsistency)
       else Failed(AggregationHashChainTimeConsistency, Int02))
  }

  /** AggregationHashChainTimeConsistencyRule.Verify: the loop keeping the first aggregation time seen. */
  method VerifyTimeConsistency(context: Option<VerificationContext>) returns (r: Result<VerificationResult, Error>)
    ensures r == TimeConsistencyOutcome(context)
  {
    if context.None? {
      return Err(Ksi(InvalidContextMessage));
    }
    if context.value.signature.None? {
      return Err(KsiVerification(InvalidSignatureMessage));
    }
    var aggregationHashChainCollection := context.value.signature.value.aggregationHashChains;
    if aggregationHashChainCollection.None? {
      return Err(KsiVerification(MissingAggregationHashChainsMessage));
    }
    var chains := aggregationHashChainCollection.value;
    var time: Option<nat> := None;
    for i := 0 to |chains|
      invariant time == if i == 0 then None else Some(chains[0].aggregationTime)
      invariant forall j :: 0 <= j < i ==> chains[j].aggregationTime == chains[0].aggregationTime
    {
      if time.None? {
        time := Some(chains[i].aggregationTime);
        continue;
      }
      if chains[i].aggregationTime == time.value {
        continue;
      }
      return Ok(Failed(AggregationHashChainTimeConsistency, Int02));
    }
    r := Ok(Passed(AggregationHashChainTimeConsistency));
  }

  /**
   * CalendarAuthenticationRecordAggregationHashRule.Verify as written: the
   * output hash and the publication hash are compared with `!=`, which on
   * DataHash objects compares references, as DataHash overrides Equals but
   * not the operators.
   */
  function AggregationHashOutcomeAsWritten(context: Option<VerificationContext>): (r: Result<VerificationResult, Error>)
    ensures r.Ok? <==> context.Some? && context.value.signature.Some?
                       && (context.value.signature.value.calendarAuthenticationRecord.Some? ==>
                             context.value.signature.value.calendarHashChain.Some?)
    ensures r.Ok? && r.value.code == CodeOk ==>
              var signature := context.value.signature.value;
              signature.calendarAuthenticationRecord.None?
              || signature.calendarHashChain.value.outputHash.reference
                 == signature.calendarAuthenticationRecord.value.publicationData.publicationHash.reference
  {
    var signature :- GetSignature(context);
    if signature.calendarAuthenticationRecord.None? then Ok(Passed(CalendarAuthenticationRecordAggregationHash))
    else
      var calendarHashChain :- GetCalendarHashChain(signature, false);
      var record := signature.calendarAuthenticationRecord.value;
      if calendarHashChain.value.outputHash.reference != record.publicationData.publicationHash.reference
      then Ok(Failed(CalendarAuthenticationRecordAggregationHash, Int08))
      else Ok(Passed(CalendarAuthenticationRecordAggregationHash))
  }

  /**
   * CalendarAuthenticationRecordAggregationHashRule.Verify, comparing the
   * hashes by value as the rule's documentation says: Ok without a calendar
   * authentication record; with one, an exception when there is no calendar
   * chain, and otherwise Ok exactly when the chain's output hash equals the
   * record's publication hash, Fail with Int08 when not; never Na.
   */
  function AggregationHashOutcome(context: Option<VerificationContext>): (r: Result<VerificationResult, Error>)
    ensures r.Ok? <==> context.Some? && context.value.signature.Some?
                       && (context.value.signature.value.calendarAuthenticationRecord.Some? ==>
                             context.value.signature.value.calendarHashChain.Some?)
    ensures r.Err? && context.Some? && context.value.signature.Some? ==>
              r.error == KsiVerification(MissingCalendarHashChainMessage)
    ensures r.Ok? ==> r.value.ruleName == RuleName(CalendarAuthenticationRecordAggregationHash) && r.value.code != CodeNa
    ensures r.Ok? ==>
              var signature := context.value.signature.value;
              (r.value.code == CodeOk <==>
                 signature.calendarAuthenticationRecord.None?
                 || Equals(signature.calendarHashChain.value.outputHash.hash,
                           Some(signature.calendarAuthenticationRecord.value.publicationData.publicationHash.hash)))
    ensures r.Ok? && r.value.code == CodeFail ==> r.value.error == Some(Int08)
  {
    var signature :- GetSignature(context);
    if signature.calendarAuthenticationRecord.None? then Ok(Passed(CalendarAuthenticationRecordAggregationHash))
    else
      var calendarHashChain :- GetCalendarHashChain(signature, false);
      var record := signature.calendarAuthenticationRecord.value;
      if !Equals(calendarHashChain.value.outputHash.hash, Some(record.publicationData.publicationHash.hash))
      then Ok(Failed(CalendarAuthenticationRecordAggregationHash, Int08))
      else Ok(Passed(CalendarAuthenticationRecordAggregationHash))
  }

  /**
   * The input that shows the difference: a calendar chain whose output hash
   * and a record whose publication hash are equal values held by two
   * different objects. The rule as written fails it; compared by value it
   * passes. Where the two hashes are one object, both agree.
   */
  lemma AggregationHashReferenceComparison(context: VerificationContext, h: DataHash, outputRef: nat, publicationRef: nat)
    requires context.signature.Some? && context.signature.value.calendarHashChain.Some?
    requires context.signature.value.calendarAuthenticationRecord.Some?
    requires context.signature.value.calendarHashChain.value.outputHash == HashRef(outputRef, h)
    requires context.signature.value.calendarAuthenticationRecord.value.publicationData.publicationHash == HashRef(publicationRef, h)
    ensures outputRef != publicationRef ==>
              && AggregationHashOutcomeAsWritten(Some(context)) == Ok(Failed(CalendarAuthenticationRecordAggregationHash, Int08))
              && AggregationHashOutcome(Some(context)) == Ok(Passed(CalendarAuthenticationRecordAggregationHash))
    ensures outputRef == publicationRef ==>
              AggregationHashOutcomeAsWritten(Some(context)) == AggregationHashOutcome(Some(context))
  {
  }

  /**
   * Over every context, the rule as written and the corrected rule differ
   * exactly when both the record and the chain are present and comparing the
   * two hashes by reference disagrees with comparing them by value.
   */
  lemma AggregationHashOutcomesDiffer(context: Option<VerificationContext>)
    ensures AggregationHashOutcomeAsWritten(context) != AggregationHashOutcome(context) <==>
              && context.Some? && context.value.signature.Some?
              && context.value.signature.value.calendarAuthenticationRecord.Some?
              && context.value.signature.value.calendarHashChain.Some?
              && var output := context.value.signature.value.calendarHashChain.value.outputHash;
                 var published := context.value.signature.value.calendarAuthenticationRecord.value.publicationData.publicationHash;
                 (output.reference == published.reference) != Equals(output.hash, Some(published.hash))
  {
  }

  /**
   * CalendarAuthenticationRecordAggregationTimeRule.Verify: Ok without a
   * calendar authentication record; with one, an exception when there is no
   * calendar chain, and otherwise Ok exactly when the chain's publication
   * time equals the record's publication time, Fail with Int06 when not;
   * never Na.
   */
  function AggregationTimeOutcome(context: Option<VerificationContext>): (r: Result<VerificationResult, Error>)
    ensures r.Ok? <==> context.Some? && context.value.signature.Some?
                       && (context.value.signature.value.calendarAuthenticationRecord.Some? ==>
                             context.value.signature.value.calendarHashChain.Some?)
    ensures r.Err? && context.Some? && context.value.signature.Some? ==>
              r.error == KsiVerification(MissingCalendarHashChainMessage)
    ensures r.Ok? ==> r.value.ruleName == RuleName(CalendarAuthenticationRecordAggregationTime) && r.value.code != CodeNa
    ensures r.Ok? ==>
              var signature := context.value.signature.value;
              (r.value.code == CodeOk <==>
                 signature.calendarAuthenticationRecord.None?
                 || signature.calendarHashChain.value.publicationTime
                    == signature.calendarAuthenticationRecord.value.publicationData.publicationTime)
    ensures r.Ok? && r.value.code == CodeFail ==> r.value.error == Some(Int06)
  {
    var signature :- GetSignature(context);
    if signature.calendarAuthenticationRecord.None? then Ok(Passed(CalendarAuthenticationRecordAggregationTime))
    else
      var calendarHashChain :- GetCalendarHashChain(signature, false);
      var record := signature.calendarAuthenticationRecord.value;
      if calendarHashChain.value.publicationTime != record.publicationData.publicationTime
      then Ok(Failed(CalendarAuthenticationRecordAggregationTime, Int06))
      else Ok(Passed(CalendarAuthenticationRecordAggregationTime))
  }

  /** The extended calendar chain the rule asks for: the latest when the chain has no publication data, else at its publication time. */
  function ExtendedCalendarHashChain(context: VerificationContext, calendarHashChain: CalendarHashChainView): Option<CalendarHashChainView> {
    if calendarHashChain.publicationData.None? then context.extendedLatestCalendarHashChain
    else context.extendedTimeCalendarHashChain(calendarHashChain.publicationData.value.publicationTime)
  }

  /**
   * ExtendedSignatureCalendarChainAggregationTimeRule.Verify: exceptions for
   * a null context or signature, a missing calendar chain, a null extended
   * chain and a null or empty aggregation chain collection, in this order;
   * otherwise Fail with Cal03 exactly when the last aggregation chain's time
   * differs from the extended chain's aggregation time, Ok when not; never Na.
   */
  function ExtendedAggregationTimeOutcome(context: Option<VerificationContext>): (r: Result<VerificationResult, Error>)
    ensures context.None? ==> r == Err(Ksi(InvalidContextMessage))
    ensures context.Some? && context.value.signature.None? ==> r == Err(KsiVerification(InvalidSignatureMessage))
    ensures context.Some? && context.value.signature.Some? && context.value.signature.value.calendarHashChain.None? ==>
              r == Err(KsiVerification(MissingCalendarHashChainMessage))
    ensures context.Some? && context.value.signature.Some? && context.value.signature.value.calendarHashChain.Some?
            && ExtendedCalendarHashChain(context.value, context.value.signature.value.calendarHashChain.value).None? ==>
              r == Err(KsiVerification(InvalidExtendedCalendarHashChainMessage))
    ensures r.Ok? <==>
              && context.Some? && context.value.signature.Some? && context.value.signature.value.calendarHashChain.Some?
              && ExtendedCalendarHashChain(context.value, context.value.signature.value.calendarHashChain.value).Some?
              && context.value.signature.value.aggregationHashChains.Some?
              && |context.value.signature.value.aggregationHashChains.value| > 0
    ensures r.Ok? ==> r.value.ruleName == RuleName(ExtendedSignatureCalendarChainAggregationTime) && r.value.code != CodeNa
    ensures r.Ok? ==>
              var signature := context.value.signature.value;
              var chains := signature.aggregationHashChains.value;
              var extended := ExtendedCalendarHashChain(context.value, signature.calendarHashChain.value).value;
              (r.value.code == CodeFail <==> chains[|chains| - 1].aggregationTime != extended.aggregationTime)
    ensures r.Ok? && r.value.code == CodeFail ==> r.value.error == Some(Cal03)
  {
    var signature :- GetSignature(context);
    var calendarHashChain :- GetCalendarHashChain(signature, false);
    var extendedCalendarHashChain := ExtendedCalendarHashChain(context.value, calendarHashChain.value);
    if extendedCalendarHashChain.None? then Err(KsiVerification(InvalidExtendedCalendarHashChainMessage))
    else
      var aggregationHashChains :- GetAggregationHashChains(signature, false);
      var aggregationTime := aggregationHashChains[|aggregationHashChains| - 1].aggregationTime;
      if aggregationTime != extendedCalendarHashChain.value.aggregationTime
      then Ok(Failed(ExtendedSignatureCalendarChainAggregationTime, Cal03))
      else Ok(Passed(ExtendedSignatureCalendarChainAggregationTime))
  }

  /**
   * CalendarHashChainExistenceRule.Verify: exceptions for a null context or
   * signature; Na with Gen02 without a calendar chain, Ok with one; never Fail.
   */
  function CalendarHashChainExistenceOutcome(context: Option<VerificationContext>): (r: Result<VerificationResult, Error>)
    ensures context.None? ==> r == Err(Ksi(InvalidContextMessage))
    ensures context.Some? && context.value.signature.None? ==> r == Err(KsiVerification(InvalidSignatureMessage))
    ensures r.Ok? <==> context.Some? && context.value.signature.Some?
    ensures r.Ok? ==> r.value.ruleName == "CalendarHashChainExistenceRule" && r.value.code != CodeFail
    ensures r.Ok? ==> (r.value.code == CodeOk <==> context.value.signature.value.calendarHashChain.Some?)
    ensures r.Ok? && r.value.code == CodeNa ==> r.value.error == Some(Gen02)
  {
    var c :- CheckVerificationContext(context);
    if c.signature.None? then Err(KsiVerification(InvalidSignatureMessage))
    else if c.signature.value.calendarHashChain.None? then Ok(NotApplicable(CalendarHashChainExistence, Gen02))
    else Ok(Passed(CalendarHashChainExistence))
  }

  /**
   * UserProvidedPublicationExistenceRule.Verify: an exception for a null
   * context; Na with Gen02 without a user publication, Ok with one; the
   * signature is not looked at, and the result is never Fail.
   */
  function UserPublicationExistenceOutcome(context: Option<VerificationContext>): (r: Result<VerificationResult, Error>)
    ensures r.Ok? <==> context.Some?
    ensures r.Err? ==> r.error == Ksi(InvalidContextMessage)
    ensures r.Ok? ==> r.value.ruleName == "UserProvidedPublicationExistenceRule" && r.value.code != CodeFail
    ensures r.Ok? ==> (r.value.code == CodeOk <==> context.value.userPublication.Some?)
    ensures r.Ok? && r.value.code == CodeNa ==> r.value.error == Some(Gen02)
  {
    var c :- CheckVerificationContext(context);
    if c.userPublication.None? then Ok(NotApplicable(UserProvidedPublicationExistence, Gen02))
    else Ok(Passed(UserProvidedPublicationExistence))
  }

  /** The user publication rule gives the same result whatever signature the context holds. */
  lemma UserPublicationExistenceIgnoresSignature(context: VerificationContext, other: Option<SignatureView>)
    ensures UserPublicationExistenceOutcome(Some(context)) == UserPublicationExistenceOutcome(Some(context.(signature := other)))
  {
  }

  /** What Verify returns for a rule of the given kind. */
  function RuleOutcome(kind: RuleKind, context: Option<VerificationContext>): Result<VerificationResult, Error> {
    match kind
    case AggregationHashChainTimeConsistency => TimeConsistencyOutcome(context)
    case CalendarAuthenticationRecordAggregationHash => AggregationHashOutcome(context)
    case CalendarAuthenticationRecordAggregationTime => AggregationTimeOutcome(context)
    case ExtendedSignatureCalendarChainAggregationTime => ExtendedAggregationTimeOutcome(context)
    case CalendarHashChainExistence => CalendarHashChainExistenceOutcome(context)
    case UserProvidedPublicationExistence => UserPublicationExistenceOutcome(context)
  }

  /**
   * Every rule raises KsiException for a null context, and a result it
   * returns carries the rule's name and an error code exactly when it is
   * not Ok.
   */
  lemma RuleOutcomeShape(kind: RuleKind, context: Option<VerificationContext>)
    ensures context.None? ==> RuleOutcome(kind, context) == Err(Ksi(InvalidContextMessage))
    ensures RuleOutcome(kind, context).Ok? ==>
              var result := RuleOutcome(kind, context).value;
              result.ruleName == RuleName(kind) && (result.error.None? <==> result.code == CodeOk)
  {
  }

  // -------------------------------------------------------- the rule object

  /** A VerificationRule: its kind fixes Verify and the name; the three successors are set by the fluent setters. */
  class VerificationRule {
    const kind: RuleKind
    var onSuccess: VerificationRule?
    var onFailure: VerificationRule?
    var onNa: VerificationRule?

    /** A rule with no successors. */
    constructor(kind: RuleKind)
      ensures this.kind == kind && onSuccess == null && onFailure == null && onNa == null
    {
      this.kind := kind;
      onSuccess := null;
      onFailure := null;
      onNa := null;
    }

    /** GetRuleName: the name of the rule's class. */
    function GetRuleName(): (name: string)
      ensures name == RuleName(kind)
    {
      RuleName(kind)
    }

    /** NextRule: the successor for Ok, Fail or Na; null when it was not set. */
    function NextRule(resultCode: VerificationResultCode): (next: VerificationRule?)
      reads this
      ensures resultCode == CodeOk ==> next == onSuccess
      ensures resultCode == CodeFail ==> next == onFailure
      ensures resultCode == CodeNa ==> next == onNa
    {
      match resultCode
      case CodeOk => onSuccess
      case CodeFail => onFailure
      case CodeNa => onNa
    }

    /** OnSuccess: sets the successor for Ok and nothing else, and returns this rule. */
    method OnSuccess(next: VerificationRule?) returns (r: VerificationRule)
      modifies this
      ensures r == this && onSuccess == next && onFailure == old(onFailure) && onNa == old(onNa)
      ensures NextRule(CodeOk) == next && NextRule(CodeFail) == old(NextRule(CodeFail)) && NextRule(CodeNa) == old(NextRule(CodeNa))
    {
      onSuccess := next;
      r := this;
    }

    /** OnNa: sets the successor for Na and nothing else, and returns this rule. */
    method OnNa(next: VerificationRule?) returns (r: VerificationRule)
      modifies this
      ensures r == this && onNa == next && onSuccess == old(onSuccess) && onFailure == old(onFailure)
      ensures NextRule(CodeNa) == next && NextRule(CodeOk) == old(NextRule(CodeOk)) && NextRule(CodeFail) == old(NextRule(CodeFail))
    {
      onNa := next;
      r := this;
    }

    /** OnFailure: sets the successor for Fail and nothing else, and returns this rule. */
    method OnFailure(next: VerificationRule?) returns (r: VerificationRule)
      modifies this
      ensures r == this && onFailure == next && onSuccess == old(onSuccess) && onNa == old(onNa)
      ensures NextRule(CodeFail) == next && NextRule(CodeOk) == old(NextRule(CodeOk)) && NextRule(CodeNa) == old(NextRule(CodeNa))
    {
      onFailure := next;
      r := this;
    }

    /** Verify: the rule's check of the context. */
    method Verify(context: Option<VerificationContext>) returns (r: Result<VerificationResult, Error>)
      ensures r == RuleOutcome(kind, context)
    {
      match kind {
        case AggregationHashChainTimeConsistency =>
          r := VerifyTimeConsistency(context);
        case CalendarAuthenticationRecordAggregationHash =>
          r := AggregationHashOutcome(context);
        case CalendarAuthenticationRecordAggregationTime =>
          r := AggregationTimeOutcome(context);
        case ExtendedSignatureCalendarChainAggregationTime =>
          r := ExtendedAggregationTimeOutcome(context);
        case CalendarHashChainExistence =>
          r := CalendarHashChainExistenceOutcome(context);
        case UserProvidedPublicationExistence =>
          r := UserPublicationExistenceOutcome(context);
      }
    }
  }

  /** Setting the same successor twice keeps the last value, and setting one successor leaves the rule's other successors. */
  method SettersLastWriteWins(rule: VerificationRule, first: VerificationRule?, second: VerificationRule?, other: VerificationRule?)
    modifies rule
    ensures rule.NextRule(CodeOk) == second && rule.NextRule(CodeFail) == other && rule.NextRule(CodeNa) == old(rule.onNa)
  {
    var r := rule.OnFailure(other);
    r := r.OnSuccess(first);
    r := r.OnSuccess(second);
  }
}
