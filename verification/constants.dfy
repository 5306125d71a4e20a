/**
 * The TLV header flags and the tag-type numbers of the KSI structures
 * (ksi-net-api/Constants.cs). Members the modelled code refers to under a
 * name this revision of Constants.cs does not declare take the value of the
 * member that does exist for the same field; each such constant says so.
 */
module Constants {

  const BitsInByte: nat := 8

  // TLV header byte: the 16-bit-encoding flag, the non-critical and forward
  // flags, and the five bits of the type that live in the first byte.
  const Tlv16Flag: bv8 := 0x80
  const NonCriticalFlag: bv8 := 0x40
  const ForwardFlag: bv8 := 0x20
  const TypeMask: bv8 := 0x1f
  const MaxType: nat := 0x1fff

  const SignatureDataTagType: nat := 0xb

  const PublicationDataTagType: nat := 0x10
  const PublicationTimeTagType: nat := 0x2
  const PublicationHashTagType: nat := 0x4

  /**
   * PublicationRecord.TagTypeSignature. The signature code reads a constant
   * TagTypeInSignature that Constants.cs does not define; this model gives it
   * this value.
   */
  const PublicationRecordInSignatureTagType: nat := 0x803
  const PublicationRecordInPublicationsFileTagType: nat := 0x703

  const PublicationsFileHeaderTagType: nat := 0x701
  const PublicationsFileHeaderVersionTagType: nat := 0x1
  const PublicationsFileHeaderCreationTimeTagType: nat := 0x2
  /** RepUriTagType; the header code reads RepositoryUriTagType, not defined in Constants.cs, and this model gives it this value. */
  const PublicationsFileHeaderRepositoryUriTagType: nat := 0x3

  /** KsiPdu.MacTagType; the PDU code reads Pdu.MacTagType, not defined in Constants.cs, and this model gives it this value. */
  const PduMacTagType: nat := 0x1f
  /** KsiPduHeader.TagType; the PDU code reads PduHeader.TagType, not defined in Constants.cs, and this model gives it this value. */
  const PduHeaderTagType: nat := 0x1

  /**
   * KsiPduPayload.StatusTagType. The aggregation response payload reads a
   * StatusTagType inherited from a base class that is not part of this model;
   * this model gives it this value too.
   */
  const PayloadStatusTagType: nat := 0x4
  /** KsiPduPayload.ErrorMessageTagType; likewise the value this model gives the inherited ErrorMessageTagType. */
  const PayloadErrorMessageTagType: nat := 0x5
  /**
   * The request identifier of the request and response payloads:
   * ExtendResponsePayload.RequestIdTagType and the aggregation response
   * payload's own RequestIdTagType are 0x1. The aggregation request payload
   * reads KsiPduPayload.RequestIdTagType and the response payload base reads
   * PduPayload.RequestIdTagType, neither defined in Constants.cs; this model
   * gives both this value.
   */
  const PayloadRequestIdTagType: nat := 0x1

  const AggregationErrorTagType: nat := 0x203
  const AggregationPduTagType: nat := 0x200
  const AggregationRequestPayloadTagType: nat := 0x201
  const AggregationRequestHashTagType: nat := 0x2
  const AggregationRequestLevelTagType: nat := 0x3
  const AggregationRequestConfigTagType: nat := 0x10
  const AggregationResponsePayloadTagType: nat := 0x202
  const AggregationResponseConfigTagType: nat := 0x10
  const AggregationResponseRequestAckTagType: nat := 0x11

  const ExtendErrorTagType: nat := 0x303
  const ExtendPduTagType: nat := 0x300
  const ExtendRequestPayloadTagType: nat := 0x301
  const ExtendResponsePayloadTagType: nat := 0x302
  /**
   * ExtendResponsePayload.LastTimeTagType. The payload code reads
   * CalendarLastTimeTagType, which Constants.cs does not define; this model
   * gives it this value.
   */
  const ExtendResponseLastTimeTagType: nat := 0x10

  const AggregationAuthenticationRecordTagType: nat := 0x804
  const AuthRecordAggregationTimeTagType: nat := 0x2
  const AuthRecordChainIndexTagType: nat := 0x3
  const AuthRecordInputHashTagType: nat := 0x5

  const AggregationHashChainTagType: nat := 0x801
  const ChainAggregationTimeTagType: nat := 0x2
  const ChainIndexTagType: nat := 0x3
  const ChainInputDataTagType: nat := 0x4
  const ChainInputHashTagType: nat := 0x5
  const ChainAggregationAlgorithmIdTagType: nat := 0x6
  /** The two link types of an aggregation hash chain; the type is also the link's direction. */
  const LeftLinkTagType: nat := 0x7
  const RightLinkTagType: nat := 0x8

  const LinkLevelCorrectionTagType: nat := 0x1
  const LinkSiblingHashTagType: nat := 0x2
  const LinkMetaHashTagType: nat := 0x3
  const MetaDataTagType: nat := 0x4
  const MetaDataClientIdTagType: nat := 0x1
  const MetaDataMachineIdTagType: nat := 0x2
  const MetaDataSequenceNumberTagType: nat := 0x3
  const MetaDataRequestTimeTagType: nat := 0x4

  const CalendarAuthenticationRecordTagType: nat := 0x805
  const CalendarHashChainTagType: nat := 0x802
  const KsiSignatureTagType: nat := 0x800
  const Rfc3161RecordTagType: nat := 0x806

  /** True when no two elements of s are equal. */
  predicate Distinct(s: seq<nat>) {
    forall i, j :: 0 <= i < j < |s| ==> s[i] != s[j]
  }

  /** The union of the four parts of a header byte. */
  function JoinHeaderParts(b: bv8): bv8 {
    (b & Tlv16Flag) | (b & NonCriticalFlag) | (b & ForwardFlag) | (b & TypeMask)
  }

  /**
   * The three flags and the type mask split the first header byte: they are
   * pairwise disjoint and together cover all eight bits, so every header byte
   * is the union of its four parts.
   */
  lemma HeaderBytePartition()
    ensures Tlv16Flag & NonCriticalFlag == 0 && Tlv16Flag & ForwardFlag == 0
    ensures NonCriticalFlag & ForwardFlag == 0
    ensures (Tlv16Flag | NonCriticalFlag | ForwardFlag) & TypeMask == 0
    ensures Tlv16Flag | NonCriticalFlag | ForwardFlag | TypeMask == 0xff
    ensures forall b: bv8 :: JoinHeaderParts(b) == b
  {
  }

  /**
   * The largest type fits in the five type bits of the first byte followed by
   * the whole second byte of the 16-bit header.
   */
  lemma MaxTypeFitsLongHeader()
    ensures MaxType == (TypeMask as nat) * 256 + 255
    ensures MaxType + 1 == 0x2000
  {
  }

  /** The top-level children of a signature have pairwise different types. */
  lemma SignatureChildTypesDistinct()
    ensures Distinct([AggregationHashChainTagType, CalendarHashChainTagType, PublicationRecordInSignatureTagType,
                      AggregationAuthenticationRecordTagType, CalendarAuthenticationRecordTagType, Rfc3161RecordTagType])
    ensures KsiSignatureTagType !in {AggregationHashChainTagType, CalendarHashChainTagType, PublicationRecordInSignatureTagType,
                      AggregationAuthenticationRecordTagType, CalendarAuthenticationRecordTagType, Rfc3161RecordTagType}
  {
  }

  /** The children an aggregation hash chain recognises have pairwise different types. */
  lemma ChainChildTypesDistinct()
    ensures Distinct([ChainAggregationTimeTagType, ChainIndexTagType, ChainInputDataTagType, ChainInputHashTagType,
                      ChainAggregationAlgorithmIdTagType, LeftLinkTagType, RightLinkTagType])
    ensures Distinct([LinkLevelCorrectionTagType, LinkSiblingHashTagType, LinkMetaHashTagType, MetaDataTagType])
    ensures Distinct([MetaDataClientIdTagType, MetaDataMachineIdTagType, MetaDataSequenceNumberTagType, MetaDataRequestTimeTagType])
  {
  }

  /** The aggregation and extension PDU families use disjoint type numbers that fit the 13-bit type space. */
  lemma PduTypesDistinct()
    ensures Distinct([AggregationPduTagType, AggregationRequestPayloadTagType, AggregationResponsePayloadTagType, AggregationErrorTagType,
                      ExtendPduTagType, ExtendRequestPayloadTagType, ExtendResponsePayloadTagType, ExtendErrorTagType])
    ensures ExtendErrorTagType <= MaxType && KsiSignatureTagType <= MaxType && Rfc3161RecordTagType <= MaxType
    ensures PduHeaderTagType != PduMacTagType
  {
  }
}
