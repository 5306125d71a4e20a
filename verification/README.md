# KSI signature data model in Dafny

This project models the signature data model of the KSI .NET SDK
(`Guardtime.KSI`) and proves properties of it. A KSI signature, a
publications file and every request and response the SDK exchanges with an
aggregator or an extender are trees of TLV (type-length-value) tags. Each
class in the model does one of these jobs:

- it reads a composite tag;
- it replaces each child with a typed child;
- it counts the children's types and rejects a structure that breaks its
  count rules.

Around those validators, the project models:

- hash imprints (`DataHash`) and the typed leaf tags (`StringTag`,
  `ImprintTag`);
- the TLV constant table;
- how a signature is composed:
  - the chain-index sort and check;
  - the root-hash fold;
  - the cached identity;
  - `Extend`;
- the publication string layout;
- the validation of the aggregation tree in `BlockSigner.TreeNode`;
- the verification rule engine: its successor links, its context accessors
  and six of its rules.

Layout, one module per file:

- `wrappers.dfy` `Wrappers`: `Option` and `Result`.
- `exceptions.dfy` `Exceptions`: the exception classes the model raises, each
  with its message, and the decimal text of the numbers messages name.
- `constants.dfy` `Constants`: the tag types and TLV flags of
  `ksi-net-api/Constants.cs`, and lemmas about the bit layout and the
  numbering.
- `hashing.dfy` `Hashing`: `DataHash`, its two constructors, `Equals` and
  `GetHashCode` with 32-bit wrap-around.
- `parser.dfy` `Parser`: the tag datatype and the codec of helpers that are
  not part of this model, plus `RawTag`, `IntegerTag`, `StringTag` and
  `ImprintTag` as conversions of a tag.
- `children.dfy` `Children`: counting, last-of-type and in-order conversion
  of a child list. This is the vocabulary the validators' contracts are
  written in.
- `aggregation_hash_chain.dfy`, `aggregation_authentication_record.dfy`,
  `publication_data.dfy`, `publications_file_header.dfy`,
  `aggregation_request_payload.dfy`, `extend_response_payload.dfy`,
  `aggregation_response_payload.dfy`: one validator each.
  - Each has a specification function (`...Of`) that gives the object built
    or the exception thrown.
  - Each has a method with the source's loop, proved equal to that function.
  - The lemmas about the function state the source's rules.
- `ksi_signature.dfy` `KsiSignatures`: the signature constructor, the chain
  sort and the chain index check.
- `ksi_signature_object.dfy` `KsiSignatureObjects`: the `KsiSignature`
  object and the operations on a built signature.
  - The root hash and the identity, with their caches.
  - `Extend`.
- `tree_node.dfy` `TreeNodes`: the aggregation tree node and its validation.
- `verification_rule.dfy` `VerificationRules`: the rule engine.
- `pdu.dfy` `Pdus` and `request_response_payload.dfy`
  `RequestResponsePayloads`: the PDU and the response payload base. Both are
  classes whose `ParseChild` methods record state as the children are read.

## Model

| member | source | states |
|---|---|---|
| Constants.HeaderBytePartition | ksi-net-api/Constants.cs:17-32 | the three flags and the five-bit type mask are pairwise disjoint and cover all eight bits, so every header byte is the union of its four parts |
| Constants.MaxTypeFitsLongHeader | ksi-net-api/Constants.cs:32-37 | the largest type 0x1fff is exactly the five inline type bits followed by one more byte |
| Constants.SignatureChildTypesDistinct | ksi-net-api/Constants.cs:223-298 | the six types a signature's children can have are pairwise distinct and differ from the signature's own type 0x800 |
| Constants.ChainChildTypesDistinct | ksi-net-api/Constants.cs:237-262 | the chain's child types are pairwise distinct, as are the link's and the metadata's |
| Constants.PduTypesDistinct | ksi-net-api/Constants.cs:130-204 | the four aggregation and four extension PDU and payload types are pairwise distinct, the largest types fit the 13-bit type space, and the PDU header and MAC types differ |
| Exceptions.Decimal | ksi-net-api/Publication/PublicationData.cs:45 | the text .NET writes for a non-negative number spliced into an exception message: digits only, never empty, no leading zero |
| Exceptions.DecimalRoundTrip | ksi-net-api/Service/BlockSigner.TreeNode.cs:216 | reading the digits back gives the number, so a message that splices a number in names it |
| Hashing.GetById | ksi-net-api/Hashing/DataHash.cs:89-95 | an algorithm is found exactly for a registered id, and it is the one registered under that id |
| Hashing.FromValue | ksi-net-api/Hashing/DataHash.cs:46-71 | a null algorithm or value is refused (ArgumentNull), and a value whose length is not the algorithm's raises a FormatException naming both sizes and the algorithm's name; otherwise the imprint is the id byte followed by the value |
| Hashing.FromImprint | ksi-net-api/Hashing/DataHash.cs:77-107 | refuses a null imprint (ArgumentNull) and an empty one (Argument), then with a FormatException naming the id an unknown id, and naming both sizes and the algorithm's name a wrong total length; otherwise the imprint is kept and the algorithm is the one registered under its first byte |
| Hashing.ImprintRoundTrip | ksi-net-api/Hashing/DataHash.cs:77-107 | a well-formed hash of a registered algorithm is rebuilt unchanged from its imprint |
| Hashing.ValueRoundTrip | ksi-net-api/Hashing/DataHash.cs:46-107 | a hash read from an imprint equals the hash the value constructor builds from its algorithm and value |
| Hashing.Equals | ksi-net-api/Hashing/DataHash.cs:114-121 | false for null; otherwise true exactly when the imprint, the value and the algorithm are equal |
| Hashing.Int32Congruent | ksi-net-api/Hashing/DataHash.cs:129-138 | exact values that differ by a multiple of 2^32 wrap to the same 32-bit int |
| Hashing.GetHashCode | ksi-net-api/Hashing/DataHash.cs:127-139 | the unchecked loop res = 31 * res + b, started at 1, equals the exact recurrence truncated once to a signed 32-bit int |
| Hashing.EqualHashesEqualCodes | ksi-net-api/Hashing/DataHash.cs:114-139 | hashes that are Equals have equal hash codes |
| Parser.StringEncodeValue | ksi-net-api/Parser/StringTag.cs:28-34 | the UTF-8 bytes of the text followed by exactly one zero byte, one byte longer than the UTF-8 bytes |
| Parser.StringDecodeValue | ksi-net-api/Parser/StringTag.cs:14-26 | refuses an empty value and one whose last byte is not zero; otherwise decodes every byte but the final zero, interior zeros included |
| Parser.StringTagOf | ksi-net-api/Parser/StringTag.cs:9-12 | a string tag keeps the type and flags of the tag it was read from, and its text is the decoded value bytes |
| Parser.StringValueRoundTrip | ksi-net-api/Parser/StringTag.cs:14-34 | decoding EncodeValue gives the text back |
| Parser.StringTagRoundTrip | ksi-net-api/Parser/StringTag.cs:9-34 | a string tag read back from its own value bytes is the same tag |
| Parser.StringTagEquals | ksi-net-api/Parser/StringTag.cs:44-52 | true exactly for a non-null string tag with the same type, both flags and text |
| Parser.TestMessageExample | ksi-net-api-test/Parser/StringTagTests.cs:11-72 | "test message" followed by a zero decodes to "test message", the same bytes without the zero are refused, and a raw tag with those bytes is not equal to the string tag |
| Parser.RawTagOf | ksi-net-api/Service/AggregationResponsePayload.cs:42 | a raw tag keeps the header of the tag it was read from and holds its value bytes |
| Parser.IntegerTagOf | ksi-net-api/Signature/AggregationHashChain.cs:32-33 | an integer tag keeps the header and holds the integer decoded from the value bytes; bytes that do not decode are refused |
| Parser.ImprintTagOf | ksi-net-api/Parser/ImprintTag.cs:15-18 | the value bytes are read as a hash imprint, with every check of the imprint constructor; the header is kept |
| Parser.NewImprintTag | ksi-net-api/Parser/ImprintTag.cs:21-29 | a null hash is refused with ArgumentNullException; otherwise the tag holds the hash |
| Parser.ImprintTagKeepsBytes | ksi-net-api/Parser/ImprintTag.cs:15-34 | the value bytes of an imprint tag read from a tag are that tag's value bytes |
| Parser.ImprintTagRoundTrip | ksi-net-api/Parser/ImprintTag.cs:15-34 | an imprint tag built from a registered hash reads back from its EncodeValue as the same tag |
| Parser.ImprintTagEquals | ksi-net-api/Parser/ImprintTag.cs:44-56 | true exactly for a non-null imprint tag with the same type, both flags and an Equals hash |
| Parser.ImprintTagHashCode | ksi-net-api/Parser/ImprintTag.cs:36-42 | the unchecked combination of the hash's, the type's and the flags' hash codes is a signed 32-bit int |
| Parser.EqualImprintTagsEqualHashCodes | ksi-net-api/Parser/ImprintTag.cs:36-56 | imprint tags that are Equals have equal hash codes |
| Parser.ReadChildren | ksi-net-api/Signature/AggregationHashChain.cs:25-27 | a composite's children are what the TLV reader finds in its value; a reader error is the exception |
| Parser.CheckTagType | ksi-net-api/Service/AggregationRequestPayload.cs:48 | a tag of another type is refused with TlvException; a tag of the expected type passes unchanged |
| Parser.VerifyUnknownTag | ksi-net-api/Signature/AggregationAuthenticationRecord.cs:79-82 | an unrecognised child is kept unchanged exactly when the reader's policy accepts it |
| AggregationHashChains.NewMetaData | ksi-net-api/Signature/AggregationHashChain.cs:133-157 | the constructor's loop builds exactly MetaDataOf |
| AggregationHashChains.MetaDataChild | ksi-net-api/Signature/AggregationHashChain.cs:137-155 | a converted metadata child keeps its header, and a child of another type is kept unchanged |
| AggregationHashChains.MetaDataOfSpec | ksi-net-api/Signature/AggregationHashChain.cs:133-162 | client id and machine id are read as strings and sequence number and request time as integers; the last child of each type wins; the only exceptions are those of reading and converting; positions and headers are kept and other children are untouched |
| AggregationHashChains.NewLink | ksi-net-api/Signature/AggregationHashChain.cs:89-113 | the constructor's loop builds exactly LinkOf |
| AggregationHashChains.LinkChild | ksi-net-api/Signature/AggregationHashChain.cs:93-111 | a converted link child keeps its header, and a child of another type is kept unchanged |
| AggregationHashChains.LinkOfSpec | ksi-net-api/Signature/AggregationHashChain.cs:89-118 | level correction is an integer, sibling hash and meta hash are imprints, and metadata is a MetaData object; the last child of each type wins; the direction is the given one; no count checks; positions and headers are kept |
| AggregationHashChains.LinkMetaDataIsLast | ksi-net-api/Signature/AggregationHashChain.cs:107-110 | the metadata object a link keeps is the one built from its last metadata child |
| AggregationHashChains.ParseChainChild | ksi-net-api/Signature/AggregationHashChain.cs:29-68 | one pass of the switch: the typed child and the fields after it, equal to ChainStep |
| AggregationHashChains.ChainChild | ksi-net-api/Signature/AggregationHashChain.cs:29-68 | a converted chain child keeps its header, and a child of another type is kept unchanged |
| AggregationHashChains.ChainUpToLastFields | ksi-net-api/Signature/AggregationHashChain.cs:31-55 | after n children each single field holds the typed form of the last child of its type so far |
| AggregationHashChains.ConversionsKeepTypes | ksi-net-api/Signature/AggregationHashChain.cs:29-68 | the metadata, link and chain conversions keep every child's type |
| AggregationHashChains.NewAggregationHashChain | ksi-net-api/Signature/AggregationHashChain.cs:25-70 | the constructor's loop builds exactly AggregationHashChainOf |
| AggregationHashChains.ChainUpToIndexes | ksi-net-api/Signature/AggregationHashChain.cs:35-44 | the chain index list holds every chain index child, typed and in order, and is null when there is none |
| AggregationHashChains.ChainUpToLinks | ksi-net-api/Signature/AggregationHashChain.cs:57-67 | the link list holds a Link for every link child, in order, and is null when there is none |
| AggregationHashChains.LinksUpToSpec | ksi-net-api/Signature/AggregationHashChain.cs:57-67 | there is one link per link child, and each link's direction is its own child's tag type (0x7 left, 0x8 right) |
| AggregationHashChains.AggregationHashChainOfSpec | ksi-net-api/Signature/AggregationHashChain.cs:25-70 | aggregation time, input data, input hash and algorithm id hold the last child of their type; there are no count checks; the only exceptions are reading and converting; positions and headers are kept and other children are untouched |
| AggregationAuthenticationRecords.NewAggregationAuthenticationRecord | ksi-net-api/Signature/AggregationAuthenticationRecord.cs:47-105 | the loop and the count checks build exactly AuthRecordOf |
| AggregationAuthenticationRecords.AuthRecordChild | ksi-net-api/Signature/AggregationAuthenticationRecord.cs:59-83 | a converted child keeps its header, and a child of another type is what VerifyUnknownTag makes of it |
| AggregationAuthenticationRecords.ParseAuthRecordChild | ksi-net-api/Signature/AggregationAuthenticationRecord.cs:59-83 | one pass of the switch, equal to AuthRecordStep |
| AggregationAuthenticationRecords.AuthRecordLoop | ksi-net-api/Signature/AggregationAuthenticationRecord.cs:57-84 | the loop throws exactly when converting the children throws, with the same exception; otherwise it leaves the converted children and the fields and counters of those children |
| AggregationAuthenticationRecords.AuthRecordOfErrors | ksi-net-api/Signature/AggregationAuthenticationRecord.cs:47-105 | the record is refused for a wrong tag type, for a child that does not convert, and then, in this order, unless there is exactly one aggregation time, at least one chain index, exactly one input hash and exactly one signature data, each with its message; otherwise it is built |
| AggregationAuthenticationRecords.AuthRecordOfFields | ksi-net-api/Signature/AggregationAuthenticationRecord.cs:57-84 | the single fields are the typed one child of their type, and the chain indexes are every chain index child, typed and in order |
| AggregationAuthenticationRecords.AuthRecordOfShape | ksi-net-api/Signature/AggregationAuthenticationRecord.cs:57-84 | children are replaced at their own position with the same header, and children of other types are kept as VerifyUnknownTag accepted them |
| AggregationAuthenticationRecords.AuthRecordGetters | ksi-net-api/Signature/AggregationAuthenticationRecord.cs:110-120 | AggregationTime is the integer read from the one aggregation time child, InputHash the hash read from the one input hash child, and every chain index is an integer |
| AggregationAuthenticationRecords.AggregationTime | ksi-net-api/Signature/AggregationAuthenticationRecord.cs:110 | the integer the aggregation time tag holds |
| AggregationAuthenticationRecords.InputHash | ksi-net-api/Signature/AggregationAuthenticationRecord.cs:115 | the hash the input hash tag holds |
| AggregationAuthenticationRecords.SignatureData | ksi-net-api/Signature/AggregationAuthenticationRecord.cs:120 | the signature data the record keeps |
| AggregationAuthenticationRecords.AuthRecordChainIndexesAreIntegers | ksi-net-api/Signature/AggregationAuthenticationRecord.cs:67-71 | every typed chain index child is an integer tag |
| AggregationAuthenticationRecords.AuthRecordChainIndexCount | ksi-net-api/Signature/AggregationAuthenticationRecord.cs:67-71 | the chain index list has one element per chain index child |
| KsiSignatures.Insert | ksi-net-api/Signature/KsiSignature.cs:125 | inserting a chain adds exactly that chain to the multiset of chains |
| KsiSignatures.SortChains | ksi-net-api/Signature/KsiSignature.cs:125 | the sorted chains are a permutation of the input |
| KsiSignatures.SortChainsSorted | ksi-net-api/Signature/KsiSignature.cs:125 | with a consistent comparer, the sorted chains are ordered by ChainIndexOrdering |
| KsiSignatures.InsertSorted | ksi-net-api/Signature/KsiSignature.cs:125 | with a consistent comparer, inserting into a sorted list keeps it sorted |
| KsiSignatures.IndexesAgreeIsPrefix | ksi-net-api/Signature/KsiSignature.cs:149-163 | two chain indexes pass the check exactly when one is a prefix of the other |
| KsiSignatures.CheckAggregationHashChainIndexes | ksi-net-api/Signature/KsiSignature.cs:149-163 | the loop throws "Chain index mismatch." exactly when the indexes differ at a position both have |
| KsiSignatures.SortAggregationHashChains | ksi-net-api/Signature/KsiSignature.cs:123-142 | sorts, then checks every adjacent pair; the result is SortedChains |
| KsiSignatures.SortedChainsSpec | ksi-net-api/Signature/KsiSignature.cs:120-163 | the chains kept are the input reordered, sorted by the ordering, with every adjacent pair of chain indexes agreeing; otherwise the mismatch exception |
| KsiSignatures.ParseSignatureChild | ksi-net-api/Signature/KsiSignature.cs:59-88 | one pass of the constructor's switch, equal to SignatureStep |
| KsiSignatures.SignatureChild | ksi-net-api/Signature/KsiSignature.cs:59-88 | a child of a type the constructor does not recognise is what VerifyUnknownTag makes of it |
| KsiSignatures.SignatureLoop | ksi-net-api/Signature/KsiSignature.cs:57-89 | the loop throws exactly when converting the children throws, with the same exception; otherwise it leaves the converted children and the fields and counters of those children |
| KsiSignatures.ParseSignatureChildren | ksi-net-api/Signature/KsiSignature.cs:57-89 | the constructor's loop: the typed children, fields and counters SignatureStep folds to |
| KsiSignatures.NewSignatureParts | ksi-net-api/Signature/KsiSignature.cs:48-121 | the constructor builds exactly SignatureOf |
| KsiSignatures.SignatureOfErrors | ksi-net-api/Signature/KsiSignature.cs:48-121 | refused for a wrong tag type, a child that does not convert, then, in this order: no aggregation hash chain, more than one calendar chain, a publication or calendar authentication record without a calendar chain, more than one of those records in total, more than one RFC 3161 record, and a chain index mismatch, each with its message; aggregation authentication records are not counted; otherwise built |
| KsiSignatures.SignatureOfChains | ksi-net-api/Signature/KsiSignature.cs:57-67 | the chains of a built signature are the chains built from the chain children, reordered and sorted by the ordering when it is consistent, with agreeing indexes |
| KsiSignatures.SignatureOfRecords | ksi-net-api/Signature/KsiSignature.cs:68-118 | the calendar chain and the three single records are the typed last children of their types, each present exactly when there is one such child; a publication or calendar authentication record implies a calendar chain, and never both records |
| KsiSignatures.SignatureOfAuthRecord | ksi-net-api/Signature/KsiSignature.cs:76-78 | the aggregation authentication record is built from the last such child, and exists exactly when there is one |
| KsiSignatures.SignatureChainCount | ksi-net-api/Signature/KsiSignature.cs:63-67 | one chain per chain child |
| KsiSignatureObjects.OutputUpToPasses | ksi-net-api/Signature/KsiSignature.cs:228-235 | the loop's result after n chains, passed through the rest, is the start passed through every chain |
| KsiSignatureObjects.RootHashPasses | ksi-net-api/Signature/KsiSignature.cs:228-235 | the root hash is the first chain's input hash at the given level passed through every chain from first to last |
| KsiSignatureObjects.ComputeRootHash | ksi-net-api/Signature/KsiSignature.cs:228-235 | the fold loop returns RootHash |
| KsiSignatureObjects.IdentityIsJoin | ksi-net-api/Signature/KsiSignature.cs:348-366 | the identity is the non-empty chain identities from the last chain to the first, joined by " :: " |
| KsiSignatureObjects.IdentityEmpty | ksi-net-api/Signature/KsiSignature.cs:348-366 | the identity is empty exactly when every chain identity is |
| KsiSignatureObjects.GetIdentity | ksi-net-api/Signature/KsiSignature.cs:348-366 | the loop returns IdentityOf |
| KsiSignatureObjects.WriteExtendedChildren | ksi-net-api/Signature/KsiSignature.cs:279-300 | the writing loop writes ExtendedChildren |
| KsiSignatureObjects.ExtendedUpToTypes | ksi-net-api/Signature/KsiSignature.cs:281-295 | the rewritten children hold no calendar authentication or publication record, the same number of calendar chains (each the new one), and every other child unchanged and in order |
| KsiSignatureObjects.ExtendedChildrenTypes | ksi-net-api/Signature/KsiSignature.cs:279-300 | what Extend writes: no calendar authentication record, a publication record exactly when one is given, the calendar chains counted as before, other children unchanged |
| KsiSignatureObjects.ExtendOf | ksi-net-api/Signature/KsiSignature.cs:270-316 | a null calendar chain raises KsiException; otherwise the rewritten children are parsed as a new signature: a parse exception is passed on unchanged, a signature that passes internal verification against this signature's first chain's input hash is returned, and one that fails raises KsiSignatureException with the verification error appended to the message |
| KsiSignatureObjects.ExtendOfRecords | ksi-net-api/Signature/KsiSignature.cs:270-316 | when the reader reads back what was written, an extended signature has no calendar authentication record, a publication record exactly when one was given, a calendar chain exactly when this one had one, clear flags, and the same aggregation hash chain children |
| KsiSignatureObjects.KsiSignature.FromParts | ksi-net-api/Signature/KsiSignature.cs:48-121 | a signature object with empty caches over what the constructor built |
| KsiSignatureObjects.KsiSignature.Parse | ksi-net-api/Signature/KsiSignature.cs:48-121 | new KsiSignature(tag) succeeds exactly when SignatureOf does, with the same exception or parts |
| KsiSignatureObjects.KsiSignature.GetAggregationHashChainRootHash | ksi-net-api/Signature/KsiSignature.cs:221-236 | the first call computes and caches the root hash for its level; later calls return the cached hash whatever level they are given; the identity cache is untouched |
| KsiSignatureObjects.KsiSignature.Identity | ksi-net-api/Signature/KsiSignature.cs:199 | the identity is IdentityOf the chains, computed on first use and cached; the root hash cache is untouched |
| KsiSignatureObjects.KsiSignature.Extend | ksi-net-api/Signature/KsiSignature.cs:270-316 | returns a fresh signature exactly as ExtendOf says; this signature does not change |
| PublicationDatas.NewPublicationDataFromTag | ksi-net-api/Publication/PublicationData.cs:41-78 | the TLV constructor's loop and checks build exactly PublicationDataOf |
| PublicationDatas.PublicationDataLoop | ksi-net-api/Publication/PublicationData.cs:51-66 | the loop throws exactly when converting a child throws; otherwise it leaves the fields and counters of the children |
| PublicationDatas.PublicationDataOfErrors | ksi-net-api/Publication/PublicationData.cs:41-78 | refused for a wrong type, with a TlvException naming the type found, for a child that does not convert, then unless exactly one publication time and exactly one publication hash; otherwise built |
| PublicationDatas.PublicationDataOfFields | ksi-net-api/Publication/PublicationData.cs:51-66 | the children are kept as read; the time is the integer of the one time child and the hash the hash of the one hash child |
| PublicationDatas.NewPublicationData | ksi-net-api/Publication/PublicationData.cs:96-105 | the children are an integer tag 0x2 and an imprint tag 0x4, in that order, with flags clear; a null hash is refused |
| PublicationDatas.NewPublicationDataReadsBack | ksi-net-api/Publication/PublicationData.cs:41-105 | publication data built from a time and a hash reads back from its own tag as the same publication data |
| PublicationDatas.GroupedUngroups | ksi-net-api/Publication/PublicationData.cs:180-202 | taking the dashes out of the grouped string gives the Base32 text back |
| PublicationDatas.GroupedLength | ksi-net-api/Publication/PublicationData.cs:180-202 | the grouped string is the text plus one dash per full group of six followed by more text |
| PublicationDatas.GroupedPositions | ksi-net-api/Publication/PublicationData.cs:180-202 | the k-th character of the text is at position k + k / 6 |
| PublicationDatas.GroupedDashes | ksi-net-api/Publication/PublicationData.cs:180-202 | a position holds a dash exactly when it is the seventh of its group of seven; every group but the last has six characters and the last one to six |
| PublicationDatas.GroupPublicationString | ksi-net-api/Publication/PublicationData.cs:180-202 | the while loop returns Grouped of the code |
| PublicationDatas.CopyInto | ksi-net-api/Publication/PublicationData.cs:173-177 | Array.Copy at an offset overwrites exactly that range and throws when the source does not fit |
| PublicationDatas.ArrayCopy | ksi-net-api/Publication/PublicationData.cs:173-177 | on an array: the source is written from the offset on and nothing else changes |
| PublicationDatas.GetPublicationString | ksi-net-api/Publication/PublicationData.cs:167-203 | the byte array built with Array.Copy, Base32-encoded and grouped, is PublicationStringOf |
| PublicationDatas.PublicationBytesLayout | ksi-net-api/Publication/PublicationData.cs:169-177 | when the time fits eight bytes, the bytes are built exactly when the CRC32 encodes in at most four bytes, and they are zeros, the time bytes right-aligned to byte 8, the imprint, the CRC32 bytes, and zeros to fill the last four |
| PublicationDatas.DecodePublicationString | ksi-net-api/Publication/PublicationData.cs:128-161 | refuses a null string, then with the Base32 message a string that does not decode or decodes to fewer than 13 bytes, then with the CRC32 message bytes whose last four are not the CRC of the rest, and passes on the imprint's exception unchanged |
| PublicationDatas.DecodePublicationStringSpec | ksi-net-api/Publication/PublicationData.cs:137-160 | a string decodes exactly when its Base32 bytes are at least 13 long, the last four are the encoded CRC32 of the others and the bytes between the first eight and the last four are a valid imprint; the result is the time tag of the first eight bytes and that hash |
| PublicationDatas.PublicationDataFromString | ksi-net-api/Publication/PublicationData.cs:121-126 | the decoded children under a publication data header with the given flags |
| PublicationDatas.PublicationStringRoundTrip | ksi-net-api/Publication/PublicationData.cs:128-203 | decoding the publication string gives back the same time and hash |
| PublicationDatas.PublicationStringReadsBack | ksi-net-api/Publication/PublicationData.cs:121-126 | PublicationTime and PublicationHash of publication data read from its own publication string are the original ones |
| PublicationsFileHeaders.NewPublicationsFileHeader | ksi-net-api/Publication/PublicationsFileHeader.cs:46-95 | Validate's loop and checks build exactly HeaderOf |
| PublicationsFileHeaders.HeaderChild | ksi-net-api/Publication/PublicationsFileHeader.cs:60-78 | a converted child keeps its header, a creation time child is re-read as an unsigned long, and a child of another type is what VerifyUnknownTag makes of it |
| PublicationsFileHeaders.ParseHeaderChild | ksi-net-api/Publication/PublicationsFileHeader.cs:58-78 | one pass of the switch, equal to HeaderStep |
| PublicationsFileHeaders.HeaderLoop | ksi-net-api/Publication/PublicationsFileHeader.cs:56-79 | the loop throws exactly when converting the children throws; otherwise it leaves the converted children and the fields and counters of those children |
| PublicationsFileHeaders.CreationTime | ksi-net-api/Publication/PublicationsFileHeader.cs:100 | the integer the creation time tag holds |
| PublicationsFileHeaders.RepositoryUri | ksi-net-api/Publication/PublicationsFileHeader.cs:105 | null exactly when there is no repository URI tag, otherwise its text |
| PublicationsFileHeaders.Version | ksi-net-api/Publication/PublicationsFileHeader.cs:110 | the integer the version tag holds |
| PublicationsFileHeaders.HeaderOfErrors | ksi-net-api/Publication/PublicationsFileHeader.cs:46-95 | refused for a wrong type, a child that does not convert, then unless exactly one version, exactly one creation time and at most one repository URI, each with its message |
| PublicationsFileHeaders.HeaderGetters | ksi-net-api/Publication/PublicationsFileHeader.cs:66-69 | Version is the integer of the one version child, CreationTime the unsigned long re-decoded from the raw bytes of the one creation time child, and RepositoryUri is null exactly when there is no URI child |
| PublicationsFileHeaders.HeaderOfShape | ksi-net-api/Publication/PublicationsFileHeader.cs:56-79 | children are replaced at their own position with the same header, and other children are kept as VerifyUnknownTag accepted them |
| TreeNodes.NewLevelNode | ksi-net-api/Service/BlockSigner.TreeNode.cs:40-43 | a childless, parentless node with only its level set |
| TreeNodes.NewDocumentNode | ksi-net-api/Service/BlockSigner.TreeNode.cs:50-60 | a null document hash is refused; otherwise a level-0 leaf whose node hash is the document hash |
| TreeNodes.NewMetaDataNode | ksi-net-api/Service/BlockSigner.TreeNode.cs:65-73 | null metadata is refused; otherwise a level-0 leaf holding the metadata |
| TreeNodes.GetLowestLevelNodes | ksi-net-api/Service/BlockSigner.TreeNode.cs:247-268 | a non-empty list, and [node] for a childless node |
| TreeNodes.LowestLevelNodesAreLeaves | ksi-net-api/Service/BlockSigner.TreeNode.cs:247-268 | the list holds only childless nodes of the tree, and every one of them |
| TreeNodes.ValidateChildNodes | ksi-net-api/Service/BlockSigner.TreeNode.cs:154-194 | succeeds exactly when every child points back to its parent and is flagged for its side, then returns the same leaves as GetLowestLevelNodes |
| TreeNodes.ValidateTree | ksi-net-api/Service/BlockSigner.TreeNode.cs:203-224 | throws what ValidateChildNodes throws, then on differing leaf counts, then at the first position whose leaf is not at level 0 or is not the tree's leaf, with a message naming that position |
| TreeNodes.PositionMessagesDetermine | ksi-net-api/Service/BlockSigner.TreeNode.cs:214-221 | each of the two per-position messages names its position: different positions give different messages |
| TreeNodes.FirstMismatch | ksi-net-api/Service/BlockSigner.TreeNode.cs:212-222 | the position the loop stops at is the first that fails |
| TreeNodes.SelfMatch | ksi-net-api/Service/BlockSigner.TreeNode.cs:212-222 | the leaves matched against themselves pass exactly when each has level 0 |
| TreeNodes.PrintTree | ksi-net-api/Service/BlockSigner.TreeNode.cs:230-240 | null for a null root; otherwise it succeeds exactly when the tree is linked and every leaf has level 0 |
| TreeNodes.NewLeafPrints | ksi-net-api/Service/BlockSigner.TreeNode.cs:50-73 | a node built from a document hash or from metadata is accepted by PrintTree |
| TreeNodes.LevelBelow | ksi-net-api/Service/BlockSigner.TreeNode.cs:404-438 | Level - 1 on a uint wraps to the largest uint below zero |
| TreeNodes.AppendChildNodes | ksi-net-api/Service/BlockSigner.TreeNode.cs:395-444 | one pass of GetChildNodes' loop appends ChildNodesAt |
| TreeNodes.GetChildNodes | ksi-net-api/Service/BlockSigner.TreeNode.cs:389-447 | the loop returns ChildNodesUpTo over every node |
| TreeNodes.PaddedChildNodes | ksi-net-api/Service/BlockSigner.TreeNode.cs:380-388 | the documented result: two elements per node, null slots for null nodes and missing children, and fillers at level - 1 for children further down |
| TreeNodes.ChildNodesLength | ksi-net-api/Service/BlockSigner.TreeNode.cs:389-447 | two elements per node, less the slots a last non-null node leaves out for missing children |
| TreeNodes.ChildNodesPrefix | ksi-net-api/Service/BlockSigner.TreeNode.cs:389-447 | up to the last node GetChildNodes writes the documented slots |
| TreeNodes.ChildNodesComplete | ksi-net-api/Service/BlockSigner.TreeNode.cs:389-447 | when the last node is null or has both children, GetChildNodes writes the documented result |
| TreeNodes.ChildNodesAsWritten | ksi-net-api/Service/BlockSigner.TreeNode.cs:380-447 | GetChildNodes returns the documented result exactly when the last node is null or has both children |
| TreeNodes.ChildNodesOfLeaf | ksi-net-api/Service/BlockSigner.TreeNode.cs:380-447 | a single childless node gets no element, not two |
| VerificationRules.VerificationRule.GetRuleName | ksi-net-api/Signature/Verification/Rule/VerificationRule.cs:39-42 | the name of the rule's class |
| VerificationRules.VerificationRule.constructor | ksi-net-api/Signature/Verification/Rule/VerificationRule.cs:49-95 | a rule of the given kind with no successors set |
| VerificationRules.VerificationRule.NextRule | ksi-net-api/Signature/Verification/Rule/VerificationRule.cs:49-62 | Ok gives the success successor, Fail the failure successor and Na the Na successor; null when unset |
| VerificationRules.VerificationRule.OnSuccess | ksi-net-api/Signature/Verification/Rule/VerificationRule.cs:69-73 | sets only the success successor and returns the same rule |
| VerificationRules.VerificationRule.OnNa | ksi-net-api/Signature/Verification/Rule/VerificationRule.cs:80-84 | sets only the Na successor and returns the same rule |
| VerificationRules.VerificationRule.OnFailure | ksi-net-api/Signature/Verification/Rule/VerificationRule.cs:91-95 | sets only the failure successor and returns the same rule |
| VerificationRules.SettersLastWriteWins | ksi-net-api/Signature/Verification/Rule/VerificationRule.cs:69-95 | setting a successor twice keeps the last value, and a setter leaves the other successors |
| VerificationRules.VerificationRule.Verify | ksi-net-api/Signature/Verification/Rule/VerificationRule.cs:102 | what the rule of its kind returns; for the calendar authentication record aggregation hash rule that is the corrected comparison by value (see Findings) |
| VerificationRules.CheckVerificationContext | ksi-net-api/Signature/Verification/Rule/VerificationRule.cs:108-114 | KsiException exactly for a null context |
| VerificationRules.GetSignature | ksi-net-api/Signature/Verification/Rule/VerificationRule.cs:121-131 | the signature unchanged; KsiException for a null context and KsiVerificationException for a null signature |
| VerificationRules.GetAggregationHashChains | ksi-net-api/Signature/Verification/Rule/VerificationRule.cs:139-149 | the chains unchanged; an exception for a null collection, or an empty one unless allowed |
| VerificationRules.GetPublicationsFile | ksi-net-api/Signature/Verification/Rule/VerificationRule.cs:156-166 | the publications file unchanged; an exception for a null context or file |
| VerificationRules.GetCalendarHashChain | ksi-net-api/Signature/Verification/Rule/VerificationRule.cs:174-182 | the calendar chain unchanged; an exception for a missing chain unless allowNullValue |
| VerificationRules.GetCalendarAuthenticationRecord | ksi-net-api/Signature/Verification/Rule/VerificationRule.cs:189-197 | the record unchanged; an exception exactly when it is missing |
| VerificationRules.GetPublicationRecord | ksi-net-api/Signature/Verification/Rule/VerificationRule.cs:204-214 | the publication record unchanged; an exception exactly when it is missing |
| VerificationRules.GetUserPublication | ksi-net-api/Signature/Verification/Rule/VerificationRule.cs:221-232 | the user publication unchanged; an exception for a null context or publication |
| VerificationRules.GetExtendedTimeCalendarHashChain | ksi-net-api/Signature/Verification/Rule/VerificationRule.cs:240-250 | what the extension function returns for the time; an exception exactly when it is null |
| VerificationRules.GetNearestPublicationRecord | ksi-net-api/Signature/Verification/Rule/VerificationRule.cs:258-267 | what the publications file finds for the time; an exception exactly when it is null, whose message names the time |
| VerificationRules.TimeConsistencyOutcome | ksi-net-api/Signature/Verification/Rule/AggregationHashChainTimeConsistencyRule.cs:19-59 | exceptions for a null context, signature or chain collection; Ok exactly when every chain has the first chain's aggregation time (so also for none), otherwise Fail with Int02; never Na |
| VerificationRules.VerifyTimeConsistency | ksi-net-api/Signature/Verification/Rule/AggregationHashChainTimeConsistencyRule.cs:19-59 | the loop keeping the first time seen returns TimeConsistencyOutcome |
| VerificationRules.AggregationHashOutcomeAsWritten | ksi-net-api/Signature/Verification/Rule/CalendarAuthenticationRecordAggregationHashRule.cs:29-44 | the rule as written: the exceptions of the corrected rule, and Ok only without a record or when the two hashes are the same object |
| VerificationRules.AggregationHashOutcome | ksi-net-api/Signature/Verification/Rule/CalendarAuthenticationRecordAggregationHashRule.cs:22-44 | Ok without a calendar authentication record; an exception for a record without a calendar chain; otherwise Ok exactly when the output hash Equals the publication hash, else Fail with Int08; never Na |
| VerificationRules.AggregationHashOutcomesDiffer | ksi-net-api/Signature/Verification/Rule/CalendarAuthenticationRecordAggregationHashRule.cs:36-43 | over every context, the rule as written and the corrected rule differ exactly when a record and a calendar chain are present and comparing their hashes by reference disagrees with comparing them by value |
| VerificationRules.AggregationHashReferenceComparison | ksi-net-api/Signature/Verification/Rule/CalendarAuthenticationRecordAggregationHashRule.cs:41-43 | equal hashes held by two objects fail the rule as written and pass the corrected one; with one object the two agree |
| VerificationRules.AggregationTimeOutcome | ksi-net-api/Signature/Verification/Rule/CalendarAuthenticationRecordAggregationTimeRule.cs:29-44 | Ok without a calendar authentication record; an exception for a record without a calendar chain; otherwise Fail with Int06 exactly when the publication times differ; never Na |
| VerificationRules.ExtendedAggregationTimeOutcome | ksi-net-api/Signature/Verification/Rule/ExtendedSignatureCalendarChainAggregationTimeRule.cs:14-33 | exceptions for a null context or signature, a missing calendar chain, a null extended chain and a null or empty chain collection, in that order; otherwise Fail with Cal03 exactly when the last chain's aggregation time differs from the extended chain's |
| VerificationRules.CalendarHashChainExistenceOutcome | ksi-net-api/Signature/Verification/Rule/CalendarHashChainExistenceRule.cs:19-32 | exceptions for a null context or signature; Na with Gen02 without a calendar chain, Ok with one; never Fail |
| VerificationRules.UserPublicationExistenceOutcome | ksi-net-api/Signature/Verification/Rule/UserProvidedPublicationExistenceRule.cs:17-25 | an exception for a null context; Na with Gen02 without a user publication, Ok with one; never Fail |
| VerificationRules.UserPublicationExistenceIgnoresSignature | ksi-net-api/Signature/Verification/Rule/UserProvidedPublicationExistenceRule.cs:17-25 | the result is the same whatever signature the context holds |
| VerificationRules.RuleOutcomeShape | ksi-net-api/Signature/Verification/Rule/VerificationRule.cs:102-114 | every rule raises KsiException for a null context, and a returned result carries the rule's name and an error exactly when it is not Ok |
| Pdus.IsPayloadType | ksi-net-api/Service/Pdu.cs:68-74 | the loop finds the type exactly when it is in the payload type list |
| Pdus.PduChild | ksi-net-api/Service/Pdu.cs:66-89 | a payload is kept as it is, a header becomes a PduHeader, an HMAC an imprint tag, and anything else goes to VerifyUnknownTag; the header is kept |
| Pdus.GetImprintTag | ksi-net-api/Service/Pdu.cs:85 | an imprint tag is kept; anything else is read as one, keeping its header |
| Pdus.Pdu.constructor | ksi-net-api/Service/Pdu.cs:59-61 | a PDU with no children read yet, no header or HMAC, and the payloads its subclass supplies |
| Pdus.Pdu.ParseChild | ksi-net-api/Service/Pdu.cs:66-89 | the typed child; a header or HMAC child also records its index (the child count at the time) and, when it converts, its field; nothing else changes |
| Pdus.Pdu.ReadChildren | ksi-net-api/Service/Pdu.cs:59-89 | the children are the converted ones, and the header and HMAC fields and indexes hold the last child of their type |
| Pdus.Pdu.Validate | ksi-net-api/Service/Pdu.cs:94-125 | nothing is demanded with an error payload; otherwise payloads, exactly one header, the header at 0, exactly one HMAC and the HMAC last, in that order, each with its message |
| Pdus.ReadPdu | ksi-net-api/Service/Pdu.cs:59-125 | a PDU passes exactly when it has an error payload, or has payloads, one header that is the first child and one HMAC that is the last |
| Pdus.MacInput | ksi-net-api/Service/Pdu.cs:223-230 | the PDU bytes without their last L bytes, or nothing when there are fewer than L |
| Pdus.CreateHashMacTag | ksi-net-api/Service/Pdu.cs:237-240 | an HMAC-typed imprint tag with clear flags holding the hash |
| Pdus.GetEmptyHashMacTag | ksi-net-api/Service/Pdu.cs:247-257 | a null algorithm is refused; otherwise built exactly when the algorithm is registered with its length, and the tag is an HMAC-typed imprint whose bytes are the algorithm id followed by L zero bytes |
| Pdus.ValidateMac | ksi-net-api/Service/Pdu.cs:266-298 | false for null bytes or MAC and for bytes shorter than L; otherwise true exactly when the HMAC of the MAC input Equals the given MAC |
| Pdus.Pdu.SetHmacValue | ksi-net-api/Service/Pdu.cs:187-199 | only the first HMAC-typed child and the HMAC field change, to the HMAC tag computed over the PDU's old bytes; without one nothing changes |
| Pdus.FirstIndexOf | ksi-net-api/Service/Pdu.cs:189-198 | the first position holding an HMAC-typed child, or none when there is no such child |
| Pdus.NewPdu | ksi-net-api/Service/Pdu.cs:135-139 | refused exactly when GetEmptyHashMacTag is; otherwise a fresh PDU with clear flags whose children are the header, the payload and the empty HMAC tag, with the first HMAC-typed child replaced by the HMAC SetHmacValue computes |
| Pdus.BuiltMacValidates | ksi-net-api/Service/Pdu.cs:135-139 | the PDU NewPdu builds from a non-HMAC header and payload carries its HMAC tag as its third child, and its bytes pass ValidateMac with the same key, given a writer that writes the HMAC value last |
| Pdus.ValidateMacRejectsOtherInput | ksi-net-api/Service/Pdu.cs:283-297 | bytes whose MAC input differs are accepted only if the HMAC collides |
| Pdus.PduConversionKeepsTypes | ksi-net-api/Service/Pdu.cs:66-89 | ParseChild keeps every child's type and flags |
| AggregationRequestPayloads.NewAggregationRequestPayload | ksi-net-api/Service/AggregationRequestPayload.cs:46-94 | Validate's loop and checks build exactly RequestOf |
| AggregationRequestPayloads.RequestChild | ksi-net-api/Service/AggregationRequestPayload.cs:60-77 | a converted child keeps its header, and a child of another type is what VerifyUnknownTag makes of it |
| AggregationRequestPayloads.ParseRequestChild | ksi-net-api/Service/AggregationRequestPayload.cs:60-77 | one pass of the switch, equal to RequestStep |
| AggregationRequestPayloads.RequestLoop | ksi-net-api/Service/AggregationRequestPayload.cs:56-78 | the loop throws exactly when converting the children throws; otherwise it leaves the converted children and the fields and counters of those children |
| AggregationRequestPayloads.RequestHash | ksi-net-api/Service/AggregationRequestPayload.cs:132 | the hash the request hash tag holds |
| AggregationRequestPayloads.RequestId | ksi-net-api/Service/AggregationRequestPayload.cs:137 | the integer the request id tag holds |
| AggregationRequestPayloads.RequestLevel | ksi-net-api/Service/AggregationRequestPayload.cs:142 | null exactly when there is no level tag, otherwise its integer |
| AggregationRequestPayloads.RequestOfErrors | ksi-net-api/Service/AggregationRequestPayload.cs:46-94 | refused for a wrong type, a child that does not convert, then unless exactly one request id, exactly one request hash and at most one level, each with its message |
| AggregationRequestPayloads.RequestGetters | ksi-net-api/Service/AggregationRequestPayload.cs:132-142 | RequestId and RequestHash are read from their one child; RequestLevel is null exactly when there is no level child |
| AggregationRequestPayloads.RequestOfShape | ksi-net-api/Service/AggregationRequestPayload.cs:56-78 | children are replaced at their own position with the same header, and other children are kept as VerifyUnknownTag accepted them |
| AggregationRequestPayloads.NewRequestPayload | ksi-net-api/Service/AggregationRequestPayload.cs:101-127 | the children are the request id and the hash and, in the second constructor, the level, with flags clear; a null hash is refused |
| AggregationRequestPayloads.NewRequestPayloadReadsBack | ksi-net-api/Service/AggregationRequestPayload.cs:101-142 | a built payload reads back from its own tag as the same payload, with the same id, hash and level |
| ExtendResponsePayloads.NewExtendResponsePayload | ksi-net-api/Service/ExtendResponsePayload.cs:40-106 | the constructor's loop and checks build exactly ResponseOf |
| ExtendResponsePayloads.ResponseChild | ksi-net-api/Service/ExtendResponsePayload.cs:54-79 | a converted child keeps its header, and a child of another type is what VerifyUnknownTag makes of it |
| ExtendResponsePayloads.ParseResponseChild | ksi-net-api/Service/ExtendResponsePayload.cs:54-79 | one pass of the switch, equal to ResponseStep |
| ExtendResponsePayloads.ResponseLoop | ksi-net-api/Service/ExtendResponsePayload.cs:50-80 | the loop throws exactly when converting the children throws; otherwise it leaves the converted children and the fields and counters of those children |
| ExtendResponsePayloads.ResponseCheckedOf | ksi-net-api/Service/ExtendResponsePayload.cs:82-105 | the checks after the loop, in terms of the children's counts and the status value |
| ExtendResponsePayloads.RequestId | ksi-net-api/Service/ExtendResponsePayload.cs:126 | the integer the request id tag holds |
| ExtendResponsePayloads.Status | ksi-net-api/Service/ExtendResponsePayload.cs:131 | the integer the status tag holds |
| ExtendResponsePayloads.ErrorMessage | ksi-net-api/Service/ExtendResponsePayload.cs:116 | null exactly when there is no error message tag, otherwise its text |
| ExtendResponsePayloads.CalendarLastTime | ksi-net-api/Service/ExtendResponsePayload.cs:121 | null exactly when there is no last time tag, otherwise its integer |
| ExtendResponsePayloads.ResponseOfErrors | ksi-net-api/Service/ExtendResponsePayload.cs:40-106 | refused for a wrong type, a child that does not convert, then unless exactly one request id, exactly one status, at most one error message, at most one last time, and, when the status is 0, exactly one calendar chain, each with its message |
| ExtendResponsePayloads.ResponseGetters | ksi-net-api/Service/ExtendResponsePayload.cs:111-131 | RequestId and Status are read from their one child; ErrorMessage and CalendarLastTime are null exactly when absent; status 0 means exactly one calendar chain, and the last calendar chain is kept |
| ExtendResponsePayloads.ResponseOfShape | ksi-net-api/Service/ExtendResponsePayload.cs:50-80 | children are replaced at their own position with the same header, and other children are kept as VerifyUnknownTag accepted them |
| RequestResponsePayloads.GetIntegerTag | ksi-net-api/Service/RequestResponsePayload.cs:48 | an integer tag is kept; anything else is read as one, keeping its header |
| RequestResponsePayloads.RequestResponsePayload.constructor | ksi-net-api/Service/RequestResponsePayload.cs:36 | a payload with no children read yet and no request id |
| RequestResponsePayloads.RequestResponsePayload.ParseChild | ksi-net-api/Service/RequestResponsePayload.cs:43-52 | a request id child becomes an integer tag stored in the field; any other child goes to the base ParseChild and leaves the field |
| RequestResponsePayloads.RequestResponsePayload.ReadChildren | ksi-net-api/Service/RequestResponsePayload.cs:36-52 | the children are the converted ones, and the field holds the last request id child |
| RequestResponsePayloads.RequestResponsePayload.Validate | ksi-net-api/Service/RequestResponsePayload.cs:57-65 | the base validation first, then exactly one request id, else its message |
| RequestResponsePayloads.RequestResponsePayload.RequestId | ksi-net-api/Service/RequestResponsePayload.cs:70 | the integer the stored request id holds |
| RequestResponsePayloads.ReadRequestResponsePayload | ksi-net-api/Service/RequestResponsePayload.cs:36-70 | built exactly when every child converts, the base validation passes and there is one request id child; RequestId is that child's integer |
| AggregationResponsePayloads.ParseResponseChild | ksi-net-api/Service/AggregationResponsePayload.cs:27-49 | one pass of the switch, equal to ResponseStep |
| AggregationResponsePayloads.ResponseChild | ksi-net-api/Service/AggregationResponsePayload.cs:27-49 | a converted child keeps its header; config and acknowledgment children become raw tags and other children are kept unchanged |
| AggregationResponsePayloads.NewAggregationResponsePayload | ksi-net-api/Service/AggregationResponsePayload.cs:23-51 | the constructor's loop builds exactly ResponseOf |
| AggregationResponsePayloads.ResponseOfSpec | ksi-net-api/Service/AggregationResponsePayload.cs:23-51 | request id and status are read as integers, the error message as a string, config and request acknowledgment as raw tags; each field is the last child of its type; no count checks; the only exceptions are reading and converting |
| AggregationResponsePayloads.ResponseOfShape | ksi-net-api/Service/AggregationResponsePayload.cs:25-50 | children are replaced at their own position with the same header, and children of other types are left untouched |
| AggregationResponsePayloads.CheckStructure | ksi-net-api/Service/AggregationResponsePayload.cs:53-56 | always throws NotImplementedException |

## Left out

- Helpers the core calls but that are not part of this model become fields of a `Codec` value passed to every operation:
  - the TLV reader and writer (`TlvReader`, `TlvWriter`, `MemoryStream`);
  - `IntegerTag`'s encoding;
  - UTF-8 encoding and decoding;
  - `Util.EncodeUnsignedLong` and `Util.DecodeUnsignedLong`;
  - `Base32` and `Crc32`;
  - `HashAlgorithm.GetById`'s table;
  - `VerifyUnknownTag`'s policy.
- The chain operations `ChainIndexOrdering`, `GetOutputHash`, `GetChainIdentity`, the chain's aggregation time and input hash, and `InternalVerificationPolicy` are function parameters.
- The HMAC hasher is a function parameter.
- The round-trip lemmas state what they need of these helpers as hypotheses:
  - the reader reads back what the writer wrote;
  - the integer codec reads back its integers;
  - Base32 round-trips;
  - the time fits in eight bytes;
  - the CRC32 encodes in four.
- The `CompositeTag` base class is not part of this model. Its constructor's loop over `ParseChild` is written out as `ReadChildren`.
  - The base `ParseChild` is `VerifyUnknownTag`.
  - The base `Validate(TagCounter)` does nothing.
  - The response payload base's `ParseChild` and validation are parameters of `RequestResponsePayloads`.
- The payloads and error payload a `Pdu` holds are collected by its subclasses, which are not part of this model. They enter through the constructor.
- `PduHeader`, `CalendarHashChain`, `SignatureData`, the publication records, the calendar authentication record and the RFC 3161 record are not part of this model. They are kept as composites with the children the reader finds.
- The verification rules see the signature, the publications file and the context through view datatypes, because `IKsiSignature`, `IPublicationsFile` and `IVerificationContext` are interfaces. The context's extension functions and the publications file's nearest-record search are oracles.
- A `DataHash` object's identity is modelled by a reference number next to the hash (`HashRef`). It is used only where the source compares references.
- `VerificationRules.GetExtendedTimeCalendarHashChain` takes a non-null context. With a null context the source raises a NullReferenceException before its own check.
- `VerificationRules.VerificationRule.Verify` and `VerificationRules.RuleOutcome` run the corrected, by-value comparison for the calendar authentication record aggregation hash rule, not the reference comparison the source writes (see Findings). `VerificationRules.AggregationHashOutcomesDiffer` states exactly on which contexts the two differ.
- Seven tag-type constants that the modelled code reads are not defined in `Constants.cs`. The model gives each the value of the like-named constant that is defined:
  - `PublicationRecord.TagTypeInSignature`: 0x803;
  - `Pdu.MacTagType`: 0x1f;
  - `PduHeader.TagType`: 0x1;
  - `ExtendResponsePayload.CalendarLastTimeTagType`: 0x10;
  - `PublicationsFileHeader.RepositoryUriTagType`: 0x3;
  - `KsiPduPayload.RequestIdTagType`: 0x1;
  - `PduPayload.RequestIdTagType`: 0x1.
- The aggregation response payload reads `StatusTagType` and `ErrorMessageTagType` inherited from a base class that is not part of this model. The model gives them `KsiPduPayload`'s values, 0x4 and 0x5.
- The proofs rely only on each of these values differing from the other child types its parent reads. `Constants.PduTypesDistinct`'s header and HMAC clause rests on the chosen values.
- `Pdus.ValidateMac`: the two ArgumentNullException branches at Pdu.cs:273-281 cannot be reached, because the check before them already returned. The model has no such branches.
- Integer widths: `ulong` and `uint` values are unbounded naturals, except in two places where the source wraps:
  - the `uint` level decrement in `TreeNodes.LevelBelow`;
  - the unchecked `int` hash codes.
- `List.Sort` is unstable in .NET. `KsiSignatures.SortChains` is a stable insertion sort, so the model fixes one of the orders the source may produce when the comparer ranks chains equal.
- `TreeNode` objects are values identified by an id. A tree is finite and has no shared nodes or cycles, so aliasing between nodes is not modelled.
- `KsiSignatureObjects.KsiSignature`: the `IsExtended`, `IsRfc3161Signature` and `AggregationTime` properties are one-line reads of the built parts and carry no contract of their own.
- Rendering is not modelled: `ToString`, `ToShortString`, `PrintTreeLevel` (which uses `double` arithmetic) and `GetPublicationDate`.
- NLog logging is not modelled.
- `AggregationResponsePayloads`: the constructor of the aggregation PDU payload base class is not part of this model. Any tag type check it makes is not modelled.
- `Array.Copy` exceptions are one error kind (`ArgumentException`), not the source's separate exception types.
- `Parser.IntegerTagOf` cites a use site, because `IntegerTag.cs` is not part of this model. `Pdus.GetImprintTag` likewise cites its call, because the base class that defines it is not part of this model.

## Findings

| source | as written | input that shows it | evidently intended | confidence | as-written member | corrected member |
|---|---|---|---|---|---|---|
| ksi-net-api/Service/BlockSigner.TreeNode.cs:380-447 | the documentation of GetChildNodes promises two elements per given node, but the last non-null node gets no null placeholder for a missing child | a single childless leaf: the result is empty, not two nulls | two slots per node, as documented | not executed | TreeNodes.ChildNodesOfLeaf | TreeNodes.PaddedChildNodes |
| ksi-net-api/Signature/Verification/Rule/CalendarAuthenticationRecordAggregationHashRule.cs:41 | `!=` on two DataHash objects compares references, because DataHash overrides Equals but not the operators | a calendar chain whose output hash and a record whose publication hash are equal hashes held by different objects: the rule returns Fail with Int08 | compare the hashes by value, as the rule's documentation says | not executed | VerificationRules.AggregationHashOutcomeAsWritten | VerificationRules.AggregationHashOutcome |
