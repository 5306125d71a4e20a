/**
 * DataHash (ksi-net-api/Hashing/DataHash.cs): a hash value together with the
 * algorithm that produced it, and its imprint, the algorithm id followed by
 * the value. HashAlgorithm.cs is not part of this model: an algorithm is its
 * id, name and digest length, and HashAlgorithm.GetById is a lookup in an
 * algorithm table the caller supplies.
 */
module Hashing {
  import opened Wrappers
  import opened Exceptions

  type byte = b: int | 0 <= b < 256

  datatype HashAlgorithm = HashAlgorithm(id: byte, name: string, length: nat)

  /** The registry behind HashAlgorithm.GetById. */
  type AlgorithmTable = map<byte, HashAlgorithm>

  /** Every registered algorithm is filed under its own id. */
  predicate ValidTable(table: AlgorithmTable) {
    forall id :: id in table ==> table[id].id == id
  }

  /** HashAlgorithm.GetById: the algorithm with the given id, or null. */
  function GetById(table: AlgorithmTable, id: byte): (r: Option<HashAlgorithm>)
    ensures r.Some? <==> id in table
    ensures r.Some? ==> r.value == table[id]
  {
    if id in table then Some(table[id]) else None
  }

  /** A DataHash object: its three read-only fields. */
  datatype DataHash = DataHash(algorithm: HashAlgorithm, imprint: seq<byte>, value: seq<byte>)

  /** What both constructors establish: the value has the algorithm's length and the imprint is the id followed by the value. */
  predicate WellFormed(h: DataHash) {
    |h.value| == h.algorithm.length && h.imprint == [h.algorithm.id] + h.value
  }

  /** The FormatException message for a value of the given size that does not fit the algorithm. */
  function HashSizeMessage(size: nat, algorithm: HashAlgorithm): string {
    "Hash size(" + Decimal(size) + ") does not match " + algorithm.name + " size(" + Decimal(algorithm.length) + ")"
  }

  /** The FormatException message for an imprint whose first byte names no algorithm. */
  function UnknownAlgorithmMessage(id: byte): string {
    "Hash algorithm ID unknown: " + Decimal(id)
  }

  /** DataHash(HashAlgorithm, byte[]): builds the imprint from the algorithm id and the value. */
  function FromValue(algorithm: Option<HashAlgorithm>, valueBytes: Option<seq<byte>>): (r: Result<DataHash, Error>)
    ensures algorithm.None? ==> r == Err(ArgumentNull("algorithm"))
    ensures algorithm.Some? && valueBytes.None? ==> r == Err(ArgumentNull("valueBytes"))
    ensures r.Ok? <==> algorithm.Some? && valueBytes.Some? && |valueBytes.value| == algorithm.value.length
    ensures r.Err? && algorithm.Some? && valueBytes.Some? ==>
              r == Err(Format(HashSizeMessage(|valueBytes.value|, algorithm.value)))
    ensures r.Ok? ==> WellFormed(r.value) && r.value.algorithm == algorithm.value && r.value.value == valueBytes.value
  {
    if algorithm.None? then Err(ArgumentNull("algorithm"))
    else if valueBytes.None? then Err(ArgumentNull("valueBytes"))
    else if |valueBytes.value| != algorithm.value.length then Err(Format(HashSizeMessage(|valueBytes.value|, algorithm.value)))
    else
      var alg := algorithm.value;
      Ok(DataHash(alg, [alg.id] + valueBytes.value, valueBytes.value))
  }

  /** DataHash(byte[]): splits an imprint into the algorithm named by its first byte and the value. */
  function FromImprint(table: AlgorithmTable, imprintBytes: Option<seq<byte>>): (r: Result<DataHash, Error>)
    ensures imprintBytes.None? ==> r == Err(ArgumentNull("imprintBytes"))
    ensures imprintBytes == Some([]) ==> r == Err(Argument("Hash imprint too short"))
    ensures r.Ok? <==> imprintBytes.Some? && |imprintBytes.value| > 0 && imprintBytes.value[0] in table
                       && |imprintBytes.value| == table[imprintBytes.value[0]].length + 1
    ensures imprintBytes.Some? && |imprintBytes.value| > 0 && imprintBytes.value[0] !in table ==>
              r == Err(Format(UnknownAlgorithmMessage(imprintBytes.value[0])))
    ensures imprintBytes.Some? && |imprintBytes.value| > 0 && imprintBytes.value[0] in table
            && |imprintBytes.value| != table[imprintBytes.value[0]].length + 1 ==>
              r == Err(Format(HashSizeMessage(|imprintBytes.value| - 1, table[imprintBytes.value[0]])))
    ensures r.Ok? ==> r.value.imprint == imprintBytes.value && r.value.algorithm == table[imprintBytes.value[0]]
                      && r.value.value == imprintBytes.value[1..]
    ensures r.Ok? && ValidTable(table) ==> WellFormed(r.value)
  {
    if imprintBytes.None? then Err(ArgumentNull("imprintBytes"))
    else
      var bytes := imprintBytes.value;
      if |bytes| == 0 then Err(Argument("Hash imprint too short"))
      else
        match GetById(table, bytes[0])
        case None => Err(Format(UnknownAlgorithmMessage(bytes[0])))
        case Some(alg) =>
          if alg.length + 1 != |bytes| then Err(Format(HashSizeMessage(|bytes| - 1, alg)))
          else Ok(DataHash(alg, bytes, bytes[1..]))
  }

  /** Rebuilding a hash from its imprint gives back the same hash when its algorithm is the registered one. */
  lemma ImprintRoundTrip(table: AlgorithmTable, h: DataHash)
    requires WellFormed(h) && GetById(table, h.algorithm.id) == Some(h.algorithm)
    ensures FromImprint(table, Some(h.imprint)) == Ok(h)
  {
    assert h.imprint[0] == h.algorithm.id;
    assert h.imprint[1..] == h.value;
  }

  /** A hash read from an imprint is the hash the value constructor builds from its algorithm and value. */
  lemma ValueRoundTrip(table: AlgorithmTable, bytes: seq<byte>)
    requires ValidTable(table) && FromImprint(table, Some(bytes)).Ok?
    ensures var h := FromImprint(table, Some(bytes)).value;
            FromValue(Some(h.algorithm), Some(h.value)) == Ok(h)
  {
  }

  /** DataHash.Equals: true exactly for a non-null DataHash with the same imprint, value and algorithm. */
  function Equals(h: DataHash, obj: Option<DataHash>): (r: bool)
    ensures r <==> obj == Some(h)
  {
    obj.Some? && obj.value.imprint == h.imprint && obj.value.value == h.value && obj.value.algorithm == h.algorithm
  }

  const TwoTo32: int := 0x1_0000_0000

  /** The signed 32-bit integer an unchecked C# int holds when the exact result is x. */
  function Int32(x: int): (r: int)
    ensures -0x8000_0000 <= r < 0x8000_0000
    ensures (x - r) % TwoTo32 == 0
  {
    var u := x % TwoTo32;
    if u >= 0x8000_0000 then u - TwoTo32 else u
  }

  /** Two exact values that differ by a multiple of 2^32 wrap to the same int. */
  lemma Int32Congruent(x: int, y: int)
    requires (x - y) % TwoTo32 == 0
    ensures Int32(x) == Int32(y)
  {
    var k := (x - y) / TwoTo32;
    assert x == y + k * TwoTo32;
    assert x % TwoTo32 == y % TwoTo32;
  }

  /** The exact value of the hash-code recurrence res = 31 * res + b started at 1, with no overflow. */
  function Polynomial(s: seq<byte>): int {
    if s == [] then 1 else 31 * Polynomial(s[..|s| - 1]) + s[|s| - 1]
  }

  /** DataHash.GetHashCode as a value: the recurrence over the imprint, truncated to 32 bits. */
  function HashCode(h: DataHash): int {
    Int32(Polynomial(h.imprint))
  }

  lemma MultipleOfTwoTo32(m: int)
    ensures (m * TwoTo32) % TwoTo32 == 0
  {
  }

  /** One step of the unchecked loop: wrapping before multiplying by 31 changes nothing modulo 2^32. */
  lemma WrapStep(y: int, b: byte)
    ensures Int32(31 * Int32(y) + b) == Int32(31 * y + b)
  {
    var w := Int32(y);
    var k := (y - w) / TwoTo32;
    assert y - w == k * TwoTo32;
    assert (31 * y + b) - (31 * w + b) == 31 * (y - w);
    MultipleOfTwoTo32(31 * k);
    Int32Congruent(31 * y + b, 31 * w + b);
  }

  /** DataHash.GetHashCode: the unchecked loop equals the exact recurrence truncated once to 32 bits. */
  method GetHashCode(h: DataHash) returns (code: int)
    ensures code == HashCode(h)
    ensures -0x8000_0000 <= code < 0x8000_0000
  {
    var res := 1;
    var i := 0;
    while i < |h.imprint|
      invariant 0 <= i <= |h.imprint|
      invariant res == Int32(Polynomial(h.imprint[..i]))
    {
      assert h.imprint[..i + 1][..i] == h.imprint[..i];
      WrapStep(Polynomial(h.imprint[..i]), h.imprint[i]);
      res := Int32(31 * res + h.imprint[i]);
      i := i + 1;
    }
    assert h.imprint[..i] == h.imprint;
    code := res;
  }

  /** Equal hashes have equal hash codes. */
  lemma EqualHashesEqualCodes(a: DataHash, b: DataHash)
    requires Equals(a, Some(b))
    ensures HashCode(a) == HashCode(b)
  {
  }
}
