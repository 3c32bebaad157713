/**
 * `FixedZoneRules` (FixedZoneRules.java): the zone rules of a constant offset,
 * the transition-free case of the rules the registry hands out.
 */
module FixedRules {
  import opened JavaInt

  /** A zone offset, known here only by its ID ("Z" for UTC, "+01:00" and so on). */
  datatype ZoneOffset = ZoneOffset(id: string)

  /** `ZoneOffset.UTC` */
  const UTC: ZoneOffset := ZoneOffset("Z")

  /** Rules that apply one offset at every instant. */
  datatype FixedZoneRules = FixedZoneRules(offset: ZoneOffset) {

    /** `getOffset`: the fixed offset, whatever the instant. */
    function GetOffset<Instant>(instant: Instant): (o: ZoneOffset)
      ensures o == offset
    {
      offset
    }

    /** `getStandardOffset`: the fixed offset, whatever the instant. */
    function GetStandardOffset<Instant>(instant: Instant): (o: ZoneOffset)
      ensures o == offset
    {
      offset
    }

    function IsFixed(): (b: bool)
      ensures b
    {
      true
    }

    /** `equals`: the same object, or rules with the same offset. */
    function Equals(other: FixedZoneRules): (b: bool)
      ensures b <==> offset == other.offset
    {
      this == other || offset == other.offset
    }

    /** `hashCode`: the offset's hash code, which `offsetHash` supplies. */
    function HashCode(offsetHash: ZoneOffset -> int32): (h: int32)
      ensures h == offsetHash(offset)
    {
      offsetHash(offset)
    }

    /** `toString`: "UTC" for the UTC offset, otherwise "UTC" followed by the offset's ID. */
    function ToString(): (s: string)
      ensures offset == UTC ==> s == "UTC"
      ensures offset != UTC ==> s == "UTC" + offset.id
    {
      if offset == UTC then "UTC" else "UTC" + offset.id
    }
  }

  /** The offset and the standard offset are the construction offset at every instant. */
  lemma OffsetAtEveryInstant<Instant>(rules: FixedZoneRules, i: Instant, j: Instant)
    ensures rules.GetOffset(i) == rules.GetOffset(j) == rules.offset
    ensures rules.GetStandardOffset(i) == rules.GetOffset(j)
  {
  }

  /** `equals` is an equivalence: reflexive, symmetric and transitive. */
  lemma EqualsIsEquivalence(a: FixedZoneRules, b: FixedZoneRules, c: FixedZoneRules)
    ensures a.Equals(a)
    ensures a.Equals(b) ==> b.Equals(a)
    ensures a.Equals(b) && b.Equals(c) ==> a.Equals(c)
  {
  }

  /** Equal rules have equal hash codes, whatever the offsets' hash function. */
  lemma EqualsHashCode(a: FixedZoneRules, b: FixedZoneRules, offsetHash: ZoneOffset -> int32)
    requires a.Equals(b)
    ensures a.HashCode(offsetHash) == b.HashCode(offsetHash)
  {
  }
}
