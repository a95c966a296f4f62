/** MembershipPoints: an immutable `int` of lifetime points and the tier it falls in. */
module Membership {
  import opened Wrappers
  import opened Saturation

  datatype Tier = Bronze | Silver | Gold | Platinum

  /** The order of the bands, lowest first. */
  function Rank(t: Tier): nat {
    match t
    case Bronze => 0
    case Silver => 1
    case Gold => 2
    case Platinum => 3
  }

  /** The points each tier asks for, stated independently of the TIERS table. */
  function MinPoints(t: Tier): int {
    match t
    case Bronze => 0
    case Silver => 2000
    case Gold => 5000
    case Platinum => 10000
  }

  /** The tiers and the minimum points required to reach them, from highest to lowest. */
  const TIERS: seq<(Tier, int)> := [(Platinum, 10000), (Gold, 5000), (Silver, 2000), (Bronze, 0)]

  /** Immutable membership points; equality is equality of `value`. */
  datatype MembershipPoints = MembershipPoints(value: Int32)

  datatype PointsError = NotNonNegative

  /** The no-argument constructor. */
  function Zero(): (m: MembershipPoints)
    ensures m.value == 0 && IsValidMembershipPoints(m.value)
    ensures GetTier(m) == Bronze
  {
    MembershipPoints(0)
  }

  /**
   * The valid values are exactly those that reach the lowest tier's minimum;
   * getTier does not check validity and gives BRONZE to the others too.
   */
  predicate IsValidMembershipPoints(test: Int32)
    ensures IsValidMembershipPoints(test) <==> test >= MinPoints(Bronze)
    ensures !IsValidMembershipPoints(test) ==> GetTier(MembershipPoints(test)) == Bronze
  {
    test >= 0
  }

  /**
   * The String constructor, after Integer.parseInt has produced `parsed`:
   * a negative value is refused, anything else is stored.
   * (The `int` constructor stores its argument unchecked: it is the datatype
   * constructor MembershipPoints itself.)
   */
  function FromParsedString(parsed: Int32): (r: Result<MembershipPoints, PointsError>)
    ensures r.Success? <==> parsed >= 0
    ensures r.Success? ==> r.value.value == parsed && IsValidMembershipPoints(r.value.value)
  {
    if IsValidMembershipPoints(parsed) then Success(MembershipPoints(parsed)) else Failure(NotNonNegative)
  }

  /**
   * getTier's loop: entries 0 .. |TIERS| - 2 are tried in order and the first
   * whose threshold is met wins; the last entry is returned without a test.
   */
  function TierFrom(value: int, i: nat): Tier
    requires i < |TIERS|
    decreases |TIERS| - i
  {
    if i == |TIERS| - 1 then TIERS[i].0
    else if value >= TIERS[i].1 then TIERS[i].0
    else TierFrom(value, i + 1)
  }

  /** The tier is the highest band whose minimum the value meets; BRONZE has no minimum. */
  function GetTier(m: MembershipPoints): (t: Tier)
    ensures t == Bronze || m.value >= MinPoints(t)
    ensures forall u :: Rank(u) > Rank(t) ==> m.value < MinPoints(u)
  {
    TierFrom(m.value, 0)
  }

  /** A higher value is never in a lower band. */
  lemma TierMonotonic(a: MembershipPoints, b: MembershipPoints)
    requires a.value <= b.value
    ensures Rank(GetTier(a)) <= Rank(GetTier(b))
  {
  }

  /** Any value below the SILVER minimum, negative ones included, is BRONZE. */
  lemma BelowSilverIsBronze(m: MembershipPoints)
    requires m.value < 2000
    ensures GetTier(m) == Bronze
  {
  }

  lemma TierBoundaries()
    ensures GetTier(MembershipPoints(10000)) == Platinum
    ensures GetTier(MembershipPoints(9999)) == Gold
    ensures GetTier(MembershipPoints(5000)) == Gold
    ensures GetTier(MembershipPoints(4999)) == Silver
    ensures GetTier(MembershipPoints(2000)) == Silver
    ensures GetTier(MembershipPoints(1999)) == Bronze
    ensures GetTier(MembershipPoints(0)) == Bronze
  {
  }
}
