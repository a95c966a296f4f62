/**
 * Java `int` arithmetic and the point ceiling shared by both point counters.
 * Person.addPoints and Person.addMembershipPoints compute
 * `Math.min(current + delta, MAX_POINTS)` in 32-bit two's complement, so the
 * addition can wrap around before the clamp is applied.
 */
module Saturation {

  const MAX_POINTS: int := 2_000_000_000
  const INT_MIN: int := -0x8000_0000
  const INT_MAX: int := 0x7fff_ffff
  const TWO_TO_32: int := 0x1_0000_0000

  /** A Java `int`. */
  type Int32 = x: int | -0x8000_0000 <= x <= 0x7fff_ffff

  /** The `int` a Java addition, subtraction or multiplication yields for the exact value `x`. */
  function Wrap32(x: int): (r: Int32)
    ensures INT_MIN <= x <= INT_MAX ==> r == x
    ensures INT_MAX < x <= INT_MAX + TWO_TO_32 ==> r == x - TWO_TO_32
    ensures INT_MIN - TWO_TO_32 <= x < INT_MIN ==> r == x + TWO_TO_32
    ensures (x - r) % TWO_TO_32 == 0
  {
    (x + 0x8000_0000) % 0x1_0000_0000 - 0x8000_0000
  }

  /** Math.min. */
  function Min(a: int, b: int): int {
    if a <= b then a else b
  }

  /** The new counter value Person.addPoints and Person.addMembershipPoints store, as written. */
  function AddCapped(current: Int32, delta: Int32): (r: Int32)
    ensures r <= MAX_POINTS
  {
    Min(Wrap32(current + delta), MAX_POINTS)
  }

  /**
   * When the Java sum does not overflow, the stored value is the saturating sum
   * min(current + delta, MAX_POINTS), it reaches the ceiling exactly when the
   * sum does, and a non-negative delta never lowers a counter that is within bounds.
   */
  lemma AddCappedSaturates(current: Int32, delta: Int32)
    requires INT_MIN <= current + delta <= INT_MAX
    ensures AddCapped(current, delta) == Min(current + delta, MAX_POINTS)
    ensures AddCapped(current, delta) == MAX_POINTS <==> current + delta >= MAX_POINTS
    ensures 0 <= delta && current <= MAX_POINTS ==> current <= AddCapped(current, delta)
  {
  }

  /** Re-capping: a counter at the ceiling stays there for any delta that cannot overflow. */
  lemma AddCappedIdempotentAtCap(delta: Int32)
    requires 0 <= delta <= INT_MAX - MAX_POINTS
    ensures AddCapped(MAX_POINTS, delta) == MAX_POINTS
  {
  }

  /**
   * As written, adding 200,000,000 points to a counter at the ceiling wraps the
   * Java sum to a negative number, which the clamp then keeps.
   */
  lemma AddCappedCanDecrease()
    ensures AddCapped(MAX_POINTS, 200_000_000) == -2_094_967_296
    ensures AddCapped(MAX_POINTS, 200_000_000) < 0
  {
  }

  /**
   * AddMemPointsCommand's form: the delta is first limited to the room left
   * below the ceiling, `Math.min(delta, MAX_POINTS - current)`, and then added
   * through Person.addMembershipPoints.
   */
  function PreClampedAdd(current: Int32, delta: Int32): (r: Int32)
    ensures r <= MAX_POINTS
  {
    AddCapped(current, Min(delta, Wrap32(MAX_POINTS - current)))
  }

  /**
   * For a counter within [0, MAX_POINTS] the pre-clamped form never overflows,
   * for any `int` delta, and always yields the saturating sum.
   */
  lemma PreClampedAddSaturates(current: Int32, delta: Int32)
    requires 0 <= current <= MAX_POINTS
    ensures INT_MIN <= current + Min(delta, MAX_POINTS - current) <= MAX_POINTS
    ensures PreClampedAdd(current, delta) == Min(current + delta, MAX_POINTS)
    ensures 0 <= delta ==> current <= PreClampedAdd(current, delta)
    ensures PreClampedAdd(current, delta) == MAX_POINTS <==> current + delta >= MAX_POINTS
  {
  }

  /** The two call sites agree whenever the plain Java sum does not overflow. */
  lemma CallSitesAgree(current: Int32, delta: Int32)
    requires 0 <= current <= MAX_POINTS && 0 <= delta
    requires current + delta <= INT_MAX
    ensures AddCapped(current, delta) == PreClampedAdd(current, delta)
  {
    AddCappedSaturates(current, delta);
    PreClampedAddSaturates(current, delta);
  }

  /**
   * ... and disagree whenever it does: the plain form stores a negative
   * value, the pre-clamped form the ceiling.
   */
  lemma CallSitesDisagreeOnOverflow(current: Int32, delta: Int32)
    requires 0 <= current <= MAX_POINTS && 0 <= delta
    requires current + delta > INT_MAX
    ensures AddCapped(current, delta) < 0
    ensures PreClampedAdd(current, delta) == MAX_POINTS
  {
    PreClampedAddSaturates(current, delta);
  }
}
