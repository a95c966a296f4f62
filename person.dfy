/**
 * Person: identity and contact fields that never change, and the loyalty
 * state (points, membership points, orders) that the commands update in place.
 */
module Persons {
  import opened Saturation
  import opened Membership
  import opened Catalogues

  /** A point in time; only equality of timestamps matters here. */
  datatype DateTime = DateTime(stamp: int)

  /** One purchase: the item as it was in the catalogue, how many, and when. */
  datatype Order = Order(item: Item, quantity: Int32, dateTime: DateTime)

  /** Spendable points: an immutable `int`; equality is equality of `value`. */
  datatype Points = Points(value: Int32)

  type Allergen = string

  /** Every field of a Person, as a value. */
  datatype PersonRecord = PersonRecord(
    name: string, phone: string, email: string, address: string,
    membershipPoints: MembershipPoints, allergens: set<Allergen>,
    points: Points, orders: seq<Order>)

  class Person {
    const name: string
    const phone: string
    const email: string
    const address: string
    const allergens: set<Allergen>
    var membershipPoints: MembershipPoints
    var points: Points
    var orders: seq<Order>

    function State(): PersonRecord
      reads this
    {
      PersonRecord(name, phone, email, address, membershipPoints, allergens, points, orders)
    }

    /** The constructor copies the allergen set and the order list it is given. */
    constructor (name: string, phone: string, email: string, address: string,
                 membershipPoints: MembershipPoints, allergens: set<Allergen>,
                 points: Points, orders: seq<Order>)
      ensures State() == PersonRecord(name, phone, email, address, membershipPoints, allergens, points, orders)
    {
      this.name := name;
      this.phone := phone;
      this.email := email;
      this.address := address;
      this.membershipPoints := membershipPoints;
      this.allergens := allergens;
      this.points := points;
      this.orders := orders;
    }

    /** A fresh list holding a copy of each stored order, in order. */
    method GetOrders() returns (copy: seq<Order>)
      ensures |copy| == |orders|
      ensures forall i :: 0 <= i < |orders| ==> copy[i] == orders[i]
    {
      copy := [];
      for i := 0 to |orders|
        invariant copy == orders[..i]
      {
        copy := copy + [orders[i]];
      }
    }

    /** Appends one order; every other field is unchanged. */
    method AddOrders(order: Order)
      modifies this
      ensures State() == old(State()).(orders := old(orders) + [order])
    {
      orders := orders + [order];
    }

    /** points := Math.min(points + delta, MAX_POINTS), in `int` arithmetic. */
    method AddPoints(pointsToAdd: Points)
      modifies this
      ensures State() == old(State()).(points := Points(AddCapped(old(points.value), pointsToAdd.value)))
      ensures points.value <= MAX_POINTS
    {
      var newPointsValue := Min(Wrap32(points.value + pointsToAdd.value), MAX_POINTS);
      points := Points(newPointsValue);
    }

    /** The same saturating add on membershipPoints only. */
    method AddMembershipPoints(pointsToAdd: MembershipPoints)
      modifies this
      ensures State() == old(State()).(membershipPoints :=
        MembershipPoints(AddCapped(old(membershipPoints.value), pointsToAdd.value)))
      ensures membershipPoints.value <= MAX_POINTS
    {
      var newValue := Min(Wrap32(membershipPoints.value + pointsToAdd.value), MAX_POINTS);
      membershipPoints := MembershipPoints(newValue);
    }

    /** A new Person equal to this one except for its points; this one is not changed. */
    method SetPoints(newPoints: Points) returns (p: Person)
      ensures fresh(p)
      ensures p.State() == State().(points := newPoints)
    {
      p := new Person(name, phone, email, address, membershipPoints, allergens, newPoints, orders);
    }

    /** A new Person equal to this one except for its membership points. */
    method SetMembershipPoints(newMembershipPoints: MembershipPoints) returns (p: Person)
      ensures fresh(p)
      ensures p.State() == State().(membershipPoints := newMembershipPoints)
    {
      p := new Person(name, phone, email, address, newMembershipPoints, allergens, points, orders);
    }

    /** The weak notion of equality: same name. */
    predicate IsSamePerson(other: Person?)
      ensures IsSamePerson(other) <==> other != null && other.name == name
    {
      other == this || (other != null && other.name == name)
    }

    /** The strong notion of equality: every field equal. */
    predicate Equals(other: Person?)
      reads this, other
      ensures Equals(other) <==> other != null && other.State() == State()
      ensures Equals(other) ==> IsSamePerson(other)
    {
      other == this ||
      (other != null
       && name == other.name && phone == other.phone && email == other.email
       && address == other.address && membershipPoints == other.membershipPoints
       && allergens == other.allergens && points == other.points && orders == other.orders)
    }
  }
}
