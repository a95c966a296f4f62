/**
 * AddOrderCommand: record an order for the member whose full name equals the
 * given name (ignoring case) and award item points times quantity to both
 * point counters.
 */
module AddOrder {
  import opened Wrappers
  import opened Text
  import opened Saturation
  import opened Membership
  import opened Catalogues
  import opened Persons
  import opened Lookup
  import opened Outcomes

  /** A timestamp given on the command, or None to take the time of execution. */
  datatype AddOrderCommand = AddOrderCommand(name: string, item: Item, quantity: Int32,
                                             orderDateTime: Option<DateTime>)

  /**
   * `item.getPoints() * quantity` in `int` arithmetic: the exact product when
   * it fits, and otherwise the `int` congruent to it modulo 2^32.
   */
  function Award(cmd: AddOrderCommand): (r: Int32)
    ensures INT_MIN <= cmd.item.points * cmd.quantity <= INT_MAX ==> r == cmd.item.points * cmd.quantity
    ensures (cmd.item.points * cmd.quantity - r) % TWO_TO_32 == 0
  {
    Wrap32(cmd.item.points * cmd.quantity)
  }

  /** The recorded order: the command's timestamp if it has one, else `now`. */
  function NewOrder(cmd: AddOrderCommand, now: DateTime): (o: Order)
    ensures o.item == cmd.item && o.quantity == cmd.quantity
    ensures cmd.orderDateTime.Some? ==> o.dateTime == cmd.orderDateTime.value
    ensures cmd.orderDateTime.None? ==> o.dateTime == now
  {
    Order(cmd.item, cmd.quantity, cmd.orderDateTime.GetOr(now))
  }

  /** `now` is the clock reading the source takes when no timestamp is given. */
  method Execute(cmd: AddOrderCommand, roster: seq<Person>, now: DateTime)
    returns (r: Result<CommandResult, CommandError>)
    modifies roster
    ensures FirstMatch(Names(roster), Exact, cmd.name).None? ==>
              r == Failure(PersonNotFound) &&
              forall q :: q in roster ==> q.State() == old(q.State())
    ensures FirstMatch(Names(roster), Exact, cmd.name).Some? ==>
              var p := roster[FirstMatch(Names(roster), Exact, cmd.name).value];
              && p.State() == old(p.State()).(
                   orders := old(p.orders) + [NewOrder(cmd, now)],
                   points := Points(AddCapped(old(p.points.value), Award(cmd))),
                   membershipPoints := MembershipPoints(AddCapped(old(p.membershipPoints.value), Award(cmd))))
              && (forall q :: q in roster && q != p ==> q.State() == old(q.State()))
              && r == Success(OrderAdded(p.name, p.points.value == MAX_POINTS,
                                         p.membershipPoints.value == MAX_POINTS))
  {
    var found := Locate(roster, Exact, cmd.name);
    if found.None? {
      return Failure(PersonNotFound);
    }
    var personToUpdate := roster[found.value];
    var newOrder := if cmd.orderDateTime.Some? then Order(cmd.item, cmd.quantity, cmd.orderDateTime.value)
                    else Order(cmd.item, cmd.quantity, now);
    personToUpdate.AddOrders(newOrder);
    var pointsToAdd := Points(Wrap32(cmd.item.points * cmd.quantity));
    personToUpdate.AddPoints(pointsToAdd);
    var membershipPointsToAdd := MembershipPoints(Wrap32(cmd.item.points * cmd.quantity));
    personToUpdate.AddMembershipPoints(membershipPointsToAdd);
    r := Success(OrderAdded(personToUpdate.name,
                            personToUpdate.points.value == MAX_POINTS,
                            personToUpdate.membershipPoints.value == MAX_POINTS));
  }

  /** The notices generateResultMessage appends after the success line. */
  datatype Notice = MaxPointsReached | MaxMembershipPointsReached

  function ResultNotices(maxPointsReached: bool, maxMembershipPointsReached: bool): (notices: seq<Notice>)
    ensures MaxPointsReached in notices <==> maxPointsReached
    ensures MaxMembershipPointsReached in notices <==> maxMembershipPointsReached
    ensures |notices| == (if maxPointsReached then 1 else 0) + (if maxMembershipPointsReached then 1 else 0)
    ensures notices != [] ==> notices[0] == if maxPointsReached then MaxPointsReached else MaxMembershipPointsReached
  {
    if maxPointsReached && maxMembershipPointsReached then [MaxPointsReached, MaxMembershipPointsReached]
    else if maxPointsReached then [MaxPointsReached]
    else if maxMembershipPointsReached then [MaxMembershipPointsReached]
    else []
  }

  /** Command equality: name, item and quantity; the timestamp is not compared. */
  predicate SameCommand(a: AddOrderCommand, b: AddOrderCommand)
    ensures SameCommand(a, b) <==> a.(orderDateTime := None) == b.(orderDateTime := None)
  {
    a.name == b.name && a.item == b.item && a.quantity == b.quantity
  }

  /**
   * While neither the product nor the sums overflow, each counter becomes
   * min(old + item points * quantity, MAX_POINTS), and its flag is set exactly
   * when that sum reaches the ceiling.
   */
  lemma AwardSaturates(oldValue: Int32, cmd: AddOrderCommand)
    requires INT_MIN <= cmd.item.points * cmd.quantity <= INT_MAX
    requires INT_MIN <= oldValue + cmd.item.points * cmd.quantity <= INT_MAX
    ensures AddCapped(oldValue, Award(cmd)) == Min(oldValue + cmd.item.points * cmd.quantity, MAX_POINTS)
    ensures AddCapped(oldValue, Award(cmd)) == MAX_POINTS <==>
              oldValue + cmd.item.points * cmd.quantity >= MAX_POINTS
  {
    AddCappedSaturates(oldValue, Award(cmd));
  }

  /** The product itself can wrap: 1000 points times 3,000,000 units is a negative award. */
  lemma AwardCanWrap()
    ensures Award(AddOrderCommand("Alex Yeoh", Item("Cookies", 1000), 3_000_000, None)) == -1_294_967_296
  {
  }

  lemma ExactNameFindsMember()
    ensures FirstMatch(["Alex Yeoh"], Exact, "Alex Yeoh") == Some(0)
  {
  }

  /**
   * A member with no points orders 3 units of an item worth 10: one order is
   * recorded, both counters become 30 and neither flag is set.
   */
  method PlaceOrderScenario() returns (member: Person, r: Result<CommandResult, CommandError>)
    ensures member.orders == [Order(Item("Cookies", 10), 3, DateTime(0))]
    ensures member.points == Points(30) && member.membershipPoints == MembershipPoints(30)
    ensures r == Success(OrderAdded("Alex Yeoh", false, false))
  {
    member := new Person("Alex Yeoh", "87438807", "alexyeoh@example.com", "Blk 30 Geylang Street 29",
                         MembershipPoints(0), {}, Points(0), []);
    var roster := [member];
    assert Names(roster) == ["Alex Yeoh"];
    ExactNameFindsMember();
    r := Execute(AddOrderCommand("Alex Yeoh", Item("Cookies", 10), 3, None), roster, DateTime(0));
  }

  /**
   * The order command refuses a query that is a proper prefix of the member's
   * name (such as "Alex" for "Alexander Tan"), which the point commands accept.
   */
  method PartialNameScenario(fullName: string, query: string)
    returns (member: Person, r: Result<CommandResult, CommandError>)
    requires |query| < |fullName| && StartsWith(Lower(fullName), Lower(query))
    ensures member.orders == [] && member.points == Points(0)
    ensures r == Failure(PersonNotFound)
  {
    member := new Person(fullName, "87438807", "alex@example.com", "Blk 30 Geylang Street 29",
                         MembershipPoints(0), {}, Points(0), []);
    var roster := [member];
    assert Names(roster) == [fullName];
    ProperPrefixPolicies(fullName, query);
    r := Execute(AddOrderCommand(query, Item("Cookies", 10), 3, None), roster, DateTime(0));
  }
}
