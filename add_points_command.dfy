/** AddPointsCommand: add spendable points to the first member whose name contains the query. */
module AddPoints {
  import opened Wrappers
  import opened Text
  import opened Saturation
  import opened Persons
  import opened Lookup
  import opened Outcomes

  /** Equality of commands is equality of the name and of the points value. */
  datatype AddPointsCommand = AddPointsCommand(name: string, pointsToAdd: Points)

  method Execute(cmd: AddPointsCommand, roster: seq<Person>) returns (r: Result<CommandResult, CommandError>)
    modifies roster
    ensures FirstMatch(Names(roster), Substring, cmd.name).None? ==>
              r == Failure(PersonNotFound) &&
              forall q :: q in roster ==> q.State() == old(q.State())
    ensures FirstMatch(Names(roster), Substring, cmd.name).Some? ==>
              var p := roster[FirstMatch(Names(roster), Substring, cmd.name).value];
              && p.State() == old(p.State()).(points := Points(AddCapped(old(p.points.value), cmd.pointsToAdd.value)))
              && (forall q :: q in roster && q != p ==> q.State() == old(q.State()))
              && r == Success(if p.points.value >= MAX_POINTS then PointsAtMaximum(p.name)
                              else PointsAdded(cmd.pointsToAdd.value, p.name))
  {
    var found := Locate(roster, Substring, cmd.name);
    if found.None? {
      return Failure(PersonNotFound);
    }
    var personToEdit := roster[found.value];
    personToEdit.AddPoints(cmd.pointsToAdd);
    var newPoints := personToEdit.points.value;
    if newPoints >= MAX_POINTS {
      r := Success(PointsAtMaximum(personToEdit.name));
    } else {
      r := Success(PointsAdded(cmd.pointsToAdd.value, personToEdit.name));
    }
  }

  /** A first name alone finds the member by substring. */
  lemma FirstNameFindsMember()
    ensures FirstMatch(["Alex Yeoh"], Substring, "Alex") == Some(0)
  {
    assert Matches(Substring, "Alex Yeoh", "Alex") by {
      assert Lower("Alex Yeoh") == "alex yeoh" && Lower("Alex") == "alex";
      assert StartsWith("alex yeoh", "alex");
    }
  }

  /**
   * The points-ceiling scenario: a member at MAX_POINTS - 5 who is given 100
   * points ends at MAX_POINTS and the command reports the limit.
   */
  method CappingScenario() returns (member: Person, r: Result<CommandResult, CommandError>)
    ensures member.points == Points(MAX_POINTS)
    ensures r == Success(PointsAtMaximum("Alex Yeoh"))
  {
    member := new Person("Alex Yeoh", "87438807", "alexyeoh@example.com", "Blk 30 Geylang Street 29",
                         Membership.MembershipPoints(0), {}, Points(MAX_POINTS - 5), []);
    var roster := [member];
    assert Names(roster) == ["Alex Yeoh"];
    FirstNameFindsMember();
    r := Execute(AddPointsCommand("Alex", Points(100)), roster);
  }
}
