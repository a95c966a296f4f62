/**
 * AddMemPointsCommand: add membership points to the first member whose name
 * contains the query, limiting the delta to the room left below the ceiling.
 */
module AddMemPoints {
  import opened Wrappers
  import opened Text
  import opened Saturation
  import opened Membership
  import opened Persons
  import opened Lookup
  import opened Outcomes

  datatype AddMemPointsCommand = AddMemPointsCommand(name: string, pointsToAdd: MembershipPoints)

  method Execute(cmd: AddMemPointsCommand, roster: seq<Person>) returns (r: Result<CommandResult, CommandError>)
    modifies roster
    ensures FirstMatch(Names(roster), Substring, cmd.name).None? ==>
              r == Failure(PersonNotFound) &&
              forall q :: q in roster ==> q.State() == old(q.State())
    ensures FirstMatch(Names(roster), Substring, cmd.name).Some? ==>
              var p := roster[FirstMatch(Names(roster), Substring, cmd.name).value];
              && p.State() == old(p.State()).(membershipPoints :=
                   MembershipPoints(PreClampedAdd(old(p.membershipPoints.value), cmd.pointsToAdd.value)))
              && (forall q :: q in roster && q != p ==> q.State() == old(q.State()))
              && r == Success(if p.membershipPoints.value == MAX_POINTS then MembershipPointsAtMaximum(p.name)
                              else MembershipPointsAdded(cmd.pointsToAdd.value, p.name))
  {
    var found := Locate(roster, Substring, cmd.name);
    if found.None? {
      return Failure(PersonNotFound);
    }
    var personToEdit := roster[found.value];
    var oldMemPoints := personToEdit.membershipPoints.value;
    personToEdit.AddMembershipPoints(
      MembershipPoints(Min(cmd.pointsToAdd.value, Wrap32(MAX_POINTS - oldMemPoints))));
    var newMemPoints := personToEdit.membershipPoints.value;
    if newMemPoints == MAX_POINTS {
      r := Success(MembershipPointsAtMaximum(personToEdit.name));
    } else {
      r := Success(MembershipPointsAdded(cmd.pointsToAdd.value, personToEdit.name));
    }
  }

  /**
   * For a member whose membership points lie in [0, MAX_POINTS] the command
   * stores min(old + delta, MAX_POINTS) for every `int` delta, reports the
   * limit exactly when that sum reaches it, and for a non-negative delta that
   * cannot overflow stores what Person.addMembershipPoints(delta) alone would.
   */
  lemma StoredValueSaturates(oldValue: Int32, delta: Int32)
    requires 0 <= oldValue <= MAX_POINTS
    ensures PreClampedAdd(oldValue, delta) == Min(oldValue + delta, MAX_POINTS)
    ensures PreClampedAdd(oldValue, delta) == MAX_POINTS <==> oldValue + delta >= MAX_POINTS
    ensures 0 <= delta && oldValue + delta <= INT_MAX ==>
              PreClampedAdd(oldValue, delta) == AddCapped(oldValue, delta)
  {
    PreClampedAddSaturates(oldValue, delta);
    if 0 <= delta && oldValue + delta <= INT_MAX {
      CallSitesAgree(oldValue, delta);
    }
  }
}
