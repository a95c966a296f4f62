/** What a command reports, in place of its formatted message or CommandException. */
module Outcomes {

  datatype CommandResult =
    | PointsAdded(added: int, name: string)
    | PointsAtMaximum(name: string)
    | MembershipPointsAdded(added: int, name: string)
    | MembershipPointsAtMaximum(name: string)
    | OrderAdded(name: string, maxPointsReached: bool, maxMembershipPointsReached: bool)
    | DataSeeded

  datatype CommandError =
    | PersonNotFound
    | NothingToSeed
}
