/** AddMemPointsCommandParser: `n/NAME m/POINTS`. */
module AddMemPointsParsing {
  import opened Wrappers
  import opened Membership
  import opened Arguments
  import opened AddMemPoints
  import AddOrderParsing

  /** Every prefix is present; unlike the order parser, an empty value counts. */
  function ArePrefixesPresent(args: ArgMultimap, prefixes: seq<Prefix>): (r: bool)
    ensures r <==> forall i :: 0 <= i < |prefixes| ==> prefixes[i] in args.values
  {
    if prefixes == [] then true
    else GetValue(args, prefixes[0]).Some? && ArePrefixesPresent(args, prefixes[1..])
  }

  predicate WellFormed(args: ArgMultimap) {
    NamePrefix in args.values && MembershipPointsPrefix in args.values && args.preamble == ""
  }

  /**
   * `parseName` stands for ParserUtil.parseName and `parseMembershipPoints`
   * for ParserUtil.parseMembershipPoints; None is their ParseException.
   */
  function Parse(args: ArgMultimap, parseName: string -> Option<string>,
                 parseMembershipPoints: string -> Option<MembershipPoints>)
    : (r: Result<AddMemPointsCommand, ParseError>)
    ensures r == Failure(InvalidCommandFormat) <==> !WellFormed(args)
    ensures r == Failure(InvalidName) <==> WellFormed(args) && parseName(args.values[NamePrefix]).None?
    ensures r == Failure(InvalidMembershipPoints) <==>
              && WellFormed(args)
              && parseName(args.values[NamePrefix]).Some?
              && parseMembershipPoints(args.values[MembershipPointsPrefix]).None?
    ensures r == Failure(NonPositivePoints) <==>
              && WellFormed(args)
              && parseName(args.values[NamePrefix]).Some?
              && parseMembershipPoints(args.values[MembershipPointsPrefix]).Some?
              && parseMembershipPoints(args.values[MembershipPointsPrefix]).value.value <= 0
    ensures r.Success? <==>
              && WellFormed(args)
              && parseName(args.values[NamePrefix]).Some?
              && parseMembershipPoints(args.values[MembershipPointsPrefix]).Some?
              && parseMembershipPoints(args.values[MembershipPointsPrefix]).value.value > 0
    ensures r.Success? ==>
              && Some(r.value.name) == parseName(args.values[NamePrefix])
              && Some(r.value.pointsToAdd) == parseMembershipPoints(args.values[MembershipPointsPrefix])
  {
    var prefixes := [NamePrefix, MembershipPointsPrefix];
    assert prefixes[0] == NamePrefix && prefixes[1] == MembershipPointsPrefix;
    if !ArePrefixesPresent(args, prefixes) || args.preamble != "" then
      Failure(InvalidCommandFormat)
    else
      match parseName(args.values[NamePrefix])
      case None => Failure(InvalidName)
      case Some(name) =>
        match parseMembershipPoints(args.values[MembershipPointsPrefix])
        case None => Failure(InvalidMembershipPoints)
        case Some(pointsToAdd) =>
          if pointsToAdd.value <= 0 then Failure(NonPositivePoints)
          else Success(AddMemPointsCommand(name, pointsToAdd))
  }

  /** Empty input, points under the `p/` prefix, and points with no prefix are all format errors. */
  lemma MissingPointsPrefixIsFormatError(parseName: string -> Option<string>,
                                         parseMembershipPoints: string -> Option<MembershipPoints>)
    ensures Parse(ArgMultimap("", map[]), parseName, parseMembershipPoints) == Failure(InvalidCommandFormat)
    ensures Parse(ArgMultimap("", map[NamePrefix := "Alice p/10"]), parseName, parseMembershipPoints)
              == Failure(InvalidCommandFormat)
    ensures Parse(ArgMultimap("", map[NamePrefix := "Alice 10"]), parseName, parseMembershipPoints)
              == Failure(InvalidCommandFormat)
  {
  }

  /**
   * `n/Alice m/` passes the presence check with an empty value and fails only
   * when the points text is parsed; the order parser's check would refuse it.
   */
  lemma EmptyValueCountsAsPresent(parseName: string -> Option<string>,
                                  parseMembershipPoints: string -> Option<MembershipPoints>)
    requires parseName("Alice") == Some("Alice") && parseMembershipPoints("") == None
    ensures Parse(ArgMultimap("", map[NamePrefix := "Alice", MembershipPointsPrefix := ""]),
                  parseName, parseMembershipPoints) == Failure(InvalidMembershipPoints)
    ensures !AddOrderParsing.ArePrefixesPresent(
               ArgMultimap("", map[NamePrefix := "Alice", MembershipPointsPrefix := ""]),
               [NamePrefix, MembershipPointsPrefix])
  {
    var args := ArgMultimap("", map[NamePrefix := "Alice", MembershipPointsPrefix := ""]);
    assert args.values[MembershipPointsPrefix] == "";
  }

  /** `n/Alice m/10` gives exactly the command with name Alice and 10 points. */
  lemma ParsesNameAndPoints(parseName: string -> Option<string>,
                            parseMembershipPoints: string -> Option<MembershipPoints>)
    requires parseName("Alice") == Some("Alice")
    requires parseMembershipPoints("10") == Some(MembershipPoints(10))
    ensures Parse(ArgMultimap("", map[NamePrefix := "Alice", MembershipPointsPrefix := "10"]),
                  parseName, parseMembershipPoints) == Success(AddMemPointsCommand("Alice", MembershipPoints(10)))
  {
  }
}
