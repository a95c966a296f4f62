/**
 * The tokenised form of a command's arguments: the text before the first
 * prefix, and the value given after each prefix that appears.
 */
module Arguments {
  import opened Wrappers

  datatype Prefix = NamePrefix | ItemPrefix | QuantityPrefix | MembershipPointsPrefix

  datatype ArgMultimap = ArgMultimap(preamble: string, values: map<Prefix, string>)

  function GetValue(args: ArgMultimap, prefix: Prefix): Option<string> {
    if prefix in args.values then Some(args.values[prefix]) else None
  }

  datatype ParseError =
    | InvalidCommandFormat     // the usage message
    | InvalidName              // from ParserUtil.parseName
    | ItemNotFoundInCatalog
    | NonPositiveQuantity
    | MalformedNumber          // NumberFormatException from Integer.parseInt
    | InvalidMembershipPoints  // from ParserUtil.parseMembershipPoints
    | NonPositivePoints        // AddMemPointsCommand.MESSAGE_CONSTRAINTS
}
