/** AddOrderCommandParser: `n/NAME i/ITEM [q/QUANTITY]` against the catalogue. */
module AddOrderParsing {
  import opened Wrappers
  import opened Text
  import opened Saturation
  import opened Catalogues
  import opened Arguments
  import opened AddOrder

  /** Every prefix is present with a non-empty value. */
  function ArePrefixesPresent(args: ArgMultimap, prefixes: seq<Prefix>): (r: bool)
    ensures r <==> forall i :: 0 <= i < |prefixes| ==>
                     prefixes[i] in args.values && args.values[prefixes[i]] != ""
  {
    if prefixes == [] then true
    else
      var value := GetValue(args, prefixes[0]);
      value.Some? && value.value != "" && ArePrefixesPresent(args, prefixes[1..])
  }

  /** The parser's own checks hold: name and item given and non-empty, no preamble. */
  predicate WellFormed(args: ArgMultimap) {
    && NamePrefix in args.values && args.values[NamePrefix] != ""
    && ItemPrefix in args.values && args.values[ItemPrefix] != ""
    && args.preamble == ""
  }

  /**
   * `parseName` stands for ParserUtil.parseName and `parseInt` for
   * Integer.parseInt; None is their exception.
   */
  function Parse(args: ArgMultimap, catalogue: Catalogue,
                 parseName: string -> Option<string>, parseInt: string -> Option<Int32>)
    : (r: Result<AddOrderCommand, ParseError>)
    reads catalogue
    ensures r == Failure(InvalidCommandFormat) <==> !WellFormed(args)
    ensures r == Failure(InvalidName) <==> WellFormed(args) && parseName(args.values[NamePrefix]).None?
    ensures r == Failure(ItemNotFoundInCatalog) <==>
              WellFormed(args) && parseName(args.values[NamePrefix]).Some? &&
              !HasName(catalogue.items, Trim(args.values[ItemPrefix]))
    ensures r.Success? ==>
              && WellFormed(args)
              && parseName(args.values[NamePrefix]) == Some(r.value.name)
              && r.value.item == FirstNamed(catalogue.items, Trim(args.values[ItemPrefix])).value
              && r.value.item in catalogue.items
              && r.value.quantity > 0
              && (QuantityPrefix !in args.values ==> r.value.quantity == 1)
              && (QuantityPrefix in args.values ==> parseInt(args.values[QuantityPrefix]) == Some(r.value.quantity))
              && r.value.orderDateTime.None?
    ensures r.Success? <==>
              && WellFormed(args)
              && parseName(args.values[NamePrefix]).Some?
              && HasName(catalogue.items, Trim(args.values[ItemPrefix]))
              && (QuantityPrefix in args.values ==>
                    parseInt(args.values[QuantityPrefix]).Some? && parseInt(args.values[QuantityPrefix]).value > 0)
    ensures r == Failure(MalformedNumber) <==>
              && WellFormed(args)
              && parseName(args.values[NamePrefix]).Some?
              && HasName(catalogue.items, Trim(args.values[ItemPrefix]))
              && QuantityPrefix in args.values
              && parseInt(args.values[QuantityPrefix]).None?
    ensures r == Failure(NonPositiveQuantity) <==>
              && WellFormed(args)
              && parseName(args.values[NamePrefix]).Some?
              && HasName(catalogue.items, Trim(args.values[ItemPrefix]))
              && QuantityPrefix in args.values
              && parseInt(args.values[QuantityPrefix]).Some?
              && parseInt(args.values[QuantityPrefix]).value <= 0
  {
    var prefixes := [NamePrefix, ItemPrefix];
    assert prefixes[0] == NamePrefix && prefixes[1] == ItemPrefix;
    if !ArePrefixesPresent(args, prefixes) || args.preamble != "" then
      Failure(InvalidCommandFormat)
    else
      match parseName(GetValue(args, NamePrefix).GetOr(""))
      case None => Failure(InvalidName)
      case Some(name) =>
        var itemName := Trim(GetValue(args, ItemPrefix).GetOr(""));
        match FirstNamed(catalogue.items, itemName)
        case None => Failure(ItemNotFoundInCatalog)
        case Some(item) =>
          var quantity := if GetValue(args, QuantityPrefix).Some? then parseInt(args.values[QuantityPrefix])
                          else Some(1);
          match quantity
          case None => Failure(MalformedNumber)
          case Some(q) =>
            if q <= 0 then Failure(NonPositiveQuantity)
            else Success(AddOrderCommand(name, item, q, None))
  }
}
