# Loyalty core of the address book, modelled in Dafny

The application is a customer address book with a loyalty scheme. Every member
(a `Person`) holds spendable **points**, lifetime **membership points** that
decide a tier (BRONZE, SILVER, GOLD, PLATINUM), and a list of **orders**. The
shop's **catalogue** lists items with a point value. Four commands change this
state:

- `addpts` and `addmempts` add to one counter of the first shown member
  whose name contains the query, ignoring case;
- `addorder` records an order for the first member whose full name equals the
  query, ignoring case, and awards item points times quantity to both counters;
- `seeddata` adds the sample members and sample items the book lacks.

Both counters saturate at `MAX_POINTS` = 2,000,000,000. Java `int` arithmetic is
modelled exactly: `Int32` is the subset type of 32-bit values, and `Wrap32`
gives the two's-complement result of an addition or multiplication.

Modules:

| file | module | models |
|---|---|---|
| wrappers.dfy | Wrappers | Option, Result and Outcome used for error paths |
| text.dfy | Text | lower-casing, substring search and trimming of `String` |
| saturation.dfy | Saturation | `int` wrap-around and the saturating add of both counters |
| membership.dfy | Membership | `MembershipPoints` and its tier table |
| catalogue.dfy | Catalogues | `Catalogue`, a class over a sequence of items |
| person.dfy | Persons | `Person`, a class whose loyalty fields change in place |
| lookup.dfy | Lookup | the two ways the commands find a member in the shown list |
| outcomes.dfy | Outcomes | what each command reports, and its errors |
| add_points_command.dfy | AddPoints | `AddPointsCommand.execute` |
| add_mem_points_command.dfy | AddMemPoints | `AddMemPointsCommand.execute` |
| add_order_command.dfy | AddOrder | `AddOrderCommand.execute`, its result notices and equality |
| seed_data_command.dfy | SeedData | `SeedDataCommand.execute` |
| arguments.dfy | Arguments | the tokenised argument map the parsers read |
| add_order_parser.dfy | AddOrderParsing | `AddOrderCommandParser.parse` |
| add_mem_points_parser.dfy | AddMemPointsParsing | `AddMemPointsCommandParser.parse` |

Commands work on the shown list of members, a `seq<Person>`. They change the
chosen `Person` object in place, so their contracts state the new
`Person.State()` of that member and that every other member is unchanged.
A command exception is a `Failure`, a parser exception is a `Failure` of
`ParseError`, and the success message is a `CommandResult` value.

## Model

| member | source | states |
|---|---|---|
| Saturation.AddCapped | src/main/java/seedu/address/model/person/Person.java:108-116 | the stored counter never exceeds MAX_POINTS, whatever the operands |
| Saturation.AddCappedSaturates | src/main/java/seedu/address/model/person/Person.java:108-116 | while the Java sum does not overflow, the new counter is min(current + delta, MAX_POINTS); it equals MAX_POINTS exactly when the sum reaches it; a non-negative delta never lowers the counter |
| Saturation.AddCappedIdempotentAtCap | src/main/java/seedu/address/model/person/Person.java:108-116 | a counter at the ceiling stays there for any non-negative delta that cannot overflow |
| Saturation.AddCappedCanDecrease | src/main/java/seedu/address/model/person/Person.java:109 | as written, adding 200,000,000 to a counter at MAX_POINTS stores -2,094,967,296 |
| Saturation.PreClampedAdd | src/main/java/seedu/address/logic/commands/AddMemPointsCommand.java:62-64 | the membership command's add, with the delta first limited to MAX_POINTS - current, never exceeds MAX_POINTS |
| Saturation.PreClampedAddSaturates | src/main/java/seedu/address/logic/commands/AddMemPointsCommand.java:62-65 | for a counter in [0, MAX_POINTS] and any int delta, the limited sum cannot overflow; the result is min(current + delta, MAX_POINTS); it is monotone for a non-negative delta; it reaches the ceiling iff the sum does |
| Saturation.CallSitesAgree | src/main/java/seedu/address/model/person/Person.java:108-116 | without overflow, the plain add and the pre-limited add store the same value |
| Saturation.CallSitesDisagreeOnOverflow | src/main/java/seedu/address/logic/commands/AddMemPointsCommand.java:62-64 | for every counter in [0, MAX_POINTS] and non-negative delta whose int sum overflows, the plain add stores a negative value while the pre-limited add stores MAX_POINTS |
| Membership.Zero | src/main/java/seedu/address/model/person/MembershipPoints.java:32-34 | the no-argument constructor gives 0, which is valid and BRONZE |
| Membership.FromParsedString | src/main/java/seedu/address/model/person/MembershipPoints.java:49-54 | the String constructor accepts exactly the non-negative parsed values and stores them unchanged |
| Membership.IsValidMembershipPoints | src/main/java/seedu/address/model/person/MembershipPoints.java:83-86 | valid exactly when the value reaches BRONZE's minimum of 0; an invalid value still gets BRONZE from getTier |
| Membership.GetTier | src/main/java/seedu/address/model/person/MembershipPoints.java:20-67 | the tier is BRONZE or its minimum is met, and no higher tier's minimum is met: the highest band the value reaches |
| Membership.TierMonotonic | src/main/java/seedu/address/model/person/MembershipPoints.java:60-67 | more points never give a lower tier |
| Membership.BelowSilverIsBronze | src/main/java/seedu/address/model/person/MembershipPoints.java:60-67 | every value below 2000, negatives included, is BRONZE, because the last entry is returned without a test |
| Membership.TierBoundaries | src/main/java/seedu/address/model/person/MembershipPoints.java:20-25 | the thresholds 10000, 5000 and 2000 are inclusive lower bounds |
| Text.Lower | src/main/java/seedu/address/model/item/Catalogue.java:52-53 | toLowerCase keeps the length and lower-cases each character |
| Text.LowerIdempotent | src/main/java/seedu/address/model/item/Catalogue.java:65-68 | lower-casing twice is lower-casing once, so findItem's early toLowerCase changes nothing |
| Text.ContainsIffOccurs | src/main/java/seedu/address/logic/commands/AddPointsCommand.java:54 | String.contains holds exactly when the query occurs at some position |
| Text.ContainsSelf | src/main/java/seedu/address/logic/commands/AddPointsCommand.java:54 | every string contains itself |
| Text.TrimStart | src/main/java/seedu/address/logic/parser/AddOrderCommandParser.java:42 | the result is a suffix of the input; only trimmed characters were dropped and the first remaining one is not trimmed |
| Text.TrimEnd | src/main/java/seedu/address/logic/parser/AddOrderCommandParser.java:42 | the result is a prefix of the input; only trimmed characters were dropped and the last remaining one is not trimmed |
| Text.Trim | src/main/java/seedu/address/logic/parser/AddOrderCommandParser.java:42 | the result is a contiguous slice of the input with only characters up to U+0020 outside it, and it neither starts nor ends with such a character |
| Catalogues.IndexOfName | src/main/java/seedu/address/model/item/Catalogue.java:80-88 | the position of the first item whose name equals the query ignoring case, or None exactly when there is none |
| Catalogues.FirstNamed | src/main/java/seedu/address/model/item/Catalogue.java:63-73 | Some exactly when an item has the name ignoring case; the item returned is in the catalogue and has that name |
| Catalogues.RemoveAtKeepsNoSameItems | src/main/java/seedu/address/model/item/Catalogue.java:80-88 | removing one entry keeps a catalogue free of same items |
| Catalogues.Catalogue.constructor | src/main/java/seedu/address/model/item/Catalogue.java:28 | a new catalogue is empty |
| Catalogues.Catalogue.AddItem | src/main/java/seedu/address/model/item/Catalogue.java:37-45 | appends the item exactly when no same item is present, reports whether it did, and keeps the catalogue free of same items |
| Catalogues.Catalogue.HasItem | src/main/java/seedu/address/model/item/Catalogue.java:50-58 | true exactly when some item's name equals the query ignoring case |
| Catalogues.Catalogue.FindItem | src/main/java/seedu/address/model/item/Catalogue.java:63-73 | the first item whose name equals the query ignoring case, or None |
| Catalogues.Catalogue.RemoveItem | src/main/java/seedu/address/model/item/Catalogue.java:80-88 | removes and returns the first item with the name ignoring case, leaving the others in order; otherwise returns None and changes nothing |
| Catalogues.Catalogue.ItemsAreUnique | src/main/java/seedu/address/model/item/Catalogue.java:120-129 | true exactly when no two entries have the same name, compared with case |
| Catalogues.Catalogue.SetItems | src/main/java/seedu/address/model/item/Catalogue.java:90-95 | replaces the contents exactly when the names are distinct; otherwise fails with a duplicate-item error and changes nothing |
| Catalogues.Catalogue.SetItemsFrom | src/main/java/seedu/address/model/item/Catalogue.java:97-100 | the contents become those of the other catalogue |
| Catalogues.CaseVariantsPassSetItems | src/main/java/seedu/address/model/item/Catalogue.java:120-129 | setItems accepts Cookies and cookies together, although addItem would treat them as the same item |
| Catalogues.FindIgnoresCase | src/main/java/seedu/address/model/item/Catalogue.java:63-73 | a lookup finds an item whatever the case of the query |
| Catalogues.Catalogue.ItemsAreUniqueBySameItem | src/main/java/seedu/address/model/item/Catalogue.java:12-16 | the uniqueness the class documents: true exactly when no two entries are the same item, names compared ignoring case |
| Catalogues.SameItemFreeIsStricter | src/main/java/seedu/address/model/item/Catalogue.java:12-16 | a list free of same items also passes itemsAreUnique, so the documented test only refuses more |
| Persons.Person.constructor | src/main/java/seedu/address/model/person/Person.java:38-49 | the new person holds exactly the given fields |
| Persons.Person.GetOrders | src/main/java/seedu/address/model/person/Person.java:86-92 | a copy with the same orders in the same order |
| Persons.Person.AddOrders | src/main/java/seedu/address/model/person/Person.java:97-99 | appends the order; every other field is unchanged |
| Persons.Person.AddPoints | src/main/java/seedu/address/model/person/Person.java:108-111 | points become AddCapped(points, delta); nothing else changes |
| Persons.Person.AddMembershipPoints | src/main/java/seedu/address/model/person/Person.java:113-116 | membership points become AddCapped(membership points, delta); nothing else changes |
| Persons.Person.SetPoints | src/main/java/seedu/address/model/person/Person.java:124-127 | a new person equal to this one but for its points |
| Persons.Person.SetMembershipPoints | src/main/java/seedu/address/model/person/Person.java:134-137 | a new person equal to this one but for its membership points |
| Persons.Person.IsSamePerson | src/main/java/seedu/address/model/person/Person.java:143-150 | true exactly when the other person exists and has the same name |
| Persons.Person.Equals | src/main/java/seedu/address/model/person/Person.java:157-176 | true exactly when every field is equal; strong equality implies same person |
| Lookup.Names | src/main/java/seedu/address/logic/commands/AddPointsCommand.java:51-55 | the full names of the shown list, one per member, in order |
| Lookup.FirstMatch | src/main/java/seedu/address/logic/commands/AddPointsCommand.java:53-55 | the first index whose name the policy accepts; None when no name is accepted |
| Lookup.Locate | src/main/java/seedu/address/logic/commands/AddOrderCommand.java:83-85 | the search over the shown list returns exactly FirstMatch |
| Lookup.ExactIsSubstring | src/main/java/seedu/address/logic/commands/AddOrderCommand.java:84 | a name equal to the query ignoring case also contains it ignoring case |
| Lookup.SubstringFindsNoLater | src/main/java/seedu/address/logic/commands/AddMemPointsCommand.java:53-55 | whenever the order command finds a member, the point commands find one at the same place or earlier |
| Lookup.ProperPrefixPolicies | src/main/java/seedu/address/logic/commands/AddOrderCommand.java:83-85 | a proper prefix of a name, such as a first name, matches by substring but never exactly |
| AddPoints.Execute | src/main/java/seedu/address/logic/commands/AddPointsCommand.java:49-74 | no match: person-not-found and nothing changes; otherwise only the first match's points become AddCapped(old, delta), and the result is the at-maximum report exactly when they reached MAX_POINTS |
| AddPoints.CappingScenario | src/main/java/seedu/address/logic/commands/AddPointsCommand.java:62-70 | a member 5 points below the ceiling who gains 100 ends at MAX_POINTS with the at-maximum report |
| AddPoints.FirstNameFindsMember | src/test/java/seedu/address/logic/commands/AddMemPointsCommandTest.java:57-74 | the first name alone finds the member by substring |
| AddMemPoints.Execute | src/main/java/seedu/address/logic/commands/AddMemPointsCommand.java:50-76 | no match: person-not-found and nothing changes; otherwise only the first match's membership points become PreClampedAdd(old, delta), with the at-maximum report exactly when they equal MAX_POINTS |
| AddMemPoints.StoredValueSaturates | src/main/java/seedu/address/logic/commands/AddMemPointsCommand.java:62-70 | for a stored value in range, the new value is min(old + delta, MAX_POINTS), and the report says maximum exactly when the sum reaches it |
| AddOrder.NewOrder | src/main/java/seedu/address/logic/commands/AddOrderCommand.java:93 | the order holds the item and quantity, with the given time or else the time of execution |
| AddOrder.Award | src/main/java/seedu/address/logic/commands/AddOrderCommand.java:97-100 | the award is the exact product of item points and quantity when it fits in int, and otherwise the int congruent to it modulo 2^32 |
| AddOrder.Execute | src/main/java/seedu/address/logic/commands/AddOrderCommand.java:80-108 | no exact match: person-not-found and nothing changes; otherwise only that member changes: one order appended and both counters become AddCapped(old, points x quantity); each flag is set exactly when its counter equals MAX_POINTS |
| AddOrder.ResultNotices | src/main/java/seedu/address/logic/commands/AddOrderCommand.java:114-128 | a notice appears exactly for each counter at the ceiling, the points notice first |
| AddOrder.SameCommand | src/main/java/seedu/address/logic/commands/AddOrderCommand.java:131-144 | two commands are equal exactly when they agree on everything but the timestamp |
| AddOrder.AwardSaturates | src/main/java/seedu/address/logic/commands/AddOrderCommand.java:97-101 | without overflow, each counter becomes min(old + points x quantity, MAX_POINTS) and is at the ceiling exactly when the sum reaches it |
| AddOrder.AwardCanWrap | src/main/java/seedu/address/logic/commands/AddOrderCommand.java:97 | 1000 points times 3,000,000 units is the negative award -1,294,967,296 |
| AddOrder.ExactNameFindsMember | src/main/java/seedu/address/logic/commands/AddOrderCommand.java:83-85 | the full name finds the member by exact match |
| AddOrder.PlaceOrderScenario | src/main/java/seedu/address/logic/commands/AddOrderCommand.java:91-107 | a member with no points who orders 3 units worth 10 gets one order, 30 points and 30 membership points, with no notice |
| AddOrder.PartialNameScenario | src/main/java/seedu/address/logic/commands/AddOrderCommand.java:83-88 | a proper prefix of the member's name is refused with person-not-found, and the member keeps no orders and 0 points |
| AddOrderParsing.ArePrefixesPresent | src/main/java/seedu/address/logic/parser/AddOrderCommandParser.java:56-64 | true exactly when every prefix has a non-empty value |
| AddOrderParsing.Parse | src/main/java/seedu/address/logic/parser/AddOrderCommandParser.java:32-54 | format error exactly when name or item is missing or empty, or a preamble is present; item-not-found exactly when the trimmed item name is not in the catalogue; on success the item is the catalogue's first same-named item, the quantity is positive and defaults to 1, and there is no timestamp; the name error exactly when the arguments are well formed and the name does not parse, before any item lookup; the malformed-number error exactly when a given quantity does not parse after name and item succeed; success exactly when the arguments are well formed, the name parses, the item is catalogued and any given quantity parses to a positive number; the non-positive-quantity error exactly when all but the last hold and the given quantity is at most 0 |
| AddMemPointsParsing.ArePrefixesPresent | src/main/java/seedu/address/logic/parser/AddMemPointsCommandParser.java:51-53 | true exactly when every prefix is present, an empty value included |
| AddMemPointsParsing.Parse | src/main/java/seedu/address/logic/parser/AddMemPointsCommandParser.java:25-46 | format error exactly when n/ or m/ is missing or a preamble is present; the name error exactly when the name does not parse; the invalid-points error exactly when the name parses and the points do not; non-positive-points error exactly when the parsed points are at most 0; success exactly when both values parse and the points are positive, carrying the parsed name and points |
| AddMemPointsParsing.MissingPointsPrefixIsFormatError | src/test/java/seedu/address/logic/parser/AddMemPointsCommandParserTest.java:48-67 | empty input, `n/Alice p/10` (tokenised with p/ left inside the name) and points without a prefix are each a format error |
| AddMemPointsParsing.EmptyValueCountsAsPresent | src/main/java/seedu/address/logic/parser/AddMemPointsCommandParser.java:51-53 | n/Alice m/ passes the presence check and fails only when the points are parsed, while the order parser's check refuses it |
| AddMemPointsParsing.ParsesNameAndPoints | src/test/java/seedu/address/logic/parser/AddMemPointsCommandParserTest.java:18-25 | n/Alice m/10 gives the command with name Alice and 10 points |
| SeedData.AppModel.AddPerson | src/main/java/seedu/address/logic/commands/SeedDataCommand.java:32 | the member is appended to the list |
| SeedData.AppModel.AddItem | src/main/java/seedu/address/logic/commands/SeedDataCommand.java:39 | the catalogue becomes WithItem(old, item): Model.addItem taken as Catalogue.addItem |
| SeedData.PersonsToAdd | src/main/java/seedu/address/logic/commands/SeedDataCommand.java:30-35 | exactly the samples whose name the snapshot lacks; empty exactly when every sample name is present |
| SeedData.ItemsToAdd | src/main/java/seedu/address/logic/commands/SeedDataCommand.java:37-42 | exactly the sample items whose name the snapshot catalogue lacks, ignoring case; empty exactly when every sample is present |
| SeedData.SeedPersons | src/main/java/seedu/address/logic/commands/SeedDataCommand.java:29-35 | appends PersonsToAdd in sample order and reports whether it added any |
| SeedData.SeedItems | src/main/java/seedu/address/logic/commands/SeedDataCommand.java:37-42 | adds ItemsToAdd through Catalogue.addItem, judged against the snapshot, and reports whether it added any |
| SeedData.Execute | src/main/java/seedu/address/logic/commands/SeedDataCommand.java:26-49 | members and items are added as above; success exactly when something was missing; otherwise nothing-to-seed and nothing changes |
| SeedData.HasNameExtends | src/main/java/seedu/address/model/item/Catalogue.java:50-58 | an item name present in a catalogue stays present when items are appended |
| SeedData.WithItemHasName | src/main/java/seedu/address/model/item/Catalogue.java:37-45 | after addItem an item with the added item's name is present, whether or not it was appended |
| SeedData.AddAllCovers | src/main/java/seedu/address/logic/commands/SeedDataCommand.java:37-42 | after seeding items, every added name and every name already there can be found |
| SeedData.SecondRunAddsNothing | src/main/java/seedu/address/logic/commands/SeedDataCommand.java:26-49 | right after a run, a second run finds nothing to add, so it fails with nothing-to-seed |
| SeedData.SnapshotNotLive | src/main/java/seedu/address/logic/commands/SeedDataCommand.java:28-42 | two same-named samples are both scheduled, because presence is judged on the snapshot; the catalogue keeps only the first |

## Left out

- Case folding is ASCII only: `Text.ToLower` maps A-Z to a-z and leaves every other character alone, unlike Java's Unicode `toLowerCase`.
- Trimming follows `String.trim`: it drops characters up to U+0020 from both ends.
- `Item`, `Points`, `Order`, `Name`, `Allergen`, `Model`, `ModelManager`, `AddressBook`, `ParserUtil`, `ArgumentTokenizer` and `SampleDataUtil` are not part of this model. They are represented as follows:
  - `Item` is a name and an `int` point value. Its `isSameItem` is taken to be name equality ignoring case.
  - `Points` is an `int` whose constructor does not check its argument.
  - Records have value equality.
  - `Order.clone` is the order itself.
- Name and number parsing are function parameters returning `None` for their exceptions: `ParserUtil.parseName`, `ParserUtil.parseMembershipPoints` and `Integer.parseInt`. The `NumberFormatException` of a malformed quantity is the `MalformedNumber` error.
- Tokenising the command line, the command-word dispatch in `AddressBookParser` and the sample data are left out. The parsers start from an argument map; `SeedData.Execute` takes the sample members and items as parameters.
- `Model.setPerson(p, p)` and `updateFilteredPersonList` are left out. They do not change a member's state. The shown list is the whole roster.
- Message texts, `toString` and `hashCode` are left out: results are `CommandResult` values.
- The equality method of `AddMemPointsCommand` is left out: it compares the points object by reference, which value datatypes cannot express. `AddPointsCommand` equality is the datatype's equality, since it compares the name and the points by value.
- SeedData.AppModel.AddPerson: appends the member and does not model the refusal of a member whose name is already listed. Model.addPerson is not part of this model. In the code it derives from, that refusal raises DuplicatePersonException, so two sample members with the same name would end the command there instead of both being added.
- SeedData.AppModel.AddItem: Model.addItem is not part of this model and is taken to be Catalogue.addItem on the model's catalogue, refusing a same item without an error.
- SeedData.SeedItems: AddressBook.hasItem is not part of this model and is taken to be the case-insensitive Catalogue.hasItem on the copied catalogue. The copy made by the AddressBook copy constructor is taken to hold the catalogue's list as it was when the command started, which the model makes with Catalogue.setItems(Catalogue).
- SeedData.SeedPersons: AddressBook.hasPerson is not part of this model and is taken to be a test for a listed member with an equal name, as Person.isSamePerson.
- Time: an order without a timestamp takes the clock reading, which is the `now` parameter of `AddOrder.Execute`.
- JavaFX observable lists are plain sequences; change listeners are not modelled.
- The tier table holds its thresholds as strings that `getTier` parses each time; the model's `TIERS` holds the integers those strings denote.

## Findings

| source | as written | input that shows it | evidently intended | confidence | as-written member | corrected member |
|---|---|---|---|---|---|---|
| src/main/java/seedu/address/model/person/Person.java:108-116 | `Math.min(current + delta, MAX_POINTS)` adds in 32-bit `int`, so a large delta wraps to a negative sum that the clamp keeps | a counter at 2,000,000,000 plus 200,000,000 stores -2,094,967,296 | the saturating sum min(current + delta, MAX_POINTS), which `AddMemPointsCommand` obtains by first limiting the delta to MAX_POINTS - current | not executed | Saturation.AddCappedCanDecrease | Saturation.PreClampedAddSaturates |
| src/main/java/seedu/address/model/item/Catalogue.java:120-129 | itemsAreUnique compares names with case, so setItems(List) accepts entries that addItem treats as the same item | the list Cookies, cookies passes setItems although the two are the same item | uniqueness by Item#isSameItem, as the class comment at lines 12-16 says | not executed | Catalogues.CaseVariantsPassSetItems | Catalogues.Catalogue.ItemsAreUniqueBySameItem |

`AddPointsCommand` and `AddOrderCommand` still go through the add as written, and their models say so (`Saturation.AddCapped`). `AddMemPointsCommand` uses the limited form (`Saturation.PreClampedAdd`). Likewise `Catalogues.Catalogue.SetItems` keeps the case-sensitive test it has, and `Catalogues.SameItemFreeIsStricter` shows that every list the case-sensitive test refuses, the documented test refuses too.
