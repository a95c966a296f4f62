/**
 * Finding a member in the shown list. Point commands take the first member
 * whose lower-cased full name contains the lower-cased query; the order
 * command takes the first member whose full name equals the query, ignoring case.
 */
module Lookup {
  import opened Wrappers
  import opened Text
  import opened Persons

  datatype Policy = Exact | Substring

  predicate Matches(policy: Policy, fullName: string, query: string) {
    match policy
    case Exact => EqualsIgnoreCase(fullName, query)
    case Substring => Contains(Lower(fullName), Lower(query))
  }

  /** The full names of the shown list, in order. */
  function Names(roster: seq<Person>): (names: seq<string>)
    ensures |names| == |roster|
    ensures forall i :: 0 <= i < |roster| ==> names[i] == roster[i].name
  {
    seq(|roster|, i requires 0 <= i < |roster| => roster[i].name)
  }

  /** The index of the first name the policy accepts, as `stream().filter(..).findFirst()`. */
  function FirstMatch(names: seq<string>, policy: Policy, query: string): (r: Option<nat>)
    ensures r.Some? ==> r.value < |names| && Matches(policy, names[r.value], query)
    ensures r.Some? ==> forall j :: 0 <= j < r.value ==> !Matches(policy, names[j], query)
    ensures r.None? ==> forall j :: 0 <= j < |names| ==> !Matches(policy, names[j], query)
  {
    if names == [] then None
    else if Matches(policy, names[0], query) then Some(0)
    else
      match FirstMatch(names[1..], policy, query)
      case None => None
      case Some(k) => Some(k + 1)
  }

  /** The search over the shown list. */
  method Locate(roster: seq<Person>, policy: Policy, query: string) returns (found: Option<nat>)
    ensures found == FirstMatch(Names(roster), policy, query)
  {
    for i := 0 to |roster|
      invariant forall j :: 0 <= j < i ==> !Matches(policy, roster[j].name, query)
    {
      if Matches(policy, roster[i].name, query) {
        return Some(i);
      }
    }
    return None;
  }

  /** An exact match (ignoring case) is also a substring match. */
  lemma ExactIsSubstring(fullName: string, query: string)
    ensures Matches(Exact, fullName, query) ==> Matches(Substring, fullName, query)
  {
    ContainsSelf(Lower(fullName));
  }

  /**
   * Whenever the order command finds a member, a point command with the same
   * query finds one too, at the same position or earlier in the list.
   */
  lemma {:induction false} SubstringFindsNoLater(names: seq<string>, query: string)
    ensures FirstMatch(names, Exact, query).Some? ==>
              FirstMatch(names, Substring, query).Some? &&
              FirstMatch(names, Substring, query).value <= FirstMatch(names, Exact, query).value
  {
    var e := FirstMatch(names, Exact, query);
    if e.Some? {
      ExactIsSubstring(names[e.value], query);
    }
  }

  /**
   * A query that is a proper prefix of a full name, such as "Alex" for
   * "Alexander Tan", matches by substring but never exactly.
   */
  lemma ProperPrefixPolicies(fullName: string, query: string)
    requires |query| < |fullName| && StartsWith(Lower(fullName), Lower(query))
    ensures Matches(Substring, fullName, query)
    ensures !Matches(Exact, fullName, query)
  {
    assert |Lower(fullName)| != |Lower(query)|;
  }
}
