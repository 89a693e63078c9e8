/** Ordered candidate lists, as the scripts use them for selectors: the
    candidates are tried left to right and the first that resolves wins. */
module Cascade {
  import opened Strings

  /** The index of the first candidate that resolves. */
  function FirstIn(candidates: seq<string>, resolves: set<string>): (r: Option<nat>)
    ensures r.Some? ==> r.value < |candidates| && candidates[r.value] in resolves
    ensures r.Some? ==> forall j :: 0 <= j < r.value ==> candidates[j] !in resolves
    ensures r.None? ==> forall j :: 0 <= j < |candidates| ==> candidates[j] !in resolves
  {
    if |candidates| == 0 then None
    else if candidates[0] in resolves then Some(0)
    else match FirstIn(candidates[1..], resolves)
      case None => None
      case Some(k) => Some(k + 1)
  }

  /** How many candidates are waited for: up to and including the first that
      resolves, or all of them. */
  function Tried(candidates: seq<string>, resolves: set<string>): (n: nat)
    ensures n <= |candidates|
  {
    match FirstIn(candidates, resolves)
    case Some(k) => k + 1
    case None => |candidates|
  }
}
