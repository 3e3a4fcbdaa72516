/** The adventurer factory: an append-only party of adventurers sharing one role. */
module Party {
  import opened Wrappers
  import opened Adventure

  /** The position of the first character named `name`, as `Array.prototype.find` scans. */
  function FirstNamed(party: seq<Character>, name: string): (r: Option<nat>)
    ensures r.Some? ==> r.value < |party| && party[r.value].name == name
    ensures r.Some? ==> forall j :: 0 <= j < r.value ==> party[j].name != name
    ensures r.None? ==> forall j :: 0 <= j < |party| ==> party[j].name != name
  {
    if party == [] then None
    else if party[0].name == name then Some(0)
    else match FirstNamed(party[1..], name)
      case None => None
      case Some(k) => Some(k + 1)
  }

  /**
   * Appending a character never changes the answer for a name already in the
   * party; otherwise the newcomer is found if it has the name.
   */
  lemma {:induction false} FirstNamedAppend(party: seq<Character>, a: Character, name: string)
    ensures FirstNamed(party + [a], name) ==
      if FirstNamed(party, name).Some? then FirstNamed(party, name)
      else if a.name == name then Some(|party|)
      else None
  {
    if party != [] {
      assert (party + [a])[1..] == party[1..] + [a];
      FirstNamedAppend(party[1..], a, name);
    }
  }

  class AdventurerFactory {
    const role: string
    var adventurers: seq<Character>

    /** Every adventurer the factory holds has the factory's role. */
    ghost predicate Valid()
      reads this
    {
      forall a :: a in adventurers ==> a.kind == Adventurer(role)
    }

    /** `new AdventurerFactory(role)`: the role, and no adventurers yet. */
    constructor (role: string)
      ensures this.role == role && adventurers == []
      ensures Valid()
    {
      this.role := role;
      this.adventurers := [];
    }

    /**
     * `generate(name)`: constructs an adventurer with the factory's role,
     * appends it and returns it; an invalid role throws before anything is
     * appended.
     */
    method Generate(name: string) returns (r: Result<Character, RoleError>)
      modifies this`adventurers
      ensures r.Success? <==> IsRole(role)
      ensures r.Failure? ==> r.error == InvalidRole(role) && adventurers == old(adventurers)
      ensures r.Success? ==>
        && fresh(r.value)
        && adventurers == old(adventurers) + [r.value]
        && r.value.name == name && r.value.kind == Adventurer(role)
        && r.value.health == MAX_HEALTH && r.value.inventory == STARTING_ITEMS
      ensures r.Success? ==> FindByIndex(|old(adventurers)|) == Some(r.value)
      ensures r.Success? ==>
        FindByName(name) == if old(FindByName(name)).Some? then old(FindByName(name)) else Some(r.value)
      ensures old(Valid()) ==> Valid()
    {
      r := NewAdventurer(name, role);
      if r.Success? {
        FirstNamedAppend(adventurers, r.value, name);
        adventurers := adventurers + [r.value];
      }
    }

    /** `findByIndex(index)`: the adventurer at that position, absent when out of range. */
    function FindByIndex(index: int): (r: Option<Character>)
      reads this
      ensures r.Some? <==> 0 <= index < |adventurers|
      ensures r.Some? ==> r.value == adventurers[index]
    {
      if 0 <= index < |adventurers| then Some(adventurers[index]) else None
    }

    /** `findByName(name)`: the first adventurer with that name, absent when there is none. */
    function FindByName(name: string): (r: Option<Character>)
      reads this
      ensures r.Some? ==> r.value in adventurers && r.value.name == name
      ensures r.Some? ==>
        exists k :: (0 <= k < |adventurers| && adventurers[k] == r.value &&
                     forall j :: 0 <= j < k ==> adventurers[j].name != name)
      ensures r.None? <==> forall a :: a in adventurers ==> a.name != name
    {
      match FirstNamed(adventurers, name)
      case None => None
      case Some(k) => Some(adventurers[k])
    }

    /** Whatever a lookup finds in a valid factory has the factory's role. */
    lemma LookupsHaveRole(index: int, name: string)
      requires Valid()
      ensures FindByIndex(index).Some? ==> FindByIndex(index).value.kind == Adventurer(role)
      ensures FindByName(name).Some? ==> FindByName(name).value.kind == Adventurer(role)
    {
    }
  }
}
