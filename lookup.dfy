/**
 Properties of `findPerson`: it returns the first record in collection order
 whose name is exactly the argument, and on a collection with unique names
 (the seed collection is one) it returns the record that owns the name.
 */
module Lookup {
  import opened Wrappers
  import opened Registry
  import opened Resolvers

  /** If record `i` is the first one named `name`, the scan returns it. */
  lemma {:induction false} FindPersonFirstMatch(persons: seq<Person>, name: string, i: nat)
    requires i < |persons| && persons[i].name == name
    requires forall j | 0 <= j < i :: persons[j].name != name
    ensures FindPerson(persons, name) == Some(persons[i])
  {
    if i > 0 {
      assert persons[0].name != name;
      FindPersonFirstMatch(persons[1..], name, i - 1);
    }
  }

  /** Conversely, a record that the scan returns sits at some position before
      which no record has that name. */
  lemma {:induction false} FindPersonIsEarliest(persons: seq<Person>, name: string)
    requires FindPerson(persons, name).Some?
    ensures exists i | 0 <= i < |persons| ::
      persons[i] == FindPerson(persons, name).value
      && forall j | 0 <= j < i :: persons[j].name != name
  {
    if persons[0].name != name {
      FindPersonIsEarliest(persons[1..], name);
      var k :| 0 <= k < |persons[1..]| && persons[1..][k] == FindPerson(persons[1..], name).value
        && forall j | 0 <= j < k :: persons[1..][j].name != name;
      assert persons[k + 1] == FindPerson(persons, name).value;
      forall j | 0 <= j < k + 1 ensures persons[j].name != name {
        if j > 0 { assert persons[j] == persons[1..][j - 1]; }
      }
    } else {
      assert persons[0] == FindPerson(persons, name).value;
    }
  }

  /** With unique names, looking up a record's own name finds that record. */
  lemma FindPersonByOwnName(persons: seq<Person>, i: nat)
    requires NamesDistinct(persons) && i < |persons|
    ensures FindPerson(persons, persons[i].name) == Some(persons[i])
  {
  }

  /** On the seed collection: every seed name finds its own record, the match
      is case-sensitive, and the record found for "Itzi" has no phone. */
  lemma SeedLookups()
    ensures forall i | 0 <= i < |Persons| :: FindPerson(Persons, Persons[i].name) == Some(Persons[i])
    ensures FindPerson(Persons, "midu") == None
    ensures FindPerson(Persons, "Itzi") == Some(Persons[2]) && Persons[2].phone == None
  {
  }
}
