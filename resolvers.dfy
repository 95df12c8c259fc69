/**
 The resolvers of the server: the three root queries `personCount`,
 `allPersons` and `findPerson`, and the computed field `Person.address`.
 Each resolver is a function of the collection it reads (and of its
 argument), so that every query can be stated over any collection and then
 specialised to the seed collection.
 */
module Resolvers {
  import opened Wrappers
  import opened Registry

  /** `personCount`: the number of records held. */
  function PersonCount(persons: seq<Person>): (n: nat)
    ensures n == |persons|
  {
    |persons|
  }

  /** `allPersons`: the collection itself, records in the same order. */
  function AllPersons(persons: seq<Person>): (r: seq<Person>)
    ensures |r| == |persons|
    ensures forall i | 0 <= i < |r| :: r[i] == persons[i]
  {
    persons
  }

  /** `findPerson(name)`: `Array.prototype.find` with the predicate
      `person.name === name`, i.e. a left-to-right scan that stops at the first
      record whose name is exactly `name`; `None` stands for `undefined`. */
  function FindPerson(persons: seq<Person>, name: string): (r: Option<Person>)
    ensures r.Some? ==> r.value in persons && r.value.name == name
    ensures r.None? <==> forall p | p in persons :: p.name != name
    decreases |persons|
  {
    if persons == [] then None
    else if persons[0].name == name then Some(persons[0])
    else FindPerson(persons[1..], name)
  }

  /** The separator that the `address` template puts between street and city. */
  const Separator: string := ", "

  /** `Person.address`: the street, then `", "`, then the city. */
  function Address(p: Person): (r: string)
    ensures |r| == |p.street| + |Separator| + |p.city|
    ensures r[..|p.street|] == p.street
    ensures r[|p.street|..|p.street| + |Separator|] == Separator
    ensures r[|p.street| + |Separator|..] == p.city
  {
    p.street + Separator + p.city
  }

  /** The queries of the schema's `Query` type, with their arguments. */
  datatype Query = CountQuery | AllQuery | FindQuery(name: string)

  /** The value a query resolves to. */
  datatype Answer = Count(n: nat) | List(persons: seq<Person>) | Found(person: Option<Person>)

  /** Dispatches one query to its resolver. */
  function Resolve(persons: seq<Person>, q: Query): (a: Answer)
    ensures q.CountQuery? ==> a == Count(|persons|)
    ensures q.AllQuery? ==> a == List(persons)
    ensures q.FindQuery? ==> a == Found(FindPerson(persons, q.name))
  {
    match q
    case CountQuery => Count(PersonCount(persons))
    case AllQuery => List(AllPersons(persons))
    case FindQuery(name) => Found(FindPerson(persons, name))
  }
}
