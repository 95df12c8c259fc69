# Person registry resolvers

A model of the GraphQL server in `index.js`: a read-only, in-memory collection
of person records and the resolvers that answer queries over it.

- `Registry` (registry.dfy): the `Person` record (`name`, optional `phone`,
  `street`, `city`, `id`), the constant seed collection `Persons` of three
  records, in array order, and the facts that its names and its ids are
  unique.
- `Resolvers` (resolvers.dfy): the root queries `personCount`, `allPersons`
  and `findPerson(name)`, and the computed field `Person.address`. Each is a
  function of the collection it reads. `Resolve` dispatches a query to its
  resolver.
- `Lookup` (lookup.dfy): `findPerson` is `Array.prototype.find` with a
  case-sensitive `===` on the name. It returns the first matching record in
  collection order, and `undefined` (`None`) exactly when no record matches.
  With unique names, as in the seed, a name finds the one record that has it.
- `AddressFormat` (address.dfy): `address` is the street, then `", "`, then
  the city. Its partner `ParseAddress` splits at the first `", "`. The two are
  inverse when the street contains no `", "`. Without that condition two
  different records can share an address.

`persons` is never reassigned or mutated, so the collection is a
`seq<Person>` value and every resolver is a function over it. A missing
`phone` key is `Option.None`. Read-only is therefore a property of the model's
form, not a proved lemma: a function of a `seq<Person>` value cannot change
that value, and every query sees the same collection.

`index.js` has no `addPerson` or `editNumber` mutation, no phone filter on
`allPersons`, no duplicate-name error and no id generator. Its `address` is
one string, not an object with `street` and `city` fields. The model has none
of these either.

## Model

| member | source | states |
|---|---|---|
| `Registry.SeedKeysDistinct` | index.js:2-23 | the seed holds three records with pairwise distinct names and pairwise distinct ids (three ids in all), and only the third one has no phone |
| `Registry.DistinctIdsCount` | index.js:2-23 | in a collection whose ids are pairwise distinct, the number of distinct ids equals the number of records, so an id picks out one record |
| `Resolvers.PersonCount` | index.js:46 | `personCount` is the number of records in the collection |
| `Resolvers.AllPersons` | index.js:47 | `allPersons` returns the stored records: same length, the same record at every position, so nothing is added, dropped or reordered |
| `Resolvers.FindPerson` | index.js:48-51 | a record that `findPerson(name)` returns is in the collection and its name equals `name` exactly; the result is absent if and only if no record has that name |
| `Resolvers.Address` | index.js:55 | `address` is the street, then the two characters `", "`, then the city, and nothing else |
| `Resolvers.Resolve` | index.js:45-52 | a `personCount` query answers the collection's size, `allPersons` the collection itself, and `findPerson(name)` exactly the result of the first-match scan `FindPerson`, with its membership, name, first-match and absence guarantees |
| `Lookup.FindPersonFirstMatch` | index.js:50 | if record i has the name and no earlier record has it, `findPerson` returns record i |
| `Lookup.FindPersonIsEarliest` | index.js:50 | the record `findPerson` returns stands at a position before which no record has that name |
| `Lookup.FindPersonByOwnName` | index.js:48-51 | in a collection with unique names, looking up any record's name returns that record |
| `Lookup.SeedLookups` | index.js:2-23 | on the seed, each seed name finds its own record, `"midu"` finds nothing (the match is case-sensitive), and `"Itzi"` finds the record without a phone |
| `AddressFormat.AddressRoundTrip` | index.js:55 | splitting an address at its first `", "` gives back the street and city it was built from, when the street has no `", "` |
| `AddressFormat.AddressDeterminesParts` | index.js:55 | two records whose streets have no `", "` and whose addresses are equal have equal streets and equal cities |
| `AddressFormat.AddressAmbiguous` | index.js:55 | a street that contains `", "` can give the same address as a different street and city |

## Left out

- Building the Apollo server, `server.listen`, its promise continuation and the `console.log` (index.js:1, 59-66): transport and I/O in a library that is not part of this model.
- The schema text `typeDefs` (index.js:26-40). Apollo parses it and checks types and nullability. It is used here only to choose the types: `phone` is optional and the other fields are required.
- The resolver calling convention (`root`, `args`, field dispatch by Apollo). The resolvers take the collection and the name or the person directly. How Apollo treats a field resolved on a `null` person is library behaviour and is not modelled.
- JavaScript strings are sequences of UTF-16 code units. Here they are `seq<char>`, and `===` on strings is sequence equality.
- `personCount` is a JavaScript number sent as a GraphQL `Int`. Here it is an unbounded `nat`; the 32-bit range of `Int` does not matter for a collection of three records.
