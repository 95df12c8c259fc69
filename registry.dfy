/**
 The person records served by the GraphQL server and the constant array that
 holds them. The array is never reassigned or mutated, so it is modelled as a
 value of type `seq<Person>`.
 */
module Registry {
  import opened Wrappers

  /** A person record. `phone` is the one optional field (the schema declares it
      `String` without `!`); the third seed record has no `phone` key at all. */
  datatype Person = Person(
    name: string,
    phone: Option<string>,
    street: string,
    city: string,
    id: string
  )

  /** The seed collection, in array order. */
  const Persons: seq<Person> := [
    Person("Midu", Some("224-876-5262"), "123 Main St", "Anytown", "456456"),
    Person("Youssef", Some("754-876-9876"), "5434 Main St", "Anytown", "7474646"),
    Person("Itzi", None, "5435 Main St", "Anytown", "234678")
  ]

  /** No two records share a name. */
  predicate NamesDistinct(persons: seq<Person>) {
    forall i, j | 0 <= i < j < |persons| :: persons[i].name != persons[j].name
  }

  /** No two records share an id. */
  predicate IdsDistinct(persons: seq<Person>) {
    forall i, j | 0 <= i < j < |persons| :: persons[i].id != persons[j].id
  }

  /** The ids present in a collection. */
  function Ids(persons: seq<Person>): set<string> {
    set p | p in persons :: p.id
  }

  /** With pairwise distinct ids there are exactly as many ids as records, so
      the id identifies a record. */
  lemma {:induction false} DistinctIdsCount(persons: seq<Person>)
    requires IdsDistinct(persons)
    ensures |Ids(persons)| == |persons|
  {
    if persons != [] {
      var rest := persons[1..];
      assert IdsDistinct(rest) by {
        forall i, j | 0 <= i < j < |rest| ensures rest[i].id != rest[j].id {
          assert rest[i] == persons[i + 1] && rest[j] == persons[j + 1];
        }
      }
      DistinctIdsCount(rest);
      assert persons == [persons[0]] + rest;
      assert Ids(persons) == {persons[0].id} + Ids(rest);
      assert persons[0].id !in Ids(rest) by {
        forall p | p in rest ensures p.id != persons[0].id {
          var k :| 0 <= k < |rest| && rest[k] == p;
          assert persons[k + 1] == p;
        }
      }
    }
  }

  /** The seed records have pairwise distinct names and pairwise distinct ids,
      and only the third one omits its phone. */
  lemma SeedKeysDistinct()
    ensures |Persons| == 3
    ensures NamesDistinct(Persons) && IdsDistinct(Persons)
    ensures |Ids(Persons)| == 3
    ensures Persons[0].phone.Some? && Persons[1].phone.Some? && Persons[2].phone.None?
  {
    DistinctIdsCount(Persons);
  }
}
