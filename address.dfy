/**
 The computed field `Person.address` and what its format preserves. The
 partner of `Address` is `ParseAddress`, which splits an address at its first
 `", "`: the two are inverse whenever the street itself contains no `", "`.
 */
module AddressFormat {
  import opened Wrappers
  import opened Registry
  import opened Resolvers

  /** `s` holds the separator starting at position `k`. */
  predicate SeparatorAt(s: string, k: nat) {
    k + |Separator| <= |s| && s[k..k + |Separator|] == Separator
  }

  /** `s` holds the separator somewhere. */
  predicate HasSeparator(s: string) {
    exists k: nat | k < |s| :: SeparatorAt(s, k)
  }

  /** The position of the first separator in `s`, if any. */
  function FirstSeparator(s: string): (r: Option<nat>)
    ensures r.Some? ==> SeparatorAt(s, r.value)
    ensures r.Some? ==> forall k: nat | k < r.value :: !SeparatorAt(s, k)
    ensures r.None? <==> !HasSeparator(s)
    decreases |s|
  {
    if |s| < |Separator| then None
    else if s[..|Separator|] == Separator then assert SeparatorAt(s, 0); Some(0)
    else
      match FirstSeparator(s[1..])
      case None =>
        assert forall k: nat | 0 < k :: SeparatorAt(s, k) == SeparatorAt(s[1..], k - 1);
        None
      case Some(k) =>
        assert forall j: nat | 0 < j :: SeparatorAt(s, j) == SeparatorAt(s[1..], j - 1);
        Some(k + 1)
  }

  /** Splits an address into the text before its first separator and the text
      after it; `None` when there is no separator. */
  function ParseAddress(a: string): (r: Option<(string, string)>)
    ensures r.Some? ==> r.value.0 + Separator + r.value.1 == a
    ensures r.Some? ==> !HasSeparator(r.value.0)
    ensures r.None? <==> !HasSeparator(a)
  {
    match FirstSeparator(a)
    case None => None
    case Some(k) =>
      var street, city := a[..k], a[k + |Separator|..];
      assert street + Separator + city == a;
      assert !HasSeparator(street) by {
        forall j: nat ensures !SeparatorAt(street, j) {
          if SeparatorAt(street, j) { assert SeparatorAt(a, j); }
        }
      }
      Some((street, city))
  }

  /** Reading an address back gives the street and city it was formatted
      from, provided the street does not itself contain `", "`. */
  lemma AddressRoundTrip(p: Person)
    requires !HasSeparator(p.street)
    ensures ParseAddress(Address(p)) == Some((p.street, p.city))
  {
    var a, n := Address(p), |p.street|;
    assert SeparatorAt(a, n);
    forall k: nat | k < n ensures !SeparatorAt(a, k) {
      if k + |Separator| <= n {
        assert a[k..k + |Separator|] == p.street[k..k + |Separator|];
        assert !SeparatorAt(p.street, k);
      } else {
        assert a[k + 1] == Separator[0] != Separator[1];
      }
    }
    assert FirstSeparator(a) == Some(n);
    assert a[..n] == p.street && a[n + |Separator|..] == p.city;
  }

  /** Consequently the address determines street and city of records whose
      streets contain no separator. */
  lemma AddressDeterminesParts(p: Person, q: Person)
    requires !HasSeparator(p.street) && !HasSeparator(q.street)
    requires Address(p) == Address(q)
    ensures p.street == q.street && p.city == q.city
  {
    AddressRoundTrip(p);
    AddressRoundTrip(q);
  }

  /** Without that proviso the format is ambiguous: a street containing `", "`
      can yield the same address as a different street and city. */
  lemma AddressAmbiguous()
    ensures Address(Person("A", None, "1 Elm, Apt 2", "Springfield", "1"))
         == Address(Person("B", None, "1 Elm", "Apt 2, Springfield", "2"))
  {
  }
}
