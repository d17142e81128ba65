/** Listing a finite set of numbers in ascending order. */
module Sorting {

  import opened Sets

  predicate Ascending(s: seq<int>) {
    forall i, j | 0 <= i < j < |s| :: s[i] < s[j]
  }

  /** `s` lists exactly the members of `numbers`, smallest first. */
  ghost predicate SortedListing(s: seq<int>, numbers: set<int>) {
    Ascending(s) && (forall x :: x in s <==> x in numbers)
  }

  lemma TailListing(s: seq<int>, numbers: set<int>)
    requires SortedListing(s, numbers) && s != []
    ensures SortedListing(s[1..], numbers - {s[0]})
  {
    forall x ensures x in s[1..] <==> x in numbers - {s[0]} {
      if x in s[1..] {
        var i :| 0 <= i < |s[1..]| && s[1..][i] == x;
        assert s[i + 1] == x && s[0] < s[i + 1];
        assert x in s;
      }
    }
  }

  lemma {:induction false} SortedListingUnique(s: seq<int>, t: seq<int>, numbers: set<int>)
    requires SortedListing(s, numbers) && SortedListing(t, numbers)
    ensures s == t
  {
    assert s != [] ==> s[0] in s;
    assert t != [] ==> t[0] in t;
    if s != [] && t != [] {
      assert s[0] == t[0];
      TailListing(s, numbers);
      TailListing(t, numbers);
      SortedListingUnique(s[1..], t[1..], numbers - {s[0]});
      assert s == [s[0]] + s[1..] && t == [t[0]] + t[1..];
    }
  }

  function Insert(x: int, s: seq<int>): seq<int> {
    if s == [] then [x] else if x < s[0] then [x] + s else if x == s[0] then s else [s[0]] + Insert(x, s[1..])
  }

  lemma {:induction false} InsertListing(x: int, s: seq<int>, numbers: set<int>)
    requires SortedListing(s, numbers)
    ensures SortedListing(Insert(x, s), numbers + {x})
  {
    var r := Insert(x, s);
    if s != [] && x > s[0] {
      TailListing(s, numbers);
      InsertListing(x, s[1..], numbers - {s[0]});
      assert s[0] in numbers;
      var t := Insert(x, s[1..]);
      assert r == [s[0]] + t;
      forall k | 0 <= k < |t| ensures s[0] < t[k] {
        assert t[k] in t;
        if t[k] != x {
          assert t[k] in s[1..];
        }
      }
      forall y ensures y in r <==> y in numbers + {x} {
        assert y in r <==> y == s[0] || y in t;
      }
    }
  }

  /** Python's `sorted` on a set. */
  method Sort(numbers: set<int>) returns (s: seq<int>)
    ensures SortedListing(s, numbers)
  {
    s := [];
    var rest := numbers;
    while rest != {}
      invariant rest <= numbers && SortedListing(s, numbers - rest)
      decreases |rest|
    {
      var x := Take(rest);
      InsertListing(x, s, numbers - rest);
      assert numbers - rest + {x} == numbers - (rest - {x});
      s := Insert(x, s);
      rest := rest - {x};
    }
    assert numbers - rest == numbers;
  }

  lemma {:induction false} ListingExists(numbers: set<int>)
    ensures exists s :: SortedListing(s, numbers)
    decreases |numbers|
  {
    if numbers == {} {
      assert SortedListing([], numbers);
    } else {
      var x := AnyOf(numbers);
      ListingExists(numbers - {x});
      var s :| SortedListing(s, numbers - {x});
      InsertListing(x, s, numbers - {x});
      assert numbers - {x} + {x} == numbers;
      assert SortedListing(Insert(x, s), numbers);
    }
  }

  ghost function Sorted(numbers: set<int>): (s: seq<int>)
    ensures SortedListing(s, numbers)
  {
    ListingExists(numbers);
    var s :| SortedListing(s, numbers);
    s
  }
}
