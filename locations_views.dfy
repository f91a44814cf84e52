/** Locations and the `is_active` query filter of the location list. */
module Locations {
  import opened Wrappers

  datatype Location = Location(id: nat, code: string, name: string, isActive: bool)

  /** Python's `str.lower` on one character, for the ASCII letters. */
  function LowerChar(c: char): char {
    if 'A' <= c <= 'Z' then (c as int + 32) as char else c
  }

  function Lower(s: string): (r: string)
    ensures |r| == |s|
    ensures forall i :: 0 <= i < |s| ==> r[i] == LowerChar(s[i])
  {
    seq(|s|, i requires 0 <= i < |s| => LowerChar(s[i]))
  }

  /** `s.lower() == word` for a lower-case word: each letter in either case. */
  lemma {:induction false} LowerMatchesAnyCase(s: string, word: string)
    requires forall i :: 0 <= i < |word| ==> 'a' <= word[i] <= 'z'
    ensures Lower(s) == word <==>
      |s| == |word| &&
      forall i :: 0 <= i < |s| ==> s[i] == word[i] || s[i] as int == word[i] as int - 32
  {
    if |s| == |word| &&
       forall i :: 0 <= i < |s| ==> s[i] == word[i] || s[i] as int == word[i] as int - 32 {
      forall i | 0 <= i < |s| ensures Lower(s)[i] == word[i] {
        assert s[i] == word[i] || s[i] as int == word[i] as int - 32;
      }
    }
    if Lower(s) == word {
      forall i | 0 <= i < |s| ensures s[i] == word[i] || s[i] as int == word[i] as int - 32 {
        assert LowerChar(s[i]) == word[i];
      }
    }
  }

  /** `s` is `whole` with some elements left out, the rest in their order. */
  predicate IsSubsequence<T(==)>(s: seq<T>, whole: seq<T>)
    decreases |whole|
  {
    if s == [] then true
    else if whole == [] then false
    else if s[0] == whole[0] then IsSubsequence(s[1..], whole[1..])
    else IsSubsequence(s, whole[1..])
  }

  /** `queryset.filter(is_active=active)`: the locations with that flag, in
      the order of the list. */
  function WithActive(locations: seq<Location>, active: bool): (r: seq<Location>)
    ensures forall x :: x in r ==> x in locations && x.isActive == active
    ensures forall x :: x in locations && x.isActive == active ==> x in r
    ensures IsSubsequence(r, locations)
    decreases |locations|
  {
    if locations == [] then []
    else
      var rest := WithActive(locations[1..], active);
      if locations[0].isActive == active then [locations[0]] + rest
      else
        SubsequenceOfTail(rest, locations);
        rest
  }

  /** The two filters split the list: each location is in exactly one of
      them, as many times as in the list. */
  lemma {:induction false} ActivePartition(locations: seq<Location>)
    ensures multiset(WithActive(locations, true)) + multiset(WithActive(locations, false)) == multiset(locations)
    decreases |locations|
  {
    if locations != [] {
      ActivePartition(locations[1..]);
      assert locations == [locations[0]] + locations[1..];
    }
  }

  /** The filter keeps each location with the flag as often as the list
      holds it, and no other. */
  lemma FilterMultiplicity(locations: seq<Location>, active: bool, x: Location)
    ensures multiset(WithActive(locations, active))[x] == if x.isActive == active then multiset(locations)[x] else 0
  {
    ActivePartition(locations);
    if x.isActive {
      assert x !in WithActive(locations, false);
    } else {
      assert x !in WithActive(locations, true);
    }
  }

  lemma {:induction false} SubsequenceOfTail<T>(s: seq<T>, whole: seq<T>)
    requires whole != [] && IsSubsequence(s, whole[1..])
    ensures IsSubsequence(s, whole)
    decreases |whole|, 0
  {
    if s != [] && s[0] == whole[0] {
      SubsequenceDropFirst(s, whole[1..]);
    }
  }

  lemma {:induction false} SubsequenceDropFirst<T>(s: seq<T>, whole: seq<T>)
    requires s != [] && IsSubsequence(s, whole)
    ensures IsSubsequence(s[1..], whole)
    decreases |whole|, 1
  {
    if s[0] == whole[0] {
      SubsequenceOfTail(s[1..], whole);
    } else {
      SubsequenceDropFirst(s, whole[1..]);
      SubsequenceOfTail(s[1..], whole);
    }
  }

  /** `LocationViewSet.get_queryset`: with no `is_active` parameter, or with
      one that is neither 'true' nor 'false' in any letter case, every
      location; otherwise the active ones, or the inactive ones. */
  function GetQueryset(locations: seq<Location>, isActive: Option<string>): (r: seq<Location>)
    ensures IsSubsequence(r, locations)
    ensures isActive.None? ==> r == locations
    ensures isActive.Some? && Lower(isActive.value) == "true" ==> r == WithActive(locations, true)
    ensures isActive.Some? && Lower(isActive.value) == "false" ==> r == WithActive(locations, false)
    ensures isActive.Some? && Lower(isActive.value) != "true" && Lower(isActive.value) != "false" ==>
      r == locations
  {
    if isActive.None? then
      SubsequenceOfItself(locations);
      locations
    else if Lower(isActive.value) == "true" then WithActive(locations, true)
    else if Lower(isActive.value) == "false" then WithActive(locations, false)
    else
      SubsequenceOfItself(locations);
      locations
  }

  lemma {:induction false} SubsequenceOfItself<T>(s: seq<T>)
    ensures IsSubsequence(s, s)
    decreases |s|
  {
    if s != [] {
      SubsequenceOfItself(s[1..]);
    }
  }

  /** 'TRUE', 'True', 'tRuE', ... all select exactly the active locations. */
  lemma ActiveInAnyCase(locations: seq<Location>, value: string)
    requires |value| == 4
    requires value[0] in "tT" && value[1] in "rR" && value[2] in "uU" && value[3] in "eE"
    ensures GetQueryset(locations, Some(value)) == WithActive(locations, true)
  {
    LowerMatchesAnyCase(value, "true");
  }

  /** 'FALSE', 'False', ... all select exactly the inactive locations. */
  lemma InactiveInAnyCase(locations: seq<Location>, value: string)
    requires |value| == 5
    requires value[0] in "fF" && value[1] in "aA" && value[2] in "lL" && value[3] in "sS" && value[4] in "eE"
    ensures GetQueryset(locations, Some(value)) == WithActive(locations, false)
  {
    LowerMatchesAnyCase(value, "false");
  }
}
