/** The ascending index lists that runner.go keeps: `insertSorted`, `removeIndex` and `minPending`. */
module SortedIndexes {

  ghost predicate Ascending(s: seq<nat>) {
    forall i, j | 0 <= i < j < |s| :: s[i] < s[j]
  }

  lemma AppendAscending(s: seq<nat>, x: nat)
    requires Ascending(s) && forall y | y in s :: y < x
    ensures Ascending(s + [x])
    ensures forall y :: y in s + [x] <==> y in s || y == x
  {
    forall i | 0 <= i < |s|
      ensures s[i] < x
    {
      assert s[i] in s;
    }
  }

  lemma TailAscending(s: seq<nat>)
    requires Ascending(s) && s != []
    ensures Ascending(s[1..])
    ensures forall y :: y in s <==> y == s[0] || y in s[1..]
    ensures forall y | y in s[1..] :: s[0] < y
  {
    assert s == [s[0]] + s[1..];
  }

  /** What sort.SearchInts answers: the number of entries below x. */
  ghost predicate IsSearchResult(s: seq<nat>, x: nat, i: nat) {
    i <= |s| && (forall k | 0 <= k < i :: s[k] < x) && (forall k | i <= k < |s| :: x <= s[k])
  }

  function SearchInts(s: seq<nat>, x: nat): (i: nat)
    ensures i <= |s|
    ensures Ascending(s) ==> IsSearchResult(s, x, i)
  {
    if s == [] || x <= s[0] then 0 else 1 + SearchInts(s[1..], x)
  }

  lemma InsertAt(s: seq<nat>, x: nat, i: nat)
    requires i <= |s|
    ensures forall y :: y in s[..i] + [x] + s[i..] <==> y in s || y == x
  {
    assert s == s[..i] + s[i..];
  }

  lemma InsertAscending(s: seq<nat>, x: nat, i: nat)
    requires Ascending(s) && x !in s && IsSearchResult(s, x, i)
    ensures Ascending(s[..i] + [x] + s[i..])
  {
    var r := s[..i] + [x] + s[i..];
    forall k | i <= k < |s|
      ensures x < s[k]
    {
      assert s[k] in s;
    }
    assert forall k | 0 <= k < |r| :: r[k] == if k < i then s[k] else if k == i then x else s[k - 1];
  }

  /** insertSorted: the list stays ascending and gains exactly x. */
  function InsertSorted(s: seq<nat>, x: nat): (r: seq<nat>)
    ensures Ascending(s) && x !in s ==> Ascending(r)
    ensures |r| == |s| + 1
    ensures forall y :: y in r <==> y in s || y == x
  {
    var i := SearchInts(s, x);
    InsertAt(s, x, i);
    assert Ascending(s) && x !in s ==> Ascending(s[..i] + [x] + s[i..]) by {
      if Ascending(s) && x !in s {
        InsertAscending(s, x, i);
      }
    }
    s[..i] + [x] + s[i..]
  }

  /** removeIndex: the list stays ascending and loses exactly x, if it was there. */
  function RemoveIndex(s: seq<nat>, x: nat): (r: seq<nat>)
    ensures Ascending(s) ==> Ascending(r) && |r| == (if x in s then |s| - 1 else |s|)
    ensures Ascending(s) ==> forall y :: y in r <==> y in s && y != x
  {
    var i := SearchInts(s, x);
    if i < |s| && s[i] == x then
      var r := s[..i] + s[i + 1..];
      assert s == s[..i] + [x] + s[i + 1..];
      r
    else s
  }

  ghost predicate IsLowest(p: set<nat>, m: nat) {
    m in p && forall k | k in p :: m <= k
  }

  /** The element minPending finds, as a function of the set alone. */
  ghost function Lowest(p: set<nat>): (m: nat)
    requires p != {}
    ensures IsLowest(p, m)
  {
    LowestExists(p);
    var m :| IsLowest(p, m);
    m
  }

  lemma {:induction false} LowestExists(p: set<nat>)
    requires p != {}
    ensures exists m :: IsLowest(p, m)
  {
    var x :| x in p;
    if p != {x} {
      LowestExists(p - {x});
      var m :| IsLowest(p - {x}, m);
      assert IsLowest(p, if x < m then x else m) by {
        assert p == (p - {x}) + {x};
      }
    } else {
      assert IsLowest(p, x);
    }
  }

  /** minPending: a scan of the map's keys in any order; -1 on an empty map. */
  method MinPending(pending: set<nat>) returns (lowest: int)
    ensures lowest == if pending == {} then -1 else Lowest(pending)
  {
    lowest := -1;
    var seen: set<nat> := {};
    while seen != pending
      invariant seen <= pending
      invariant if seen == {} then lowest == -1 else lowest >= 0 && IsLowest(seen, lowest)
      decreases |pending - seen|
    {
      var index :| index in pending - seen;
      if lowest < 0 || index < lowest {
        lowest := index;
      }
      ghost var unseen := pending - seen;
      seen := seen + {index};
      assert pending - seen == unseen - {index};
    }
  }
}
