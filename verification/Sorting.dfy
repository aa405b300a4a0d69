/**
 The sorts of the program, stated once: the listing of a finite set in the order of a comparison
 that is a strict total order on that set. Such a listing is unique, so a slice filled by ranging
 over a map in any order and then sorted has one possible result.
 */
module Sorting {

  function Elems<T>(q: seq<T>): set<T> {
    set x | x in q
  }

  lemma {:induction false} SomeElement<T>(q: seq<T>)
    ensures q != [] ==> Elems(q) != {}
  {
    if q != [] {
      assert q[0] in Elems(q);
    }
  }

  ghost predicate StrictTotalOn<T>(less: (T, T) -> bool, s: set<T>) {
    && (forall x :: x in s ==> !less(x, x))
    && (forall x, y :: x in s && y in s && x != y ==> less(x, y) || less(y, x))
    && (forall x, y, z :: x in s && y in s && z in s && less(x, y) && less(y, z) ==> less(x, z))
  }

  ghost predicate Ascending<T>(less: (T, T) -> bool, q: seq<T>) {
    forall i, j :: 0 <= i < j < |q| ==> less(q[i], q[j])
  }

  ghost predicate NoDuplicates<T>(q: seq<T>) {
    forall i, j :: 0 <= i < j < |q| ==> q[i] != q[j]
  }

  ghost predicate IsListing<T>(less: (T, T) -> bool, s: set<T>, q: seq<T>) {
    Ascending(less, q) && Elems(q) == s
  }

  /** Two listings of one set in one strict total order are the same sequence. */
  lemma {:induction false} ListingUnique<T>(less: (T, T) -> bool, s: set<T>, p: seq<T>, q: seq<T>)
    requires StrictTotalOn(less, s)
    requires IsListing(less, s, p) && IsListing(less, s, q)
    ensures p == q
    decreases |p|
  {
    assert forall i :: 0 <= i < |p| ==> p[i] in Elems(p);
    assert forall i :: 0 <= i < |q| ==> q[i] in Elems(q);
    if p != [] && q != [] {
      FirstIsLeast(less, s, p);
      FirstIsLeast(less, s, q);
      assert p[0] == q[0];
      DropFirst(less, s, p);
      DropFirst(less, s, q);
      ListingUnique(less, s - {p[0]}, p[1..], q[1..]);
    }
  }

  lemma {:induction false} FirstIsLeast<T>(less: (T, T) -> bool, s: set<T>, q: seq<T>)
    requires q != [] && IsListing(less, s, q)
    ensures q[0] in s && forall x :: x in s ==> x == q[0] || less(q[0], x)
  {
    assert q[0] in Elems(q);
    forall x | x in s ensures x == q[0] || less(q[0], x) {
      assert x in Elems(q);
      var i :| 0 <= i < |q| && q[i] == x;
    }
  }

  lemma {:induction false} DropFirst<T>(less: (T, T) -> bool, s: set<T>, p: seq<T>)
    requires p != [] && StrictTotalOn(less, s) && IsListing(less, s, p)
    ensures IsListing(less, s - {p[0]}, p[1..])
  {
    forall x | x in s - {p[0]} ensures x in Elems(p[1..]) {
      assert x in Elems(p);
      var i :| 0 <= i < |p| && p[i] == x;
      assert p[1..][i - 1] == x;
    }
    forall x | x in Elems(p[1..]) ensures x in s - {p[0]} {
      var i :| 0 <= i < |p[1..]| && p[1..][i] == x;
      assert p[i + 1] == x && less(p[0], p[i + 1]);
      assert x in Elems(p);
    }
  }

  /** Inserts x before the first element it precedes. */
  function Insert<T>(less: (T, T) -> bool, x: T, q: seq<T>): (r: seq<T>)
    ensures |r| == |q| + 1
    ensures Elems(r) == Elems(q) + {x}
  {
    if q == [] then [x]
    else if less(x, q[0]) then
      [x] + q
    else
      var r := Insert(less, x, q[1..]);
      assert Elems(q) == Elems(q[1..]) + {q[0]};
      assert Elems([q[0]] + r) == Elems(r) + {q[0]};
      [q[0]] + r
  }

  lemma {:induction false} InsertKeepsOrder<T>(less: (T, T) -> bool, s: set<T>, x: T, q: seq<T>)
    requires StrictTotalOn(less, s + {x}) && x !in s && IsListing(less, s, q)
    ensures IsListing(less, s + {x}, Insert(less, x, q))
    decreases |q|
  {
    if q != [] {
      assert forall i :: 0 <= i < |q| ==> q[i] in Elems(q);
      if less(x, q[0]) {
        assert forall i :: 0 < i < |q| ==> less(q[0], q[i]);
      } else {
        assert StrictTotalOn(less, s);
        DropFirst(less, s, q);
        assert s - {q[0]} + {x} <= s + {x};
        InsertKeepsOrder(less, s - {q[0]}, x, q[1..]);
        var r := Insert(less, x, q[1..]);
        forall i | 0 <= i < |r| ensures less(q[0], r[i]) {
          assert r[i] in Elems(r);
          if r[i] == x {
          } else {
            var k :| 0 <= k < |q[1..]| && q[1..][k] == r[i];
            assert q[k + 1] == r[i];
          }
        }
        assert Insert(less, x, q) == [q[0]] + r;
      }
    }
  }

  lemma {:induction false} ListingExists<T>(less: (T, T) -> bool, s: set<T>)
    requires StrictTotalOn(less, s)
    ensures exists q :: IsListing(less, s, q)
  {
    if s == {} {
      assert IsListing(less, s, []);
    } else {
      var x :| x in s;
      ListingExists(less, s - {x});
      var q :| IsListing(less, s - {x}, q);
      assert s - {x} + {x} == s;
      InsertKeepsOrder(less, s - {x}, x, q);
      assert IsListing(less, s, Insert(less, x, q));
    }
  }

  /** The listing of s in the order of less. */
  ghost function Listing<T>(less: (T, T) -> bool, s: set<T>): (q: seq<T>)
    requires StrictTotalOn(less, s)
    ensures IsListing(less, s, q)
    ensures NoDuplicates(q)
    ensures |q| == |s|
  {
    ListingExists(less, s);
    var q :| IsListing(less, s, q);
    ListingLength(less, s, q);
    q
  }

  lemma {:induction false} ListingLength<T>(less: (T, T) -> bool, s: set<T>, q: seq<T>)
    requires StrictTotalOn(less, s) && IsListing(less, s, q)
    ensures |q| == |s| && NoDuplicates(q)
    decreases |q|
  {
    assert forall i :: 0 <= i < |q| ==> q[i] in Elems(q);
    if q == [] {
      assert s == {};
    } else {
      DropFirst(less, s, q);
      ListingLength(less, s - {q[0]}, q[1..]);
    }
  }

  /** sort.Slice on a slice without repeated elements: the result does not depend on the order
      in which the slice was filled. */
  method SortSlice<T>(less: (T, T) -> bool, q: seq<T>) returns (r: seq<T>)
    requires StrictTotalOn(less, Elems(q)) && NoDuplicates(q)
    ensures r == Listing(less, Elems(q))
  {
    r := [];
    for i := 0 to |q|
      invariant IsListing(less, Elems(q[..i]), r)
    {
      assert q[..i + 1] == q[..i] + [q[i]];
      assert Elems(q[..i + 1]) == Elems(q[..i]) + {q[i]};
      assert Elems(q[..i + 1]) <= Elems(q);
      InsertKeepsOrder(less, Elems(q[..i]), q[i], r);
      r := Insert(less, q[i], r);
    }
    assert q[..|q|] == q;
    ListingUnique(less, Elems(q), r, Listing(less, Elems(q)));
  }
}
