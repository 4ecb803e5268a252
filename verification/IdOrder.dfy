/** Allocation ids in their lexicographic order, and the one way of listing a set of them in it. */
module IdOrder {

  predicate Leq(a: string, b: string) {
    a == [] || (b != [] && (a[0] < b[0] || (a[0] == b[0] && Leq(a[1..], b[1..]))))
  }

  /** The order is decided where the two first differ, a prefix coming first. */
  lemma {:induction false} LeqAtDifference(a: string, b: string, k: nat)
    requires k <= |a| && k <= |b| && a[..k] == b[..k] && (k == |a| || k == |b| || a[k] != b[k])
    ensures Leq(a, b) <==> k == |a| || (k < |b| && a[k] < b[k])
    decreases k
  {
    if k > 0 {
      assert a[0] == a[..k][0] && b[0] == b[..k][0];
      assert a[1..][..k - 1] == a[..k][1..] && b[1..][..k - 1] == b[..k][1..];
      LeqAtDifference(a[1..], b[1..], k - 1);
    }
  }

  lemma {:induction false} LeqTotal(a: string, b: string)
    ensures Leq(a, b) || Leq(b, a)
  {
    if a != [] && b != [] && a[0] == b[0] { LeqTotal(a[1..], b[1..]); }
  }

  lemma {:induction false} LeqAntisymmetric(a: string, b: string)
    requires Leq(a, b) && Leq(b, a)
    ensures a == b
  {
    if a != [] && b != [] {
      LeqAntisymmetric(a[1..], b[1..]);
      assert a == [a[0]] + a[1..] && b == [b[0]] + b[1..];
    }
  }

  lemma {:induction false} LeqTransitive(a: string, b: string, c: string)
    requires Leq(a, b) && Leq(b, c)
    ensures Leq(a, c)
  {
    if a != [] && a[0] == b[0] && b[0] == c[0] { LeqTransitive(a[1..], b[1..], c[1..]); }
  }

  ghost predicate IsLeast(id: string, ids: set<string>) {
    id in ids && forall x :: x in ids ==> Leq(id, x)
  }

  lemma {:induction false} LeastExists(ids: set<string>) returns (least: string)
    requires ids != {}
    ensures IsLeast(least, ids)
  {
    var x :| x in ids;
    if ids == {x} {
      LeqTotal(x, x);
      least := x;
    } else {
      var rest := LeastExists(ids - {x});
      LeqTotal(x, rest);
      LeqTotal(x, x);
      least := if Leq(x, rest) then x else rest;
      forall y | y in ids ensures Leq(least, y) {
        if y != x && least == x { LeqTransitive(x, rest, y); }
      }
    }
  }

  lemma HasLeast(ids: set<string>)
    requires ids != {}
    ensures exists least :: IsLeast(least, ids)
  {
    var least := LeastExists(ids);
  }

  /** The ids of a set, least first. */
  ghost function Sorted(ids: set<string>): seq<string> {
    if ids == {} then []
    else
      HasLeast(ids);
      var least :| IsLeast(least, ids);
      [least] + Sorted(ids - {least})
  }

  ghost predicate InOrder(ids: seq<string>) {
    forall i, j :: 0 <= i < j < |ids| ==> Leq(ids[i], ids[j]) && ids[i] != ids[j]
  }

  /** There is only one way to list a set of ids in order without repetition. */
  lemma {:induction false} OrderUnique(ids: seq<string>)
    requires InOrder(ids)
    ensures ids == Sorted(set id | id in ids)
  {
    var all := set id | id in ids;
    if ids != [] {
      assert ids[0] in all;
      var least := Sorted(all)[0];
      assert IsLeast(least, all);
      var i :| 0 <= i < |ids| && ids[i] == least;
      if i > 0 { LeqAntisymmetric(ids[0], least); }
      assert (set id | id in ids[1..]) == all - {least} by {
        assert ids == [ids[0]] + ids[1..];
      }
      OrderUnique(ids[1..]);
    }
  }

  /** Listing a set in order lists exactly its members. */
  lemma {:induction false} SortedExact(ids: set<string>)
    ensures InOrder(Sorted(ids))
    ensures forall id :: id in Sorted(ids) <==> id in ids
    decreases ids
  {
    if ids != {} {
      var least := Sorted(ids)[0];
      assert IsLeast(least, ids);
      var rest := Sorted(ids - {least});
      assert Sorted(ids) == [least] + rest;
      SortedExact(ids - {least});
      forall i | 0 <= i < |rest| ensures Leq(least, rest[i]) && least != rest[i] {
        assert rest[i] in rest;
      }
    }
  }
}
