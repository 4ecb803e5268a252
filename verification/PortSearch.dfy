/** Finding the least free port from the gaps after occupied ones instead of by counting up. */
module PortSearch {
  import opened Model

  function Candidates(occupied: set<int>, start: int, end: int): set<int> {
    (if start <= end then {start} else {}) + (set p | p in occupied && p < end :: p + 1)
  }

  /** The linear search the query replaces. */
  function Scan(occupied: set<int>, p: int, end: int): Option<int>
    decreases end - p
  {
    if p > end then None
    else if p !in occupied then Some(p)
    else Scan(occupied, p + 1, end)
  }

  lemma {:induction false} ScanLeast(occupied: set<int>, p: int, end: int)
    ensures match Scan(occupied, p, end)
            case Some(q) => p <= q <= end && q !in occupied && forall r :: p <= r < q ==> r in occupied
            case None => forall r :: p <= r <= end ==> r in occupied
    decreases end - p
  {
    if p <= end && p in occupied { ScanLeast(occupied, p + 1, end); }
  }

  /** The least free port is a candidate: it is the start, or the successor of an occupied port. */
  lemma GapExact(occupied: set<int>, start: int, end: int, gap: Option<int>)
    requires forall p :: p in occupied ==> start <= p <= end
    requires gap.Some? ==> gap.value in Candidates(occupied, start, end) - occupied
    requires forall p :: p in Candidates(occupied, start, end) - occupied ==> gap.Some? && gap.value <= p
    ensures gap == Scan(occupied, start, end)
  {
    ScanLeast(occupied, start, end);
    match Scan(occupied, start, end)
    case None =>
    case Some(q) =>
      if q > start { assert q - 1 in occupied; }
      assert q in Candidates(occupied, start, end) - occupied;
      assert start <= gap.value <= q;
  }

  lemma SomeMember(ports: set<int>)
    requires ports != {}
    ensures exists p :: p in ports
  {
    assert (forall p: int :: p !in ports) ==> ports == {};
  }

  /** MIN over a set of ports; empty for the empty set. */
  method Minimum(ports: set<int>) returns (least: Option<int>)
    ensures least.Some? ==> least.value in ports
    ensures forall p :: p in ports ==> least.Some? && least.value <= p
  {
    least := None;
    var rest := ports;
    while rest != {}
      invariant rest <= ports
      invariant least.Some? ==> least.value in ports
      invariant forall p :: p in ports && p !in rest ==> least.Some? && least.value <= p
      decreases |rest|
    {
      SomeMember(rest);
      var p: int :| p in rest;
      if least.None? || p < least.value { least := Some(p); }
      rest := rest - {p};
    }
  }

  /** MIN(candidate EXCEPT occupied). */
  method LeastGap(occupied: set<int>, start: int, end: int) returns (gap: Option<int>)
    requires forall p :: p in occupied ==> start <= p <= end
    ensures gap == Scan(occupied, start, end)
  {
    gap := Minimum(Candidates(occupied, start, end) - occupied);
    GapExact(occupied, start, end, gap);
  }
}
