/** Grouping the datagrams of one received batch by the session that will carry them. */
module UdpGrouping {
  import opened Model
  import opened UdpSessions

  /** The positions that still have a session. */
  ghost function Held(s: seq<Option<SessionId>>): set<nat> {
    set i: nat | i < |s| && s[i].Some?
  }

  /** The positions from `from` up to `end` held by this session, in receive order. */
  function IndexesOf(s: seq<Option<SessionId>>, id: SessionId, from: nat, end: nat): seq<nat>
    requires end <= |s|
    decreases end
  {
    if end <= from then []
    else IndexesOf(s, id, from, end - 1) + if s[end - 1] == Some(id) then [end - 1] else []
  }

  ghost function HeldBy(s: seq<Option<SessionId>>, id: SessionId, from: nat, end: nat): set<nat>
    requires end <= |s|
  {
    set i: nat | from <= i < end && s[i] == Some(id)
  }

  ghost predicate Increasing(indexes: seq<nat>) {
    forall a, b :: 0 <= a < b < |indexes| ==> indexes[a] < indexes[b]
  }

  lemma {:induction false} IndexesOfMembers(s: seq<Option<SessionId>>, id: SessionId, from: nat, end: nat)
    requires end <= |s|
    ensures forall i :: i in IndexesOf(s, id, from, end) <==> i in HeldBy(s, id, from, end)
    decreases end
  {
    if end > from { IndexesOfMembers(s, id, from, end - 1); }
  }

  lemma {:induction false} IndexesOfIncreasing(s: seq<Option<SessionId>>, id: SessionId, from: nat, end: nat)
    requires end <= |s|
    ensures Increasing(IndexesOf(s, id, from, end))
    decreases end
  {
    if end > from {
      IndexesOfIncreasing(s, id, from, end - 1);
      IndexesOfMembers(s, id, from, end - 1);
      var prefix := IndexesOf(s, id, from, end - 1);
      forall a | 0 <= a < |prefix| ensures prefix[a] < end - 1 { assert prefix[a] in prefix; }
    }
  }

  lemma {:induction false} IndexesOfCount(s: seq<Option<SessionId>>, id: SessionId, from: nat, end: nat)
    requires end <= |s|
    ensures |IndexesOf(s, id, from, end)| == |HeldBy(s, id, from, end)|
    decreases end
  {
    if end > from {
      IndexesOfCount(s, id, from, end - 1);
      if s[end - 1] == Some(id) {
        assert HeldBy(s, id, from, end) == HeldBy(s, id, from, end - 1) + {end - 1};
      } else {
        assert HeldBy(s, id, from, end) == HeldBy(s, id, from, end - 1);
      }
    }
  }

  /** The group lists exactly the session's positions, each once, in receive order. */
  lemma IndexesOfExact(s: seq<Option<SessionId>>, id: SessionId, from: nat, end: nat)
    requires end <= |s|
    ensures Increasing(IndexesOf(s, id, from, end))
    ensures forall i :: i in IndexesOf(s, id, from, end) <==> i in HeldBy(s, id, from, end)
    ensures |IndexesOf(s, id, from, end)| == |HeldBy(s, id, from, end)|
  {
    IndexesOfMembers(s, id, from, end);
    IndexesOfIncreasing(s, id, from, end);
    IndexesOfCount(s, id, from, end);
  }

  /** Position i belongs to a group that starts before `first`. */
  ghost predicate Handled(s: seq<Option<SessionId>>, i: nat, first: nat)
    requires i < |s|
  {
    s[i].Some? && exists j: nat :: j < first && j < |s| && s[j] == s[i]
  }

  ghost function HandledSet(s: seq<Option<SessionId>>, first: nat): set<nat> {
    set i: nat | i < |s| && Handled(s, i, first)
  }

  /** Opening the group at `first` adds exactly its positions, none of them handled before. */
  lemma GroupIsNew(s: seq<Option<SessionId>>, first: nat)
    requires first < |s| && s[first].Some? && !Handled(s, first, first)
    ensures HandledSet(s, first + 1) == HandledSet(s, first) + HeldBy(s, s[first].value, first, |s|)
    ensures HandledSet(s, first) !! HeldBy(s, s[first].value, first, |s|)
  {
    var id := s[first].value;
    forall i: nat | i < |s| && i in HandledSet(s, first + 1)
      ensures i in HandledSet(s, first) || i in HeldBy(s, id, first, |s|)
    {
      var j: nat :| j < first + 1 && j < |s| && s[j] == s[i];
      if j < first { assert Handled(s, i, first); }
    }
    forall i: nat | i in HeldBy(s, id, first, |s|) ensures i in HandledSet(s, first + 1) && i !in HandledSet(s, first) {
      assert s[first] == s[i];
    }
    forall i: nat | i in HandledSet(s, first) ensures i in HandledSet(s, first + 1) {
      var j: nat :| j < first && j < |s| && s[j] == s[i];
    }
  }

  /** A position without a new group leaves the handled set alone. */
  lemma GroupIsOld(s: seq<Option<SessionId>>, first: nat)
    requires first < |s| && (s[first].None? || Handled(s, first, first))
    ensures HandledSet(s, first + 1) == HandledSet(s, first)
  {
    forall i: nat | i < |s| ensures Handled(s, i, first + 1) == Handled(s, i, first) {}
  }

  lemma AllHandled(s: seq<Option<SessionId>>, first: nat)
    requires |s| <= first
    ensures HandledSet(s, first) == Held(s)
  {
    forall i: nat | i in Held(s) ensures i in HandledSet(s, first) {
      assert s[i] == s[i];
    }
  }

  /**
   The inner loop: collect the positions from `first` on whose session is the one at `first`,
   and mark them as grouped.
   */
  method CollectGroup(s: seq<Option<SessionId>>, first: nat, grouped: array<bool>, indexes: array<nat>)
    returns (n: nat)
    requires first < |s| <= grouped.Length && |s| <= indexes.Length && s[first].Some?
    modifies grouped, indexes
    ensures n <= indexes.Length
    ensures indexes[..n] == IndexesOf(s, s[first].value, first, |s|)
    ensures forall i :: 0 <= i < |s| ==> grouped[i] == (old(grouped[i]) || (first <= i && s[i] == s[first]))
  {
    var id := s[first].value;
    n := 0;
    for index := first to |s|
      invariant n <= index - first
      invariant indexes[..n] == IndexesOf(s, id, first, index)
      invariant forall i :: 0 <= i < |s| ==>
                  grouped[i] == (old(grouped[i]) || (first <= i < index && s[i] == s[first]))
    {
      if s[index] == Some(id) {
        grouped[index] := true;
        indexes[n] := index;
        n := n + 1;
      }
    }
  }

  /** The grouped flags mark exactly the handled positions. */
  ghost predicate Marked(s: seq<Option<SessionId>>, grouped: seq<bool>, first: nat) {
    |s| <= |grouped| && forall i: nat :: i < |s| ==> grouped[i] == Handled(s, i, first)
  }

  lemma GroupMembers(s: seq<Option<SessionId>>, id: SessionId, first: nat, indexes: seq<nat>)
    requires indexes <= IndexesOf(s, id, first, |s|)
    ensures Increasing(indexes)
    ensures forall a: nat :: a < |indexes| ==> first <= indexes[a] < |s| && s[indexes[a]] == Some(id)
  {
    var group := IndexesOf(s, id, first, |s|);
    IndexesOfExact(s, id, first, |s|);
    forall a: nat | a < |indexes| ensures first <= indexes[a] < |s| && s[indexes[a]] == Some(id) {
      assert group[a] in group;
    }
  }

  lemma MarkedSkip(s: seq<Option<SessionId>>, grouped: seq<bool>, first: nat)
    requires first < |s| && Marked(s, grouped, first) && (s[first].None? || grouped[first])
    ensures Marked(s, grouped, first + 1) && HandledSet(s, first + 1) == HandledSet(s, first)
  {
    GroupIsOld(s, first);
    forall i: nat | i < |s| ensures Handled(s, i, first + 1) == Handled(s, i, first) {
      assert i in HandledSet(s, first + 1) <==> i in HandledSet(s, first);
    }
  }

  lemma MarkedAfter(s: seq<Option<SessionId>>, grouped: seq<bool>, grouped': seq<bool>, first: nat)
    requires first < |s| && s[first].Some? && Marked(s, grouped, first) && |grouped'| == |grouped|
    requires forall i :: 0 <= i < |s| ==> grouped'[i] == (grouped[i] || (first <= i && s[i] == s[first]))
    requires !grouped[first]
    ensures Marked(s, grouped', first + 1)
  {
    GroupIsNew(s, first);
    forall i: nat | i < |s| ensures grouped'[i] == Handled(s, i, first + 1) {
      assert i in HandledSet(s, first + 1) <==> i in HandledSet(s, first) || i in HeldBy(s, s[first].value, first, |s|);
    }
  }

  /** Each position with a session is taken by exactly one group: the one its session opens. */
  method TakeGroup(s: seq<Option<SessionId>>, first: nat, grouped: array<bool>) returns (group: seq<nat>)
    requires first < |s| <= grouped.Length && s[first].Some? && !grouped[first] && Marked(s, grouped[..], first)
    modifies grouped
    ensures group == IndexesOf(s, s[first].value, first, |s|)
    ensures forall a :: 0 <= a < |group| ==> group[a] < |s|
    ensures |group| <= |s|
    ensures Marked(s, grouped[..], first + 1)
    ensures |HandledSet(s, first + 1)| == |HandledSet(s, first)| + |group|
  {
    ghost var before := grouped[..];
    var indexes := new nat[|s|];
    var n := CollectGroup(s, first, grouped, indexes);
    group := indexes[..n];
    MarkedAfter(s, before, grouped[..], first);
    IndexesOfExact(s, s[first].value, first, |s|);
    GroupMembers(s, s[first].value, first, group);
    GroupIsNew(s, first);
  }
}
