/**
 The members of a JSON object as the document keeps them when it is built with a members map: an array of
 members, a multimap from names to positions, and an array of iterators that point at each member's own
 entry of the multimap.
 */
module MembersMap {
  import opened JsonDocument

  /** An entry of the multimap. */
  datatype Entry = Entry(key: string, second: nat)

  /** A slot of the iterator array: it points at an entry, or has been dropped. */
  datatype Iterator = To(node: nat) | Raw

  // ---- What the operations mean -----------------------------------------------------------------

  /** The members after the last one has been moved to position `i`. */
  function Removed(ms: seq<Member>, i: nat): seq<Member>
    requires i < |ms|
  {
    ms[i := ms[|ms| - 1]][..|ms| - 1]
  }

  function Erased(ms: seq<Member>, first: nat, last: nat): seq<Member>
    requires first <= last <= |ms|
  {
    ms[..first] + ms[last..]
  }

  /** The position of the first member called `name`, or the number of members. */
  function Scan(ms: seq<Member>, name: string): (i: nat)
    ensures i <= |ms|
    ensures i < |ms| ==> ms[i].name == name
    ensures forall k :: 0 <= k < i ==> ms[k].name != name
  {
    if |ms| == 0 || ms[0].name == name then 0 else 1 + Scan(ms[1..], name)
  }

  predicate UniqueNames(ms: seq<Member>) {
    forall i, j :: 0 <= i < j < |ms| ==> ms[i].name != ms[j].name
  }

  /** What the multimap may return for `name`: any of its positions, or the end when there is none. */
  predicate Lookup(ms: seq<Member>, name: string, i: nat) {
    && i <= |ms|
    && (i < |ms| ==> ms[i].name == name)
    && (i == |ms| ==> forall k :: 0 <= k < |ms| ==> ms[k].name != name)
  }

  predicate AtMostOnce(ms: seq<Member>, name: string) {
    forall i, j :: 0 <= i < |ms| && 0 <= j < |ms| && ms[i].name == name && ms[j].name == name ==> i == j
  }

  /**
   The map and the scan are bound to agree on a name exactly when no two members bear it.
   */
  lemma LookupIsScan(ms: seq<Member>, name: string)
    ensures (forall i: nat {:trigger Lookup(ms, name, i)} :: Lookup(ms, name, i) ==> i == Scan(ms, name)) <==>
            AtMostOnce(ms, name)
    ensures Lookup(ms, name, Scan(ms, name))
  {
    if !AtMostOnce(ms, name) {
      var i, j :| 0 <= i < |ms| && 0 <= j < |ms| && ms[i].name == name && ms[j].name == name && i != j;
      assert Lookup(ms, name, i) && Lookup(ms, name, j);
    }
  }

  lemma OneTakenOut(a: seq<Member>, x: Member, b: seq<Member>, y: Member)
    ensures multiset(a + [y] + b) == multiset(a + [x] + b + [y]) - multiset{x}
  {
  }

  lemma RemovedParts(ms: seq<Member>, i: nat)
    requires i < |ms| - 1
    ensures var last := |ms| - 1;
            && Removed(ms, i) == ms[..i] + [ms[last]] + ms[i + 1..last]
            && ms == ms[..i] + [ms[i]] + ms[i + 1..last] + [ms[last]]
  {
  }

  lemma RemovedBag(ms: seq<Member>, i: nat)
    requires i < |ms|
    ensures multiset(Removed(ms, i)) == multiset(ms) - multiset{ms[i]}
  {
    hide Removed;
    var last := |ms| - 1;
    if i == last {
      LastRemoved(ms);
      assert ms == ms[..last] + [ms[last]];
    } else {
      RemovedParts(ms, i);
      OneTakenOut(ms[..i], ms[i], ms[i + 1..last], ms[last]);
    }
  }

  lemma LastRemoved(ms: seq<Member>)
    requires ms != []
    ensures Removed(ms, |ms| - 1) == ms[..|ms| - 1]
  {
  }

  /** Removal takes one member away, puts the last one in its place, and leaves every other where it was. */
  lemma RemovedIs(ms: seq<Member>, i: nat)
    requires i < |ms|
    ensures |Removed(ms, i)| == |ms| - 1 && (i < |ms| - 1 ==> Removed(ms, i)[i] == ms[|ms| - 1])
    ensures forall k :: 0 <= k < |ms| - 1 && k != i ==> Removed(ms, i)[k] == ms[k]
    ensures multiset(Removed(ms, i)) == multiset(ms) - multiset{ms[i]}
  {
    RemovedBag(ms, i);
  }

  /** Unique names stay unique under every operation that takes members away. */
  lemma UniqueKept(ms: seq<Member>, i: nat, first: nat, last: nat)
    requires UniqueNames(ms) && i < |ms| && first <= last <= |ms|
    ensures UniqueNames(Removed(ms, i)) && UniqueNames(Erased(ms, first, last))
  {
    var r := Removed(ms, i);
    forall a, b | 0 <= a < b < |r| ensures r[a].name != r[b].name {
      var a' := if a == i then |ms| - 1 else a;
      var b' := if b == i then |ms| - 1 else b;
      assert r[a] == ms[a'] && r[b] == ms[b'] && a' != b';
    }
  }

  // ---- The index --------------------------------------------------------------------------------

  type Map = map<nat, Entry>

  /** Slot `i` points at a pair of its own, (name_i, i). */
  predicate Indexed(ms: seq<Member>, its: seq<Iterator>, es: Map, i: nat)
    requires i < |ms| && i < |its|
  {
    its[i].To? && its[i].node in es && es[its[i].node] == Entry(ms[i].name, i)
  }

  /**
   All slots outside the gap first..last are indexed, and the map holds nothing but the entries they point
   at; nodes from `next` on are unused.
   */
  ghost predicate Gapped(ms: seq<Member>, its: seq<Iterator>, es: Map, next: nat, first: nat, last: nat) {
    && first <= last <= |ms| == |its|
    && (forall i {:trigger Indexed(ms, its, es, i)} :: 0 <= i < |ms| && !(first <= i < last) ==>
        Indexed(ms, its, es, i))
    && (forall n {:trigger n in es} {:trigger Owned(its, es, next, first, last, n)} :: n in es ==>
        Owned(its, es, next, first, last, n))
  }

  /** The entry at node `n` is for a position outside the gap, and the slot there points back at it. */
  predicate Owned(its: seq<Iterator>, es: Map, next: nat, first: nat, last: nat, n: nat)
    requires n in es
  {
    var i := es[n].second;
    n < next && i < |its| && !(first <= i < last) && its[i] == To(n)
  }

  /** The map holds exactly the pairs (name_i, i), one for each member, and slot `i` points at it. */
  ghost predicate Index(ms: seq<Member>, its: seq<Iterator>, es: Map, next: nat) {
    && |ms| == |its|
    && (forall i :: 0 <= i < |ms| ==> Indexed(ms, its, es, i))
    && (forall n :: n in es ==> n < next && es[n].second < |its| && its[es[n].second] == To(n))
  }

  lemma IndexAdd(ms: seq<Member>, its: seq<Iterator>, es: Map, next: nat, m: Member)
    requires Index(ms, its, es, next)
    ensures Index(ms + [m], its + [To(next)], es[next := Entry(m.name, |ms|)], next + 1)
  {
    var ms', its', es' := ms + [m], its + [To(next)], es[next := Entry(m.name, |ms|)];
    forall i | 0 <= i < |ms| ensures Indexed(ms', its', es', i) {
      assert Indexed(ms, its, es, i);
    }
  }

  /** Dropping one more entry widens the gap. */
  lemma GapWidens(ms: seq<Member>, its: seq<Iterator>, es: Map, next: nat, first: nat, i: nat)
    requires Gapped(ms, its, es, next, first, i) && i < |ms|
    ensures |its| == |ms| && its[i].To? && Gapped(ms, its[i := Raw], es - {its[i].node}, next, first, i + 1)
  {
    assert Indexed(ms, its, es, i);
    var its', es' := its[i := Raw], es - {its[i].node};
    forall k | 0 <= k < |ms| && !(first <= k < i + 1) ensures Indexed(ms, its', es', k) {
      assert Indexed(ms, its, es, k);
    }
  }

  /** The index is one with an empty gap, which may be anywhere. */
  lemma EmptyGap(ms: seq<Member>, its: seq<Iterator>, es: Map, next: nat, j: nat)
    requires j <= |ms|
    ensures Index(ms, its, es, next) <==> Gapped(ms, its, es, next, j, j)
  {
    if Gapped(ms, its, es, next, j, j) {
      forall n | n in es ensures n < next && es[n].second < |its| && its[es[n].second] == To(n) {
        assert Owned(its, es, next, j, j, n);
      }
    }
  }

  /** A gap at the end can be cut off. */
  lemma GapAtEnd(ms: seq<Member>, its: seq<Iterator>, es: Map, next: nat, first: nat)
    requires Gapped(ms, its, es, next, first, |ms|)
    ensures first <= |ms| == |its| && Index(ms[..first], its[..first], es, next)
  {
    forall k | 0 <= k < first ensures Indexed(ms[..first], its[..first], es, k) {
      assert Indexed(ms, its, es, k);
    }
  }

  /** There are as many entries as members. */
  lemma {:induction false} IndexCount(ms: seq<Member>, its: seq<Iterator>, es: Map, next: nat)
    requires Index(ms, its, es, next)
    ensures |es| == |ms|
  {
    if |ms| == 0 {
      assert forall n :: n in es ==> es[n].second < |its|;
      assert es == map[];
    } else {
      var last := |ms| - 1;
      EmptyGap(ms, its, es, next, last);
      GapWidens(ms, its, es, next, last, last);
      assert Indexed(ms, its, es, last);
      var node := its[last].node;
      GapAtEnd(ms, its[last := Raw], es - {node}, next, last);
      IndexCount(ms[..last], its[last := Raw][..last], es - {node}, next);
      assert (es - {node}).Keys == es.Keys - {node};
      assert |(es - {node}).Keys| == |es - {node}| && |es.Keys| == |es|;
    }
  }

  /** The member behind a gap, moved to its beginning with its iterator, moves the gap up by one. */
  lemma GapMoves(ms: seq<Member>, its: seq<Iterator>, es: Map, next: nat, pos: nat, from: nat)
    requires Gapped(ms, its, es, next, pos, from) && pos < from < |ms|
    ensures |its| == |ms| && its[from].To? && its[from].node in es
    ensures var moved := its[from].node;
            Gapped(ms[pos := ms[from]], its[from := Raw][pos := To(moved)], es[moved := es[moved].(second := pos)],
                   next,
                   pos + 1, from + 1)
  {
    assert Indexed(ms, its, es, from);
    var moved := its[from].node;
    var ms', its', es' := ms[pos := ms[from]], its[from := Raw][pos := To(moved)],
        es[moved := es[moved].(second := pos)];
    forall k | 0 <= k < |ms| && !(pos + 1 <= k < from + 1) ensures Indexed(ms', its', es', k) {
      if k != pos {
        assert Indexed(ms, its, es, k);
      }
    }
  }

  /** A gap of one is filled by the last member. */
  lemma GapFilled(ms: seq<Member>, its: seq<Iterator>, es: Map, next: nat, pos: nat)
    requires Gapped(ms, its, es, next, pos, pos + 1) && pos < |ms| - 1
    ensures var last := |ms| - 1;
            && |its| == |ms| && its[last].To? && its[last].node in es
            && var moved := its[last].node;
            Index(ms[pos := ms[last]][..last], its[last := Raw][pos := To(moved)][..last],
                  es[moved := es[moved].(second := pos)], next)
  {
    var last := |ms| - 1;
    assert Indexed(ms, its, es, last);
    var moved := its[last].node;
    var ms', its' := ms[pos := ms[last]][..last], its[last := Raw][pos := To(moved)][..last];
    var es' := es[moved := es[moved].(second := pos)];
    forall k | 0 <= k < last ensures Indexed(ms', its', es', k) {
      if k != pos {
        assert Indexed(ms, its, es, k);
      }
    }
  }

  // ---- The object -------------------------------------------------------------------------------

  const SIZE_LIMIT: nat := 0x1_0000_0000

  type Size = n: nat | n < SIZE_LIMIT

  const DEFAULT_OBJECT_CAPACITY: Size := 16

  /** The capacity DoAddMember asks for when all places are taken, in 32 bits. */
  function Grown(capacity: Size): Size {
    if capacity > 0 then (capacity + (capacity + 1) % SIZE_LIMIT / 2) % SIZE_LIMIT else DEFAULT_OBJECT_CAPACITY
  }

  /** Half as much again, without a limit, can be held in 32 bits. */
  predicate GrowthFits(capacity: Size) {
    capacity + (capacity + 1) / 2 < SIZE_LIMIT
  }

  /** A larger capacity is asked for exactly when half as much again fits, which is up to 2863311530. */
  lemma GrowthIsGrowth(capacity: Size)
    ensures Grown(capacity) > capacity <==> GrowthFits(capacity)
    ensures GrowthFits(capacity) <==> capacity <= 2_863_311_530
  {
    var half := (capacity + 1) / 2;
    assert 2 * half <= capacity + 1 <= 2 * half + 1;
    if capacity + 1 < SIZE_LIMIT {
      assert (capacity + 1) % SIZE_LIMIT == capacity + 1;
      RemainderBelow(capacity + half);
    } else {
      assert (capacity + 1) % SIZE_LIMIT == 0;
    }
  }

  lemma RemainderBelow(n: nat)
    requires n < 2 * SIZE_LIMIT
    ensures n % SIZE_LIMIT == if n < SIZE_LIMIT then n else n - SIZE_LIMIT
  {
  }

  class ObjectMembers {
    var capacity: Size
    var members: seq<Member>
    var iterators: seq<Iterator>
    /** The multimap: its entries by the identity of their nodes, which iterators keep pointing at. */
    var entries: Map
    /** No node from here on has been used. */
    var nextNode: nat

    ghost predicate Valid()
      reads this
    {
      |members| <= capacity && Index(members, iterators, entries, nextNode)
    }

    constructor ()
      ensures Valid() && members == []
    {
      capacity, members, iterators, entries, nextNode := 0, [], [], map[], 0;
    }

    /** DropMapIterator: take the iterator out of its slot. */
    method Drop(i: nat) returns (node: nat)
      requires i < |iterators| && iterators[i].To?
      modifies `iterators
      ensures node == old(iterators[i]).node && iterators == old(iterators)[i := Raw]
    {
      node := iterators[i].node;
      iterators := iterators[i := Raw];
    }

    /**
     DoReserveMembers and DoReallocMap: a larger block. The map's own count says how many iterators there are to
     move, last one first.
     */
    method Reserve(newCapacity: Size)
      requires Valid()
      modifies `capacity, `iterators
      ensures Valid() && iterators == old(iterators)
      ensures capacity == if newCapacity > old(capacity) then newCapacity else old(capacity)
      ensures |entries| == |members|
    {
      IndexCount(members, iterators, entries, nextNode);
      if newCapacity <= capacity {
        return;
      }
      assert forall i :: 0 <= i < |members| ==> Indexed(members, iterators, entries, i);
      var newIterators := seq(|iterators|, _ => Raw);
      var count := |entries|;
      while count > 0
        invariant 0 <= count <= |iterators| == |newIterators| == |old(iterators)|
        invariant forall i :: 0 <= i < count ==> iterators[i] == old(iterators)[i]
        invariant forall i :: count <= i < |newIterators| ==> newIterators[i] == old(iterators)[i]
      {
        count := count - 1;
        assert Indexed(members, old(iterators), entries, count);
        var node := Drop(count);
        newIterators := newIterators[count := To(node)];
      }
      assert newIterators == old(iterators);
      iterators, capacity := newIterators, newCapacity;
    }

    /** DoAddMember. The member has a place of its own exactly if there was one left or the block could grow. */
    method Add(name: string, value: Value)
      requires Valid()
      modifies this
      ensures Valid() <==> old(|members| < capacity || GrowthFits(capacity))
      ensures members == old(members) + [Member(name, value)]
      ensures Index(members, iterators, entries, nextNode)
      ensures capacity == old(if |members| < capacity || !GrowthFits(capacity) then capacity else Grown(capacity))
    {
      GrowthIsGrowth(capacity);
      if |members| >= capacity {
        Reserve(Grown(capacity));
      }
      IndexAdd(members, iterators, entries, nextNode, Member(name, value));
      entries := entries[nextNode := Entry(name, |members|)];
      iterators := iterators + [To(nextNode)];
      members := members + [Member(name, value)];
      nextNode := nextNode + 1;
    }

    /** DoRemoveMember: the last member takes the place of the one removed. */
    method Remove(mpos: nat)
      requires Valid() && mpos < |members|
      modifies `members, `iterators, `entries
      ensures Valid() && members == Removed(old(members), mpos)
    {
      hide Indexed, Owned, Gapped, Index;
      EmptyGap(members, iterators, entries, nextNode, mpos);
      GapWidens(members, iterators, entries, nextNode, mpos, mpos);
      var node := Drop(mpos);
      entries := entries - {node};
      var last := |members| - 1;
      if |members| > 1 && mpos != last {
        GapFilled(members, iterators, entries, nextNode, mpos);
        var moved := Drop(last);
        iterators := iterators[mpos := To(moved)];
        entries := entries[moved := entries[moved].(second := mpos)];
        members := members[mpos := members[last]];
      } else {
        GapAtEnd(members, iterators, entries, nextNode, mpos);
      }
      members, iterators := members[..last], iterators[..last];
    }

    /** DoEraseMembers: drop the members of a range, and move the rest down over them. */
    method Erase(first: nat, last: nat)
      requires Valid() && first <= last <= |members|
      modifies `members, `iterators, `entries
      ensures Valid() && members == Erased(old(members), first, last)
    {
      hide Indexed, Owned, Gapped, Index, Moved, Erased;
      ghost var before := members;
      EraseEntries(first, last);
      MovedNone(before, first, last);
      var pos, next := first, last;
      if first != last {
        while next != |members|
          invariant first <= pos < next <= |members| && next - pos == last - first
          invariant Gapped(members, iterators, entries, nextNode, pos, next)
          invariant Moved(before, members, first, last, pos)
        {
          MovedOne(before, members, first, last, pos);
          GapMoves(members, iterators, entries, nextNode, pos, next);
          members := members[pos := members[next]];
          var moved := Drop(next);
          iterators := iterators[pos := To(moved)];
          entries := entries[moved := entries[moved].(second := pos)];
          pos, next := pos + 1, next + 1;
        }
        MovedAll(before, members, first, last);
      } else {
        EmptyGap(members, iterators, entries, nextNode, first);
        EmptyGap(members, iterators, entries, nextNode, |members|);
        pos := |members|;
      }
      GapAtEnd(members, iterators, entries, nextNode, pos);
      members, iterators := members[..pos], iterators[..pos];
    }

    method EraseEntries(first: nat, last: nat)
      requires Valid() && first <= last <= |members|
      modifies `entries, `iterators
      ensures Gapped(members, iterators, entries, nextNode, first, last)
    {
      EmptyGap(members, iterators, entries, nextNode, first);
      var i := first;
      while i != last
        invariant first <= i <= last && Gapped(members, iterators, entries, nextNode, first, i)
      {
        GapWidens(members, iterators, entries, nextNode, first, i);
        var node := Drop(i);
        entries := entries - {node};
        i := i + 1;
      }
    }

    /** DoClearMembers; the block is kept. */
    method Clear()
      requires Valid()
      modifies `members, `iterators, `entries
      ensures Valid() && members == [] && entries == map[]
    {
      EraseEntries(0, |members|);
      assert entries == map[];
      members, iterators := [], [];
    }

    /** DoFindMember through the map: some member of that name, or the end. */
    method Find(name: string) returns (i: nat)
      requires Valid()
      ensures Lookup(members, name, i)
    {
      if n :| n in entries && entries[n].key == name {
        i := entries[n].second;
        assert Indexed(members, iterators, entries, i);
      } else {
        i := |members|;
        forall k | 0 <= k < |members| ensures members[k].name != name {
          assert Indexed(members, iterators, entries, k);
        }
      }
    }

    /** DoFindMember without the map: the first member of that name, or the end. */
    method FindByScan(name: string) returns (i: nat)
      ensures i == Scan(members, name)
    {
      i := 0;
      while i < |members|
        invariant 0 <= i <= |members| && Scan(members, name) == i + Scan(members[i..], name)
      {
        if members[i].name == name {
          return;
        }
        i := i + 1;
      }
    }
  }

  /** At a full capacity of 2863311531 the block is not made larger, and the member is put behind its places. */
  method AddPastEnd(o: ObjectMembers, name: string, value: Value)
    requires o.Valid() && |o.members| == o.capacity == 2_863_311_531
    modifies o
    ensures !o.Valid() && |o.members| == o.capacity + 1 == 2_863_311_532
  {
    GrowthIsGrowth(o.capacity);
    o.Add(name, value);
  }

  /** The members behind the range have been moved down as far as position `pos`. */
  ghost predicate Moved(before: seq<Member>, now: seq<Member>, first: nat, last: nat, pos: nat) {
    && first <= last && first <= pos && pos + (last - first) <= |now| == |before|
    && now[..pos] == before[..first] + before[last..pos + (last - first)]
    && now[pos + (last - first)..] == before[pos + (last - first)..]
  }

  lemma MovedNone(ms: seq<Member>, first: nat, last: nat)
    requires first <= last <= |ms|
    ensures Moved(ms, ms, first, last, first)
    ensures first == last ==> Erased(ms, first, last) == ms == ms[..|ms|]
  {
  }

  lemma MovedAll(before: seq<Member>, now: seq<Member>, first: nat, last: nat)
    requires first <= last <= |now| && Moved(before, now, first, last, |now| - (last - first))
    ensures |before| == |now| && now[..|now| - (last - first)] == Erased(before, first, last)
  {
  }

  lemma MovedOne(before: seq<Member>, now: seq<Member>, first: nat, last: nat, pos: nat)
    requires Moved(before, now, first, last, pos) && first < last && pos + (last - first) < |now|
    ensures Moved(before, now[pos := now[pos + (last - first)]], first, last, pos + 1)
  {
    var next := pos + (last - first);
    var after := now[pos := now[next]];
    assert now[next] == now[next..][0] == before[next];
    assert after[..pos + 1] == now[..pos] + [now[next]];
    assert before[last..next + 1] == before[last..next] + [before[next]];
    assert after[next + 1..] == now[next..][1..];
  }

  /** With no name borne twice, the map and the scan find the same member. */
  method FindBothWays(o: ObjectMembers, name: string) returns (i: nat, j: nat)
    requires o.Valid()
    ensures AtMostOnce(o.members, name) ==> i == j
  {
    i := o.Find(name);
    j := o.FindByScan(name);
    LookupIsScan(o.members, name);
  }
}
