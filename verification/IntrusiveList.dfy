/** Circular doubly linked lists threaded through `list_head` nodes (sdk/include/list.h).

    A ring is described by the sequence of its nodes in `next` order. Any node of a ring can play the
    head; a list with head `h` and entries `es` is the ring `[h] + es`. Every operation names in its
    `modifies` clause the few nodes it writes, so rings that share no node with them are untouched. */
module IntrusiveList {
  import opened Seqs

  class ListNode {
    var next: ListNode?
    var prev: ListNode?
  }

  ghost predicate Joined(a: ListNode, b: ListNode)
    reads a`next, b`prev
  {
    a.next == b && b.prev == a
  }

  ghost predicate JoinedAt(s: seq<ListNode>, i: nat)
    requires i + 1 < |s|
    reads {s[i]}`next, {s[i + 1]}`prev
  {
    Joined(s[i], s[i + 1])
  }

  /** Consecutive nodes of `s` point at each other. */
  ghost predicate Path(s: seq<ListNode>)
    reads Front(s)`next, Tail(s)`prev
  {
    forall i {:trigger JoinedAt(s, i)} :: 0 <= i < |s| - 1 ==> JoinedAt(s, i)
  }

  /** `s` lists every node of one ring, in order, with `next` and `prev` mutually inverse. */
  ghost predicate Ring(s: seq<ListNode>)
    reads s
  {
    s != [] && Distinct(s) && Path(s) && Joined(Last(s), s[0])
  }

  /** The list with head `head` and entries `es`. */
  ghost predicate List(head: ListNode, es: seq<ListNode>)
    reads head, es
  {
    Ring([head] + es)
  }

  lemma PathAppend(s: seq<ListNode>, t: seq<ListNode>)
    requires Path(s) && Path(t)
    requires s != [] && t != [] ==> Joined(Last(s), t[0])
    ensures Path(s + t)
  {
    var r := s + t;
    forall i | 0 <= i < |r| - 1
      ensures JoinedAt(r, i)
    {
      if i >= |s| {
        assert JoinedAt(t, i - |s|);
      } else if i + 1 < |s| {
        assert JoinedAt(s, i);
      }
    }
  }

  lemma PathSplit(s: seq<ListNode>, k: nat)
    requires Path(s) && k <= |s|
    ensures Path(s[..k]) && Path(s[k..])
    ensures 0 < k < |s| ==> Joined(s[k - 1], s[k])
  {
    forall i | 0 <= i < k - 1
      ensures JoinedAt(s[..k], i)
    {
      assert JoinedAt(s, i);
    }
    forall i | 0 <= i < |s| - k - 1
      ensures JoinedAt(s[k..], i)
    {
      assert JoinedAt(s, k + i);
    }
    if 0 < k < |s| {
      assert JoinedAt(s, k - 1);
    }
  }

  // ---------------------------------------------------------------------------------------------
  // The abstraction is determined by the heap
  // ---------------------------------------------------------------------------------------------

  /** A ring may be read from any of its nodes. */
  lemma RotateRing(s: seq<ListNode>, k: nat)
    requires Ring(s) && k <= |s|
    ensures Ring(Rotated(s, k))
  {
    PathSplit(s, k);
    PathAppend(s[k..], s[..k]);
    DistinctRotated(s, k);
  }

  lemma {:induction false} RingPrefix(s: seq<ListNode>, t: seq<ListNode>, k: nat)
    requires Ring(s) && Ring(t) && s[0] == t[0] && 0 < k <= |s| && k <= |t|
    ensures s[..k] == t[..k]
  {
    if k > 1 {
      RingPrefix(s, t, k - 1);
      assert s[..k - 1][k - 2] == t[..k - 1][k - 2];
      assert JoinedAt(s, k - 2) && JoinedAt(t, k - 2);
      assert s[..k] == s[..k - 1] + [s[k - 1]];
      assert t[..k] == t[..k - 1] + [t[k - 1]];
    }
  }

  /** The links of one node of a ring. */
  lemma RingNeighbours(s: seq<ListNode>, k: nat)
    requires Ring(s) && k < |s|
    ensures s[k].next == s[if k + 1 == |s| then 0 else k + 1]
    ensures s[k].prev == s[if k == 0 then |s| - 1 else k - 1]
    ensures s[if k + 1 == |s| then 0 else k + 1] in s && s[if k == 0 then |s| - 1 else k - 1] in s
  {
    assert k + 1 < |s| ==> JoinedAt(s, k);
    assert k > 0 ==> JoinedAt(s, k - 1);
  }

  /** A list taken apart: the chain of entries and its two joints with the head. */
  lemma ListParts(head: ListNode, es: seq<ListNode>)
    requires List(head, es)
    ensures Path(es) && Distinct(es) && head !in es
    ensures es == [] ==> Joined(head, head)
    ensures es != [] ==> Joined(head, es[0]) && Joined(Last(es), head)
    ensures es != [] ==> es[0] !in Tail(es) && Last(es) !in Front(es)
    ensures forall x :: x in Front(es) || x in Tail(es) ==> x in es
  {
    var s := [head] + es;
    assert s[1..] == es && s[..1] == [head];
    PathSplit(s, 1);
    DistinctSplit(s, 1);
    if es != [] {
      DistinctEnds(es);
    }
  }

  lemma ListFromParts(head: ListNode, es: seq<ListNode>)
    requires Path(es) && Distinct(es) && head !in es
    requires es == [] ==> Joined(head, head)
    requires es != [] ==> Joined(head, es[0]) && Joined(Last(es), head)
    ensures List(head, es)
  {
    PathAppend([head], es);
    DistinctAppend([head], es);
  }

  lemma NotYetAround(s: seq<ListNode>, i: nat)
    requires Ring(s) && i + 1 < |s|
    ensures s[i].next == s[i + 1] != s[0]
  {
    assert JoinedAt(s, i) && Apart(s, 0, i + 1);
  }

  /** Following `next` from a given node can only ever yield one sequence. */
  lemma RingUnique(s: seq<ListNode>, t: seq<ListNode>)
    requires Ring(s) && Ring(t) && s[0] == t[0]
    ensures s == t
  {
    var n := if |s| < |t| then |s| else |t|;
    RingPrefix(s, t, n);
    assert s[..n][n - 1] == t[..n][n - 1];
    if n < |t| {
      NotYetAround(t, n - 1);
    } else if n < |s| {
      NotYetAround(s, n - 1);
    }
  }

  /** Two rings that meet anywhere are the same ring read from different nodes; otherwise they share nothing. */
  lemma RingsCoincideOrDisjoint(s: seq<ListNode>, t: seq<ListNode>, i: nat, j: nat)
    requires Ring(s) && Ring(t) && i < |s| && j < |t| && s[i] == t[j]
    ensures Rotated(s, i) == Rotated(t, j)
  {
    RotateRing(s, i);
    RotateRing(t, j);
    RingUnique(Rotated(s, i), Rotated(t, j));
  }

  // ---------------------------------------------------------------------------------------------
  // Insertion and removal
  // ---------------------------------------------------------------------------------------------

  method InitListHead(list: ListNode)
    modifies list
    ensures List(list, [])
  {
    list.next := list;
    list.prev := list;
    assert [list] + [] == [list];
  }

  /** `__list_add`, seen from the node after the gap: `prev` ends and `next` starts the ring `t`. */
  method LinkBetween(nhead: ListNode, prev: ListNode, next: ListNode, ghost t: seq<ListNode>)
    requires Ring(t) && nhead !in t && prev == Last(t) && next == t[0]
    modifies nhead, prev, next
    ensures Ring(t + [nhead])
  {
    DistinctEnds(t);
    DistinctAppend(t, [nhead]);
    next.prev := nhead;
    nhead.next := next;
    nhead.prev := prev;
    prev.next := nhead;
    assert Path(t);
    PathAppend(t, [nhead]);
  }

  method ListAdd(nhead: ListNode, head: ListNode, ghost es: seq<ListNode>)
    requires List(head, es) && nhead != head && nhead !in es
    modifies nhead, head, head.next
    ensures List(head, [nhead] + es)
  {
    ghost var s := [head] + es;
    ghost var t := Rotated(s, 1);
    RotateRing(s, 1);
    assert s[0] == head && (es != [] ==> JoinedAt(s, 0));
    LinkBetween(nhead, head, head.next, t);
    RotateRing(t + [nhead], |es|);
    assert Rotated(t + [nhead], |es|) == [head] + ([nhead] + es);
  }

  method ListAddTail(nhead: ListNode, head: ListNode, ghost es: seq<ListNode>)
    requires List(head, es) && nhead != head && nhead !in es
    modifies nhead, head, head.prev
    ensures List(head, es + [nhead])
  {
    LinkBetween(nhead, head.prev, head, [head] + es);
    assert [head] + es + [nhead] == [head] + (es + [nhead]);
  }

  /** `__list_del` with its null guard: makes `prev` and `next` neighbours. */
  method Unlink(prev: ListNode?, next: ListNode?)
    modifies prev, next
    ensures prev != null && next != null ==> Joined(prev, next)
    ensures prev != null && prev != next ==> prev.prev == old(prev.prev)
    ensures next != null && prev != next ==> next.next == old(next.next)
    ensures prev == null && next != null ==> next.prev == old(next.prev)
    ensures next == null && prev != null ==> prev.next == old(prev.next)
  {
    if prev != null && next != null {
      next.prev := prev;
      prev.next := next;
    }
  }

  method UnlinkFirst(entry: ListNode, ghost rest: seq<ListNode>)
    requires Ring([entry] + rest)
    modifies entry.prev, entry.next
    ensures rest != [] ==> Ring(rest) && entry.next == old(entry.next) && entry.prev == old(entry.prev)
    ensures rest == [] ==> Ring([entry])
  {
    ListParts(entry, rest);
    Unlink(entry.prev, entry.next);
  }

  /** `__list_del_entry`: the rest of the entry's ring closes up; the entry's own links are kept. */
  method ListDelEntry(entry: ListNode, ghost s: seq<ListNode>, ghost k: nat)
    requires Ring(s) && k < |s| && s[k] == entry
    modifies entry.prev, entry.next
    ensures |s| > 1 ==> Ring(Without(s, k))
    ensures |s| > 1 ==> entry.next == old(entry.next) && entry.prev == old(entry.prev)
    ensures |s| == 1 ==> Ring(s)
  {
    ghost var rest := s[k + 1..] + s[..k];
    RotateRing(s, k);
    assert Rotated(s, k) == [entry] + rest;
    UnlinkFirst(entry, rest);
    if rest != [] {
      RotateRing(rest, |s| - k - 1);
      assert Rotated(rest, |s| - k - 1) == Without(s, k);
    } else {
      assert s == [entry];
    }
  }

  /** `list_del`: the entry leaves its ring and its links are cleared. */
  method ListDel(entry: ListNode, ghost s: seq<ListNode>, ghost k: nat)
    requires Ring(s) && k < |s| && s[k] == entry
    modifies entry, entry.prev, entry.next
    ensures entry.next == null && entry.prev == null
    ensures |s| > 1 ==> Ring(Without(s, k))
  {
    ListDelEntry(entry, s, k);
    DistinctWithout(s, k);
    entry.next := null;
    entry.prev := null;
  }

  /** A second `list_del` of the same entry changes nothing: the guard in `__list_del` sees the cleared links. */
  method ListDelAgain(entry: ListNode)
    requires entry.next == null && entry.prev == null
    modifies entry
    ensures entry.next == null && entry.prev == null
  {
    Unlink(entry.prev, entry.next);
    entry.next := null;
    entry.prev := null;
  }

  method ListDelInit(entry: ListNode, ghost s: seq<ListNode>, ghost k: nat)
    requires Ring(s) && k < |s| && s[k] == entry
    modifies entry, entry.prev, entry.next
    ensures List(entry, [])
    ensures |s| > 1 ==> Ring(Without(s, k))
  {
    ListDelEntry(entry, s, k);
    DistinctWithout(s, k);
    InitListHead(entry);
  }

  /** `list_replace`: `nhead` takes the place of `old_`, even when `old_` is alone in its ring. The ring
      is read from `old_`; `RotateRing` turns it to any other starting node. */
  method ListReplace(old_: ListNode, nhead: ListNode, ghost rest: seq<ListNode>)
    requires List(old_, rest) && nhead != old_ && nhead !in rest
    modifies nhead, old_, old_.next, old_.prev
    ensures List(nhead, rest)
    ensures rest != [] ==> old_.next == old(old_.next) && old_.prev == old(old_.prev)
  {
    ListParts(old_, rest);
    nhead.next := old_.next;
    nhead.next.prev := nhead;
    nhead.prev := old_.prev;
    nhead.prev.next := nhead;
    assert Path(rest);
    ListFromParts(nhead, rest);
  }

  method ListReplaceInit(old_: ListNode, nhead: ListNode, ghost rest: seq<ListNode>)
    requires List(old_, rest) && nhead != old_ && nhead !in rest
    modifies nhead, old_, old_.next, old_.prev
    ensures List(nhead, rest) && List(old_, [])
  {
    ListParts(old_, rest);
    ListReplace(old_, nhead, rest);
    InitListHead(old_);
  }

  // ---------------------------------------------------------------------------------------------
  // Moving
  // ---------------------------------------------------------------------------------------------

  /** The ring that keeps the head `t[0]` once the node `s[k]` has left ring `s`; `s` and `t` may be one ring. */
  function Remaining<T(==)>(s: seq<T>, k: nat, t: seq<T>): (r: seq<T>)
    requires k < |s|
  {
    if s == t then Without(s, k) else t
  }

  /** `__list_del_entry` again, saying what becomes of the ring `t` the entry is about to join. */
  method Detach(list: ListNode, ghost s: seq<ListNode>, ghost k: nat, ghost t: seq<ListNode>)
    requires Ring(s) && k < |s| && s[k] == list
    requires Ring(t) && t[0] != list && (s == t || Disjoint(s, t))
    modifies list.prev, list.next
    ensures Ring(Remaining(s, k, t)) && list !in Remaining(s, k, t) && Remaining(s, k, t)[0] == t[0]
    ensures forall x :: x in Remaining(s, k, t) ==> x in s || x in t
    ensures s != t && |s| > 1 ==> Ring(Without(s, k)) && list !in Without(s, k) && Disjoint(t, Without(s, k))
  {
    RingNeighbours(s, k);
    DistinctWithout(s, k);
    ListDelEntry(list, s, k);
    if s != t {
      assert Ring(t);
      assert forall x :: x in Without(s, k) ==> x in s;
    }
  }

  /** `list_move`: `list` leaves ring `s` and follows the head `t[0]`. */
  method ListMove(list: ListNode, head: ListNode, ghost s: seq<ListNode>, ghost k: nat, ghost t: seq<ListNode>)
    requires Ring(s) && k < |s| && s[k] == list
    requires Ring(t) && t[0] == head && list != head
    requires s == t || Disjoint(s, t)
    modifies s, t
    ensures Ring([head, list] + Remaining(s, k, t)[1..])
    ensures s != t && |s| > 1 ==> Ring(Without(s, k))
  {
    ghost var r, w := Remaining(s, k, t), Without(s, k);
    RingNeighbours(s, k);
    Detach(list, s, k, t);
    assert r == [head] + r[1..];
    RingNeighbours(r, 0);
    ListAdd(list, head, r[1..]);
    assert [head] + ([list] + r[1..]) == [head, list] + r[1..];
    if s != t && |s| > 1 {
      assert list !in w && head in t && Disjoint(t, w);
      assert Ring(w);
    }
  }

  /** `list_move_tail`: `list` leaves ring `s` and precedes the head `t[0]`. */
  method ListMoveTail(list: ListNode, head: ListNode, ghost s: seq<ListNode>, ghost k: nat, ghost t: seq<ListNode>)
    requires Ring(s) && k < |s| && s[k] == list
    requires Ring(t) && t[0] == head && list != head
    requires s == t || Disjoint(s, t)
    modifies s, t
    ensures Ring(Remaining(s, k, t) + [list])
    ensures s != t && |s| > 1 ==> Ring(Without(s, k))
  {
    ghost var r, w := Remaining(s, k, t), Without(s, k);
    RingNeighbours(s, k);
    Detach(list, s, k, t);
    assert r == [head] + r[1..];
    RingNeighbours(r, 0);
    ListAddTail(list, head, r[1..]);
    assert [head] + (r[1..] + [list]) == r + [list];
    if s != t && |s| > 1 {
      assert list !in w && head in t && Disjoint(t, w);
      assert Ring(w);
    }
  }

  method ListEmpty(head: ListNode, ghost es: seq<ListNode>) returns (r: bool)
    requires List(head, es)
    ensures r <==> es == []
  {
    RingNeighbours([head] + es, 0);
    DistinctEnds([head] + es);
    r := head.next == head;
  }

  method ListIsSingular(head: ListNode, ghost es: seq<ListNode>) returns (r: bool)
    requires List(head, es)
    ensures r <==> |es| == 1
  {
    RingNeighbours([head] + es, 0);
    if |es| > 1 {
      DistinctSplit([head] + es, 1);
      DistinctEnds(es);
    }
    var e := ListEmpty(head, es);
    r := !e && head.next == head.prev;
  }

  function RotateLeft<T>(es: seq<T>): (r: seq<T>) {
    if es == [] then [] else es[1..] + [es[0]]
  }

  function RotateLeftN<T>(es: seq<T>, n: nat): (r: seq<T>)
    decreases n
  {
    if n == 0 then es else RotateLeft(RotateLeftN(es, n - 1))
  }

  method ListRotateLeft(head: ListNode, ghost es: seq<ListNode>)
    requires List(head, es)
    modifies head, es
    ensures List(head, RotateLeft(es))
  {
    ghost var s := [head] + es;
    RingNeighbours(s, 0);
    var e := ListEmpty(head, es);
    if !e {
      var first := head.next;
      DistinctEnds(s);
      ListMoveTail(first, head, s, 1, s);
      assert Remaining(s, 1, s) + [first] == [head] + RotateLeft(es);
    }
  }

  /** `n <= |es|` left rotations bring entry `n` to the front. */
  lemma {:induction false} RotateLeftNIsRotated<T>(es: seq<T>, n: nat)
    requires n <= |es|
    ensures RotateLeftN(es, n) == Rotated(es, n)
    decreases n
  {
    if n > 0 {
      RotateLeftNIsRotated(es, n - 1);
      RotateOnce(es, n);
    }
  }

  lemma RotateOnce<T>(es: seq<T>, n: nat)
    requires 0 < n <= |es|
    ensures RotateLeft(Rotated(es, n - 1)) == Rotated(es, n)
  {
    var r := Rotated(es, n - 1);
    assert r == [es[n - 1]] + (es[n..] + es[..n - 1]);
    assert r[1..] == es[n..] + es[..n - 1];
    assert es[..n] == es[..n - 1] + [es[n - 1]];
    assert (es[n..] + es[..n - 1]) + [es[n - 1]] == es[n..] + es[..n];
  }

  /** Rotating a list once per entry is the identity. */
  lemma FullRotation<T>(es: seq<T>)
    ensures RotateLeftN(es, |es|) == es
  {
    RotateLeftNIsRotated(es, |es|);
  }

  /** `n` calls of `list_rotate_left`: a full turn restores the list. */
  method RotateRepeatedly(head: ListNode, ghost es: seq<ListNode>, n: nat)
    requires List(head, es) && n <= |es|
    modifies head, es
    ensures List(head, Rotated(es, n))
    ensures n == |es| ==> List(head, es)
  {
    assert Rotated(es, 0) == es;
    for i := 0 to n
      invariant List(head, Rotated(es, i))
    {
      assert forall x :: x in Rotated(es, i) ==> x in es;
      ListRotateLeft(head, Rotated(es, i));
      RotateOnce(es, i + 1);
    }
    assert Rotated(es, |es|) == es;
  }

  // ---------------------------------------------------------------------------------------------
  // Cutting and splicing
  // ---------------------------------------------------------------------------------------------

  /** The two halves of a list cut after entry `k`. */
  lemma CutParts(head: ListNode, es: seq<ListNode>, k: nat)
    requires List(head, es) && k < |es|
    ensures var a, b := es[..k + 1], es[k + 1..];
            && Path(a) && Path(b) && Distinct(a) && Distinct(b)
            && head !in a && head !in b
            && Joined(head, a[0]) && a[0] !in Tail(a) && a[0] !in b
            && es[k] !in Front(a) && es[k] !in b
            && (b == [] ==> Joined(es[k], head))
            && (b != [] ==> Joined(es[k], b[0]) && Joined(Last(b), head) && b[0] !in a && b[0] !in Tail(b))
  {
    var a, b := es[..k + 1], es[k + 1..];
    ListParts(head, es);
    PathSplit(es, k + 1);
    DistinctSplit(es, k + 1);
    DistinctEnds(a);
    if b != [] {
      DistinctEnds(b);
      assert b[0] in b;
    }
    assert a[0] in a && es[k] in a;
  }

  /** The entries up to `entry` become the ring of `list`; `head` is not touched. */
  method CloseFirstPart(list: ListNode, head: ListNode, entry: ListNode, ghost a: seq<ListNode>, ghost b: seq<ListNode>)
    requires a != [] && Path(a) && Path(b) && entry == Last(a) && head.next == a[0]
    requires list != head && list !in a && list !in b && head !in a
    requires a[0] !in Tail(a) && a[0] !in b && entry !in Front(a) && entry !in b
    modifies list, head.next, entry
    ensures Path(a) && Path(b) && Joined(list, a[0]) && Joined(Last(a), list)
  {
    list.next := head.next;
    list.next.prev := list;
    assert Path(a) && Path(b);
    list.prev := entry;
    entry.next := list;
    assert Path(a) && Path(b);
  }

  /** `__list_cut_position`. */
  method CutAt(list: ListNode, head: ListNode, entry: ListNode, ghost es: seq<ListNode>, ghost k: nat)
    requires List(head, es) && list != head && list !in es
    requires k < |es| && es[k] == entry
    modifies list, head, entry, head.next, entry.next
    ensures List(list, es[..k + 1]) && List(head, es[k + 1..])
  {
    ghost var a, b := es[..k + 1], es[k + 1..];
    CutParts(head, es, k);
    assert list !in a && list !in b;
    var newFirst := entry.next;
    CloseFirstPart(list, head, entry, a, b);
    head.next := newFirst;
    newFirst.prev := head;
    assert Path(a) && Path(b);
    ListFromParts(list, a);
    ListFromParts(head, b);
  }

  /** `list_cut_position`: `list` receives the entries up to and including `entry`. */
  method ListCutPosition(list: ListNode, head: ListNode, entry: ListNode, ghost es: seq<ListNode>, ghost k: nat)
    requires List(head, es) && list != head && list !in es
    requires |es| >= 2 ==> entry == head || entry in es
    requires entry in es ==> k < |es| && es[k] == entry
    modifies list, head, entry, head.next, entry.next
    ensures es != [] && entry in es ==> List(list, es[..k + 1]) && List(head, es[k + 1..])
    ensures es != [] && entry == head ==> List(list, []) && List(head, es)
    ensures es == [] || (entry != head && entry !in es) ==>
              List(head, es) && list.next == old(list.next) && list.prev == old(list.prev)
  {
    ghost var s := [head] + es;
    RingNeighbours(s, 0);
    DistinctEnds(s);
    var empty := ListEmpty(head, es);
    if empty {
      return;
    }
    var singular := ListIsSingular(head, es);
    if singular && head.next != entry && head != entry {
      return;
    }
    if entry == head {
      InitListHead(list);
    } else {
      CutAt(list, head, entry, es, k);
    }
  }

  /** `__list_splice`, seen from the node after the gap: `prev` ends and `next` starts the ring `t`. */
  method SpliceBetween(list: ListNode, prev: ListNode, next: ListNode, ghost ls: seq<ListNode>, ghost t: seq<ListNode>)
    requires List(list, ls) && ls != []
    requires Ring(t) && list !in t && Disjoint(ls, t) && prev == Last(t) && next == t[0]
    modifies list.next, list.prev, prev, next
    ensures Ring(t + ls)
    ensures list.next == old(list.next) && list.prev == old(list.prev)
  {
    ListParts(list, ls);
    DistinctEnds(t);
    DistinctAppend(t, ls);
    var first := list.next;
    var last := list.prev;
    assert prev !in ls && next !in ls && first !in t && last !in t;
    first.prev := prev;
    assert Path(t) && Path(ls);
    prev.next := first;
    assert Path(t) && Path(ls);
    last.next := next;
    assert Path(t) && Path(ls);
    next.prev := last;
    assert Path(t) && Path(ls);
    PathAppend(t, ls);
  }

  /** `__list_splice(list, head, head->next)`, the shared part of `list_splice` and `list_splice_init`. */
  method SpliceFront(list: ListNode, head: ListNode, ghost ls: seq<ListNode>, ghost hs: seq<ListNode>)
    requires List(list, ls) && ls != [] && List(head, hs) && Disjoint([list] + ls, [head] + hs)
    modifies list.next, list.prev, head, head.next
    ensures List(head, ls + hs)
    ensures list.next == old(list.next) && list.prev == old(list.prev)
  {
    ghost var t := [head] + hs;
    SpliceOperands(list, head, ls, hs);
    RingNeighbours(t, 0);
    RotateRing(t, 1);
    assert Rotated(t, 1) == hs + [head];
    SpliceBetween(list, head, head.next, ls, hs + [head]);
    RotateRing(hs + [head] + ls, |hs|);
    assert Rotated(hs + [head] + ls, |hs|) == [head] + (ls + hs);
  }

  /** `__list_splice(list, head->prev, head)`. */
  method SpliceBack(list: ListNode, head: ListNode, ghost ls: seq<ListNode>, ghost hs: seq<ListNode>)
    requires List(list, ls) && ls != [] && List(head, hs) && Disjoint([list] + ls, [head] + hs)
    modifies list.next, list.prev, head, head.prev
    ensures List(head, hs + ls)
    ensures list.next == old(list.next) && list.prev == old(list.prev)
  {
    SpliceOperands(list, head, ls, hs);
    RingNeighbours([head] + hs, 0);
    SpliceBetween(list, head.prev, head, ls, [head] + hs);
    assert [head] + hs + ls == [head] + (hs + ls);
  }

  lemma SpliceOperands(list: ListNode, head: ListNode, ls: seq<ListNode>, hs: seq<ListNode>)
    requires Disjoint([list] + ls, [head] + hs)
    ensures list !in [head] + hs && list !in hs + [head]
    ensures Disjoint(ls, [head] + hs) && Disjoint(ls, hs + [head])
  {
    assert list in [list] + ls;
    assert forall x :: x in ls ==> x in [list] + ls;
    assert forall x :: x in hs + [head] ==> x in [head] + hs;
  }

  method ListSplice(list: ListNode, head: ListNode, ghost ls: seq<ListNode>, ghost hs: seq<ListNode>)
    requires List(list, ls) && List(head, hs) && Disjoint([list] + ls, [head] + hs)
    modifies list.next, list.prev, head, head.next
    ensures List(head, ls + hs)
  {
    var empty := ListEmpty(list, ls);
    if !empty {
      SpliceFront(list, head, ls, hs);
    } else {
      assert ls + hs == hs;
    }
  }

  method ListSpliceTail(list: ListNode, head: ListNode, ghost ls: seq<ListNode>, ghost hs: seq<ListNode>)
    requires List(list, ls) && List(head, hs) && Disjoint([list] + ls, [head] + hs)
    modifies list.next, list.prev, head, head.prev
    ensures List(head, hs + ls)
  {
    var empty := ListEmpty(list, ls);
    if !empty {
      SpliceBack(list, head, ls, hs);
    } else {
      assert hs + ls == hs;
    }
  }

  method ListSpliceInit(list: ListNode, head: ListNode, ghost ls: seq<ListNode>, ghost hs: seq<ListNode>)
    requires List(list, ls) && List(head, hs) && Disjoint([list] + ls, [head] + hs)
    modifies list, list.next, list.prev, head, head.next
    ensures List(head, ls + hs) && List(list, [])
  {
    SpliceOperands(list, head, ls, hs);
    ListParts(list, ls);
    var empty := ListEmpty(list, ls);
    if !empty {
      SpliceFront(list, head, ls, hs);
      InitListHead(list);
    } else {
      assert ls + hs == hs;
    }
  }

  method ListSpliceTailInit(list: ListNode, head: ListNode, ghost ls: seq<ListNode>, ghost hs: seq<ListNode>)
    requires List(list, ls) && List(head, hs) && Disjoint([list] + ls, [head] + hs)
    modifies list, list.next, list.prev, head, head.prev
    ensures List(head, hs + ls) && List(list, [])
  {
    SpliceOperands(list, head, ls, hs);
    ListParts(list, ls);
    var empty := ListEmpty(list, ls);
    if !empty {
      SpliceBack(list, head, ls, hs);
      InitListHead(list);
    } else {
      assert hs + ls == hs;
    }
  }

  /** Cutting a list anywhere and splicing the cut part back onto the same head restores it. */
  method CutThenSplice(list: ListNode, head: ListNode, entry: ListNode, ghost es: seq<ListNode>, ghost k: nat)
    requires List(head, es) && List(list, []) && list != head && list !in es
    requires |es| >= 2 ==> entry == head || entry in es
    requires entry in es ==> k < |es| && es[k] == entry
    modifies list, head, entry, entry.next, es
    ensures List(head, es) && List(list, [])
  {
    ghost var a, b := if entry in es then es[..k + 1] else [], if entry in es then es[k + 1..] else es;
    assert a + b == es;
    HeadNextIn(head, es);
    ListParts(head, es);
    ListCutPosition(list, head, entry, es, k);
    assert List(list, a) && List(head, b);
    SpliceAgain(list, head, a, b, es);
  }

  /** The second half of that: the two parts of `es` go back together. */
  method SpliceAgain(list: ListNode, head: ListNode, ghost a: seq<ListNode>, ghost b: seq<ListNode>, ghost es: seq<ListNode>)
    requires List(list, a) && List(head, b) && a + b == es && Distinct(es) && head !in es && list !in es && list != head
    modifies list, head, es
    ensures List(head, es) && List(list, [])
  {
    DistinctSplit(es, |a|);
    HeadNextIn(list, a);
    HeadNextIn(head, b);
    ListSpliceInit(list, head, a, b);
  }

  lemma HeadNextIn(head: ListNode, es: seq<ListNode>)
    requires List(head, es)
    ensures es == [] ==> head.next == head == head.prev
    ensures es != [] ==> head.next == es[0] && head.prev == Last(es)
  {
    ListParts(head, es);
  }

  // ---------------------------------------------------------------------------------------------
  // Traversal that tolerates removal of the current node
  // ---------------------------------------------------------------------------------------------

  /** What the body of a `list_for_each_safe` loop does with the node it is given. */
  datatype Action = Keep | Delete | MoveAway

  /** Those of the first `n` nodes of `es` whose body chose action `a`, in order. */
  function Select<T>(es: seq<T>, acts: seq<Action>, a: Action, n: nat): (r: seq<T>)
    requires n <= |es| == |acts|
    ensures forall x :: x in r ==> x in es
  {
    if n == 0 then [] else Select(es, acts, a, n - 1) + (if acts[n - 1] == a then [es[n - 1]] else [])
  }

  /** A node is selected when its body chose the action, and selected nodes keep their order. */
  lemma SelectOneMore<T>(es: seq<T>, acts: seq<Action>, a: Action, n: nat)
    requires n < |es| == |acts|
    ensures Select(es, acts, a, 0) == []
    ensures Select(es, acts, a, n + 1) == if acts[n] == a then Select(es, acts, a, n) + [es[n]] else Select(es, acts, a, n)
  {
  }

  lemma {:induction false} SelectHolds<T>(es: seq<T>, acts: seq<Action>, a: Action, n: nat, x: T)
    requires n <= |es| == |acts|
    ensures x in Select(es, acts, a, n) <==> exists i :: 0 <= i < n && es[i] == x && acts[i] == a
  {
    if n > 0 {
      SelectHolds(es, acts, a, n - 1, x);
    }
  }

  /** The ring being walked, and the ring nodes move to, after `i` loop bodies. */
  function Walked<T>(head: T, es: seq<T>, acts: seq<Action>, i: nat): (r: seq<T>)
    requires i <= |es| == |acts|
    ensures forall x :: x in r ==> x == head || x in es
  {
    [head] + Select(es, acts, Keep, i) + es[i..]
  }

  function Filled<T>(dst: T, ds: seq<T>, es: seq<T>, acts: seq<Action>, i: nat): (r: seq<T>)
    requires i <= |es| == |acts|
    ensures forall x :: x in r ==> x == dst || x in ds || x in es
  {
    [dst] + ds + Select(es, acts, MoveAway, i)
  }

  /** Where the walk stands before body `i`. */
  function Cursor<T>(es: seq<T>, acts: seq<Action>, i: nat): (k: nat)
    requires i <= |es| == |acts|
  {
    1 + |Select(es, acts, Keep, i)|
  }

  lemma WalkStep<T>(head: T, dst: T, es: seq<T>, ds: seq<T>, acts: seq<Action>, i: nat)
    requires i < |es| == |acts|
    ensures var s, t, k := Walked(head, es, acts, i), Filled(dst, ds, es, acts, i), Cursor(es, acts, i);
            && k < |s| && s[k] == es[i] && es[i] in s
            && Walked(head, es, acts, i + 1) == (if acts[i] == Keep then s else Without(s, k))
            && Filled(dst, ds, es, acts, i + 1) == (if acts[i] == MoveAway then t + [es[i]] else t)
  {
    var s, k := Walked(head, es, acts, i), Cursor(es, acts, i);
    assert Without(s, k) == [head] + Select(es, acts, Keep, i) + es[i + 1..];
    assert es[i..] == [es[i]] + es[i + 1..];
  }

  /** The state of both lists after `i` loop bodies. */
  ghost predicate Walking(head: ListNode, dst: ListNode, es: seq<ListNode>, ds: seq<ListNode>, acts: seq<Action>,
                          i: nat, nodes: set<ListNode>)
    requires i <= |es| == |acts|
    reads nodes, Walked(head, es, acts, i), Filled(dst, ds, es, acts, i), Select(es, acts, Delete, i)
  {
    var s, t := Walked(head, es, acts, i), Filled(dst, ds, es, acts, i);
    && (forall x :: x in s ==> x in nodes) && (forall x :: x in t ==> x in nodes)
    && Ring(s) && Ring(t) && Disjoint(s, t)
    && (forall x :: x in Select(es, acts, Delete, i) ==> Cleared(x) && x in nodes && x !in s && x !in t)
  }

  /** The node after the current one, which the loop has already read, is where the walk goes next. */
  lemma WalkNext(head: ListNode, dst: ListNode, es: seq<ListNode>, ds: seq<ListNode>, acts: seq<Action>,
                 i: nat, nodes: set<ListNode>)
    requires i <= |es| == |acts| && Walking(head, dst, es, ds, acts, i, nodes)
    ensures i < |es| ==> es[i] != head && es[i].next == (if i + 1 < |es| then es[i + 1] else head)
    ensures i == |es| ==> head.next != null
  {
    var s, k := Walked(head, es, acts, i), Cursor(es, acts, i);
    RingNeighbours(s, if i < |es| then k else 0);
    DistinctEnds(s);
    assert i < |es| ==> es[i] in Tail(s);
  }

  ghost predicate Cleared(x: ListNode)
    reads x
  {
    x.next == null && x.prev == null
  }

  /** One loop body: it acts on the node `s[k]` and on nothing outside the two rings. */
  method Visit(pos: ListNode, dst: ListNode, act: Action, ghost s: seq<ListNode>, ghost k: nat, ghost t: seq<ListNode>,
               ghost nodes: set<ListNode>)
    requires Ring(s) && 0 < k < |s| && s[k] == pos
    requires Ring(t) && t[0] == dst && Disjoint(s, t)
    requires forall x :: x in s || x in t ==> x in nodes
    modifies nodes
    ensures Ring(if act == Keep then s else Without(s, k)) && Ring(if act == MoveAway then t + [pos] else t)
    ensures Disjoint(if act == Keep then s else Without(s, k), if act == MoveAway then t + [pos] else t)
    ensures act == Delete ==> Cleared(pos) && pos !in Without(s, k) && pos !in t
    ensures forall x :: x in Without(s, k) ==> x in s
    ensures forall x :: x in nodes && x !in s && x !in t ==> x.next == old(x.next) && x.prev == old(x.prev)
  {
    RingNeighbours(s, k);
    DistinctWithout(s, k);
    assert forall x :: x in Without(s, k) ==> x in s;
    assert pos in s && dst in t;
    match act
    case Keep =>
    case Delete =>
      ListDel(pos, s, k);
      assert Ring(t);
    case MoveAway =>
      ListMoveTail(pos, dst, s, k, t);
      assert t != s;
  }

  lemma WalkBegins(head: ListNode, dst: ListNode, es: seq<ListNode>, ds: seq<ListNode>, acts: seq<Action>,
                   nodes: set<ListNode>)
    requires List(head, es) && List(dst, ds) && Disjoint([head] + es, [dst] + ds) && |acts| == |es|
    requires (forall x :: x in [head] + es ==> x in nodes) && (forall x :: x in [dst] + ds ==> x in nodes)
    ensures Walking(head, dst, es, ds, acts, 0, nodes)
    ensures head.next == (if es == [] then head else es[0]) && head.next.next != null
  {
    assert Walked(head, es, acts, 0) == [head] + es && Filled(dst, ds, es, acts, 0) == [dst] + ds;
    HeadNextIn(head, es);
    WalkNext(head, dst, es, ds, acts, 0, nodes);
  }

  lemma WalkEnds(head: ListNode, dst: ListNode, es: seq<ListNode>, ds: seq<ListNode>, acts: seq<Action>,
                 i: nat, nodes: set<ListNode>)
    requires i <= |es| == |acts| && Walking(head, dst, es, ds, acts, i, nodes)
    requires i < |es| ==> es[i] == head
    ensures i == |es| && List(head, Select(es, acts, Keep, |es|)) && List(dst, ds + Select(es, acts, MoveAway, |es|))
  {
    WalkNext(head, dst, es, ds, acts, i, nodes);
    assert Walked(head, es, acts, |es|) == [head] + Select(es, acts, Keep, |es|);
    assert Filled(dst, ds, es, acts, |es|) == [dst] + (ds + Select(es, acts, MoveAway, |es|));
  }

  lemma WalkingStep(head: ListNode, dst: ListNode, es: seq<ListNode>, ds: seq<ListNode>, acts: seq<Action>,
                    i: nat, nodes: set<ListNode>)
    requires i < |es| == |acts|
    requires var s, t, gone := Walked(head, es, acts, i), Filled(dst, ds, es, acts, i), Select(es, acts, Delete, i);
             var s' := Walked(head, es, acts, i + 1);
             var t' := Filled(dst, ds, es, acts, i + 1);
             && (forall x :: x in s ==> x in nodes) && (forall x :: x in t ==> x in nodes)
             && es[i] in s && (forall x :: x in s' ==> x in s)
             && (t' == t || t' == t + [es[i]])
             && Ring(s') && Ring(t') && Disjoint(s', t')
             && (forall x :: x in gone ==> Cleared(x) && x in nodes && x !in s && x !in t)
             && (acts[i] == Delete ==> Cleared(es[i]) && es[i] !in s' && es[i] !in t')
    ensures Walking(head, dst, es, ds, acts, i + 1, nodes)
  {
    var gone, gone' := Select(es, acts, Delete, i), Select(es, acts, Delete, i + 1);
    assert gone' == if acts[i] == Delete then gone + [es[i]] else gone;
    assert forall x :: x in gone ==> x != es[i];
  }

  /** Loop body number `i` of the walk below. */
  method VisitAt(pos: ListNode, dst: ListNode, acts: seq<Action>, i: nat,
                 ghost head: ListNode, ghost es: seq<ListNode>, ghost ds: seq<ListNode>, ghost nodes: set<ListNode>)
    requires i < |es| == |acts| && pos == es[i] && Walking(head, dst, es, ds, acts, i, nodes)
    modifies nodes
    ensures Walking(head, dst, es, ds, acts, i + 1, nodes)
  {
    ghost var s, t := Walked(head, es, acts, i), Filled(dst, ds, es, acts, i);
    WalkStep(head, dst, es, ds, acts, i);
    ghost var gone := Select(es, acts, Delete, i);
    Visit(pos, dst, acts[i], s, Cursor(es, acts, i), t, nodes);
    assert forall x :: x in gone ==> Cleared(x);
    WalkingStep(head, dst, es, ds, acts, i, nodes);
  }

  /** `list_for_each_safe` over `head`, with a body that keeps, deletes or moves the node to the tail of
      `dst` as `acts` tells it; `visited` is the order in which the body ran. */
  method ForEachSafe(head: ListNode, dst: ListNode, acts: seq<Action>, ghost es: seq<ListNode>, ghost ds: seq<ListNode>,
                     ghost nodes: set<ListNode>)
    returns (visited: seq<ListNode>)
    requires List(head, es) && List(dst, ds) && Disjoint([head] + es, [dst] + ds) && |acts| == |es|
    requires (forall x :: x in [head] + es ==> x in nodes) && (forall x :: x in [dst] + ds ==> x in nodes)
    modifies nodes
    ensures visited == es
    ensures List(head, Select(es, acts, Keep, |es|)) && List(dst, ds + Select(es, acts, MoveAway, |es|))
    ensures forall x :: x in Select(es, acts, Delete, |es|) ==> Cleared(x)
  {
    visited := [];
    WalkBegins(head, dst, es, ds, acts, nodes);
    var pos: ListNode := head.next;
    var n: ListNode := pos.next;
    var i := 0;
    while pos != head
      invariant 0 <= i <= |es| == |acts| && |visited| == i && forall j :: 0 <= j < i ==> visited[j] == es[j]
      invariant Walking(head, dst, es, ds, acts, i, nodes)
      invariant pos == (if i < |es| then es[i] else head) && pos.next == n
      decreases |es| - i
    {
      visited := visited + [pos];
      WalkNext(head, dst, es, ds, acts, i, nodes);
      VisitAt(pos, dst, acts, i, head, es, ds, nodes);
      i := i + 1;
      WalkNext(head, dst, es, ds, acts, i, nodes);
      pos := n;
      n := pos.next;
    }
    WalkEnds(head, dst, es, ds, acts, i, nodes);
  }
}
