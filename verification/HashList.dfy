/** `hlist` chains (sdk/include/list.h): a single-pointer head, and nodes that remember the address of
    the pointer that points at them. */
module HashList {
  import opened Seqs

  class HHead {
    var first: HNode?
  }

  class HNode {
    var next: HNode?
    var pprev: Slot
  }

  /** The address of a `hlist_node *` variable: none, a head's `first`, or a node's `next`. */
  datatype Slot = NoSlot | First(h: HHead) | Next(n: HNode)

  ghost predicate SlotHolds(p: Slot, v: HNode?)
    reads (match p case NoSlot => {} case First(h) => {h} case Next(n) => {n})
  {
    match p
    case NoSlot => false
    case First(h) => h.first == v
    case Next(n) => n.next == v
  }

  /** `*p = v`. */
  method Store(p: Slot, v: HNode?)
    requires p != NoSlot
    modifies match p case NoSlot => {} case First(h) => {h} case Next(n) => {n}
    ensures SlotHolds(p, v)
    ensures p.Next? ==> p.n.pprev == old(p.n.pprev)
  {
    match p
    case First(h) => h.first := v;
    case Next(n) => n.next := v;
  }

  function SlotOf(h: HHead, s: seq<HNode>, i: nat): (p: Slot)
    requires i <= |s|
  {
    if i == 0 then First(h) else Next(s[i - 1])
  }

  function NodeAt(s: seq<HNode>, i: nat): (n: HNode?)
    requires i <= |s|
  {
    if i == |s| then null else s[i]
  }

  /** `s` lists the nodes reachable from `h`, and every `pprev` is the address of the pointer to its node. */
  ghost predicate Chain(h: HHead, s: seq<HNode>)
    reads h, s
  {
    && Distinct(s)
    && h.first == NodeAt(s, 0)
    && (forall i {:trigger s[i].next} :: 0 <= i < |s| ==> s[i].next == NodeAt(s, i + 1))
    && (forall i {:trigger s[i].pprev} :: 0 <= i < |s| ==> s[i].pprev == SlotOf(h, s, i))
  }

  /** The pointer found at a node's `pprev` is the pointer to that node. */
  lemma PprevPointsBack(h: HHead, s: seq<HNode>, i: nat)
    requires Chain(h, s) && i < |s|
    ensures SlotHolds(s[i].pprev, s[i])
  {
    if i > 0 {
      assert s[i - 1].next == NodeAt(s, i);
    }
  }

  /** The head alone determines the chain. */
  lemma ChainUnique(h: HHead, s: seq<HNode>, t: seq<HNode>)
    requires Chain(h, s) && Chain(h, t)
    ensures s == t
  {
    var n := if |s| < |t| then |s| else |t|;
    ChainPrefix(h, s, t, n);
    assert NodeAt(s, n) == NodeAt(t, n);
  }

  lemma {:induction false} ChainPrefix(h: HHead, s: seq<HNode>, t: seq<HNode>, k: nat)
    requires Chain(h, s) && Chain(h, t) && k <= |s| && k <= |t|
    ensures s[..k] == t[..k] && NodeAt(s, k) == NodeAt(t, k)
  {
    if k > 0 {
      ChainPrefix(h, s, t, k - 1);
      assert s[..k] == s[..k - 1] + [s[k - 1]] && t[..k] == t[..k - 1] + [t[k - 1]];
      assert s[k - 1].next == t[k - 1].next;
    }
  }

  /** `__hlist_del`: the rest of the chain closes up; the node's own fields are kept. */
  method Unhook(n: HNode, ghost h: HHead, ghost s: seq<HNode>, ghost k: nat)
    requires Chain(h, s) && k < |s| && s[k] == n
    modifies h, s
    ensures Chain(h, Without(s, k)) && n !in Without(s, k)
    ensures n.next == old(n.next) && n.pprev == old(n.pprev)
  {
    DistinctWithout(s, k);
    DistinctAt(s, k);
    if k > 0 {
      DistinctAt(s, k - 1);
    }
    if k + 1 < |s| {
      DistinctAt(s, k + 1);
    }
    var next := n.next;
    var pprev := n.pprev;
    Store(pprev, next);
    if next != null {
      next.pprev := pprev;
    }
    ghost var r := Without(s, k);
    forall i | 0 <= i < |r|
      ensures r[i].next == NodeAt(r, i + 1) && r[i].pprev == SlotOf(h, r, i)
    {
      assert r[i] == s[if i < k then i else i + 1];
    }
  }

  method HlistDel(n: HNode, ghost h: HHead, ghost s: seq<HNode>, ghost k: nat)
    requires Chain(h, s) && k < |s| && s[k] == n
    modifies h, s
    ensures Chain(h, Without(s, k))
    ensures n.next == null && n.pprev == NoSlot
  {
    Unhook(n, h, s, k);
    n.next := null;
    n.pprev := NoSlot;
  }

  /** `hlist_del_init`: a node that is on no chain is left alone. */
  method HlistDelInit(n: HNode, ghost h: HHead, ghost s: seq<HNode>, ghost k: nat)
    requires Chain(h, s)
    requires n.pprev != NoSlot ==> k < |s| && s[k] == n
    modifies h, s, n
    ensures old(n.pprev) != NoSlot ==> Chain(h, Without(s, k)) && n.next == null && n.pprev == NoSlot
    ensures old(n.pprev) == NoSlot ==> Chain(h, s) && n.next == old(n.next) && n.pprev == NoSlot
  {
    if n.pprev != NoSlot {
      Unhook(n, h, s, k);
      n.next := null;
      n.pprev := NoSlot;
    }
  }

  /** The links of `s` with `x` put in at position `k` are those of a chain. */
  lemma InsertedChain(h: HHead, s: seq<HNode>, k: nat, x: HNode)
    requires Distinct(s) && x !in s && k <= |s|
    requires x.next == NodeAt(s, k) && x.pprev == SlotOf(h, s, k)
    requires h.first == if k == 0 then x else NodeAt(s, 0)
    requires forall i {:trigger s[i].next} :: 0 <= i < |s| ==> s[i].next == if i + 1 == k then x else NodeAt(s, i + 1)
    requires forall i {:trigger s[i].pprev} :: 0 <= i < |s| ==> s[i].pprev == if i == k then Next(x) else SlotOf(h, s, i)
    ensures Chain(h, Inserted(s, k, [x]))
  {
    var r := Inserted(s, k, [x]);
    DistinctSplit(s, k);
    DistinctAppend(s[..k], [x]);
    DistinctAppend(s[..k] + [x], s[k..]);
    forall i | 0 <= i < |r|
      ensures r[i].next == NodeAt(r, i + 1) && r[i].pprev == SlotOf(h, r, i)
    {
      assert i != k ==> r[i] == s[if i < k then i else i - 1];
    }
  }

  method HlistAddHead(n: HNode, h: HHead, ghost s: seq<HNode>)
    requires Chain(h, s) && n !in s
    modifies n, h, h.first
    ensures Chain(h, [n] + s)
  {
    if |s| > 0 {
      DistinctAt(s, 0);
    }
    var first := h.first;
    n.next := first;
    if first != null {
      first.pprev := Next(n);
    }
    h.first := n;
    n.pprev := First(h);
    InsertedChain(h, s, 0, n);
    assert Inserted(s, 0, [n]) == [n] + s;
  }

  method HlistAddBefore(n: HNode, next: HNode, ghost h: HHead, ghost s: seq<HNode>, ghost k: nat)
    requires Chain(h, s) && n !in s && k < |s| && s[k] == next
    modifies n, h, s
    ensures Chain(h, Inserted(s, k, [n]))
  {
    DistinctAt(s, k);
    if k > 0 {
      DistinctAt(s, k - 1);
    }
    n.pprev := next.pprev;
    n.next := next;
    next.pprev := Next(n);
    Store(n.pprev, n);
    InsertedChain(h, s, k, n);
  }

  /** `hlist_add_after(n, next)`: it is `next` that is put in, after `n`. */
  method HlistAddAfter(n: HNode, next: HNode, ghost h: HHead, ghost s: seq<HNode>, ghost k: nat)
    requires Chain(h, s) && next !in s && k < |s| && s[k] == n
    modifies n, next, n.next
    ensures Chain(h, Inserted(s, k + 1, [next]))
  {
    DistinctAt(s, k);
    if k + 1 < |s| {
      DistinctAt(s, k + 1);
    }
    next.next := n.next;
    n.next := next;
    next.pprev := Next(n);
    if next.next != null {
      next.next.pprev := Next(next);
    }
    InsertedChain(h, s, k + 1, next);
  }

  /** `hlist_add_fake` lets `hlist_del` run on a node that is on no chain; only a stale successor is written. */
  method HlistAddFakeThenDel(n: HNode)
    modifies n, n.next
    ensures n.next == null && n.pprev == NoSlot
    ensures old(n.next) != null && old(n.next) != n ==> old(n.next).pprev == Next(n) && old(n.next).next == old(n.next.next)
  {
    n.pprev := Next(n);
    var next := n.next;
    var pprev := n.pprev;
    Store(pprev, next);
    if next != null {
      next.pprev := pprev;
    }
    n.next := null;
    n.pprev := NoSlot;
  }

  /** `hlist_move_list`: the chain of `old_` becomes that of `nhead`, except that moving a chain onto its
      own head drops all of it. */
  method HlistMoveList(old_: HHead, nhead: HHead, ghost s: seq<HNode>)
    requires Chain(old_, s)
    modifies old_, nhead, old_.first
    ensures Chain(old_, [])
    ensures Chain(nhead, s) <==> old_ != nhead || s == []
  {
    if |s| > 0 {
      DistinctAt(s, 0);
    }
    nhead.first := old_.first;
    if nhead.first != null {
      nhead.first.pprev := First(nhead);
    }
    old_.first := null;
    assert old_ != nhead ==> forall i {:trigger s[i].pprev} :: 0 <= i < |s| ==> s[i].pprev == SlotOf(nhead, s, i);
  }
}
