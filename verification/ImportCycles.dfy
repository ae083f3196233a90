/**
 The import-cycle detector: Tarjan's algorithm as `strongly_connected` runs it.

 The class `Detector` holds the variables the recursive closure shares. The
 proof works on a `Snapshot` of them and on the set `gray` of nodes whose
 visit has started and not finished; each step of the algorithm is one lemma.
 */
module ImportCycles {
  import opened Orders
  import opened Graphs

  /** What the invariants speak about: the numbering, the nodes on the stack, and every component popped so far. */
  datatype Snapshot = Snapshot(indexes: map<Node, nat>, onStack: set<Node>, found: seq<seq<Node>>) {

    ghost function Popped(): set<Node> {
      indexes.Keys - onStack
    }

    /** Stack nodes numbered `n` or higher: what sits at or above the node numbered `n`. */
    ghost function From(n: nat): set<Node>
      requires onStack <= indexes.Keys
    {
      set x | x in onStack && n <= indexes[x]
    }
  }

  ghost predicate Numbered(g: Graph, s: Snapshot) {
    s.indexes.Keys <= g.Keys && s.onStack <= s.indexes.Keys
  }

  /** Each node on the stack reaches every node above it. */
  ghost predicate Linked(g: Graph, s: Snapshot)
    requires Numbered(g, s)
  {
    forall x, y :: x in s.onStack && y in s.onStack && s.indexes[x] <= s.indexes[y] ==> Reach(g, x, y)
  }

  ghost predicate Anchors(g: Graph, s: Snapshot, gray: set<Node>, y: Node, x: Node)
    requires Numbered(g, s) && gray <= s.onStack && y in s.onStack
  {
    x in gray && s.indexes[x] <= s.indexes[y] && Reach(g, y, x)
  }

  ghost predicate HasAnchor(g: Graph, s: Snapshot, gray: set<Node>, y: Node)
    requires Numbered(g, s) && gray <= s.onStack && y in s.onStack
  {
    exists x :: Anchors(g, s, gray, y, x)
  }

  /** Each node on the stack reaches an unfinished node at or below it. */
  ghost predicate Anchored(g: Graph, s: Snapshot, gray: set<Node>)
    requires Numbered(g, s)
  {
    && gray <= s.onStack
    && forall y {:trigger HasAnchor(g, s, gray, y)} :: y in s.onStack ==> HasAnchor(g, s, gray, y)
  }

  lemma AnchorOf(g: Graph, s: Snapshot, gray: set<Node>, y: Node) returns (x: Node)
    requires Numbered(g, s) && Anchored(g, s, gray) && y in s.onStack
    ensures Anchors(g, s, gray, y, x)
  {
    assert HasAnchor(g, s, gray, y);
    x :| Anchors(g, s, gray, y, x);
  }

  /** A finished node has no unnumbered successor. */
  ghost predicate Explored(g: Graph, s: Snapshot, gray: set<Node>)
    requires Numbered(g, s)
  {
    forall x :: x in s.indexes && x !in gray ==> g[x] <= s.indexes.Keys
  }

  /** Popped nodes only lead to popped nodes. */
  ghost predicate Settled(g: Graph, s: Snapshot)
    requires Numbered(g, s)
  {
    forall x :: x in s.Popped() ==> g[x] <= s.Popped()
  }

  ghost predicate ListsComponent(g: Graph, c: seq<Node>) {
    Distinct(c) && Sorted(c, StringLeq) && IsComponent(g, Elems(c))
  }

  ghost predicate Genuine(g: Graph, found: seq<seq<Node>>) {
    forall k {:trigger ListsComponent(g, found[k])} :: 0 <= k < |found| ==> ListsComponent(g, found[k])
  }

  ghost predicate Listed(found: seq<seq<Node>>, x: Node) {
    exists k :: 0 <= k < |found| && x in found[k]
  }

  /** The components found so far are disjoint and hold exactly the popped nodes. */
  ghost predicate Separated(s: Snapshot) {
    && (forall j, k :: 0 <= j < k < |s.found| ==> Elems(s.found[j]) !! Elems(s.found[k]))
    && (forall k :: 0 <= k < |s.found| ==> Elems(s.found[k]) <= s.Popped())
    && (forall x {:trigger Listed(s.found, x)} :: x in s.Popped() ==> Listed(s.found, x))
  }

  ghost predicate Invariant(g: Graph, s: Snapshot, gray: set<Node>) {
    && Numbered(g, s)
    && Linked(g, s)
    && Anchored(g, s, gray)
    && Explored(g, s, gray)
    && Settled(g, s)
    && Genuine(g, s.found)
    && Separated(s)
  }

  /** A later snapshot keeps every number, and of the nodes numbered earlier the same are on the stack. */
  ghost predicate Extends(s: Snapshot, t: Snapshot) {
    && (forall x :: x in s.indexes ==> x in t.indexes && t.indexes[x] == s.indexes[x])
    && (forall x :: x in s.indexes ==> (x in t.onStack <==> x in s.onStack))
  }

  ghost predicate ReachesNumber(g: Graph, s: Snapshot, v: Node, l: nat)
    requires Numbered(g, s)
  {
    exists y :: y in s.onStack && s.indexes[y] == l && Reach(g, v, y)
  }

  /** No edge from a stack node numbered `hi` or higher to one numbered below `lo` leads under `l`. */
  ghost predicate Bounds(g: Graph, s: Snapshot, lo: nat, hi: nat, l: nat)
    requires Numbered(g, s)
  {
    forall x, y :: x in s.onStack && y in s.onStack && y in g[x] && hi <= s.indexes[x] && s.indexes[y] < lo
      ==> l <= s.indexes[y]
  }

  /** What `low[v] == l` means once the visit of `v` has returned. */
  ghost predicate LowLink(g: Graph, s: Snapshot, v: Node, l: nat)
    requires Numbered(g, s)
  {
    && v in s.indexes
    && l <= s.indexes[v]
    && (l < s.indexes[v] ==> ReachesNumber(g, s, v, l))
    && Bounds(g, s, s.indexes[v], s.indexes[v], l)
  }

  /** The loop over the successors of `v`, of which `seen` are handled, with `low[v] == l`. */
  ghost predicate Scanning(g: Graph, s: Snapshot, v: Node, seen: set<Node>, l: nat)
    requires Numbered(g, s)
  {
    && v in s.onStack
    && seen <= s.indexes.Keys
    && l <= s.indexes[v]
    && ReachesNumber(g, s, v, l)
    && Bounds(g, s, s.indexes[v] + 1, s.indexes[v] + 1, l)
    && (forall y :: y in seen && y in s.onStack ==> l <= s.indexes[y])
  }

  function Min(a: nat, b: nat): nat {
    if b < a then b else a
  }

  // Pushing a node ------------------------------------------------------

  ghost function Pushed(s: Snapshot, v: Node, n: nat): Snapshot {
    s.(indexes := s.indexes[v := n], onStack := s.onStack + {v})
  }

  lemma PushAnchored(g: Graph, s: Snapshot, gray: set<Node>, v: Node, n: nat)
    requires Numbered(g, s) && Anchored(g, s, gray)
    requires v in g && v !in s.indexes
    ensures Anchored(g, Pushed(s, v, n), gray + {v})
  {
    var t := Pushed(s, v, n);
    forall y | y in t.onStack
      ensures HasAnchor(g, t, gray + {v}, y)
    {
      if y == v {
        ReachSelf(g, v);
        assert Anchors(g, t, gray + {v}, y, v);
      } else {
        var x := AnchorOf(g, s, gray, y);
        assert Anchors(g, t, gray + {v}, y, x);
      }
    }
  }

  lemma PushLinked(g: Graph, s: Snapshot, gray: set<Node>, v: Node, n: nat)
    requires Numbered(g, s) && Linked(g, s) && Anchored(g, s, gray)
    requires v in g && v !in s.indexes
    requires forall x :: x in s.indexes ==> s.indexes[x] < n
    requires forall x :: x in gray ==> Reach(g, x, v)
    ensures Linked(g, Pushed(s, v, n))
  {
    var t := Pushed(s, v, n);
    forall x, y | x in t.onStack && y in t.onStack && t.indexes[x] <= t.indexes[y]
      ensures Reach(g, x, y)
    {
      if x == v {
        ReachSelf(g, v);
      } else if y == v {
        var z := AnchorOf(g, s, gray, x);
        ReachTrans(g, x, z, v);
      }
    }
  }

  lemma Push(g: Graph, s: Snapshot, gray: set<Node>, v: Node, n: nat)
    requires Invariant(g, s, gray)
    requires v in g && v !in s.indexes
    requires forall x :: x in s.indexes ==> s.indexes[x] < n
    requires forall x :: x in gray ==> Reach(g, x, v)
    ensures Invariant(g, Pushed(s, v, n), gray + {v})
    ensures Scanning(g, Pushed(s, v, n), v, {}, n)
    ensures Extends(s, Pushed(s, v, n))
  {
    PushAnchored(g, s, gray, v, n);
    PushLinked(g, s, gray, v, n);
    assert Pushed(s, v, n).Popped() == s.Popped();
    ReachSelf(g, v);
  }

  // The three cases of the successor loop --------------------------------

  /** A visited successor hands its low-link on. */
  lemma ScanVisited(g: Graph, s: Snapshot, t: Snapshot, v: Node, seen: set<Node>, l: nat, w: Node, lw: nat)
    requires Numbered(g, s) && Numbered(g, t)
    requires Scanning(g, s, v, seen, l) && Extends(s, t)
    requires v in g && w in g && w in g[v] && w !in s.indexes
    requires LowLink(g, t, w, lw)
    requires forall x :: x in s.indexes ==> s.indexes[x] < t.indexes[w]
    requires forall x :: x in t.indexes && x !in s.indexes ==> t.indexes[w] <= t.indexes[x]
    ensures Scanning(g, t, v, seen + {w}, Min(l, lw))
  {
    if lw < l {
      var y :| y in t.onStack && t.indexes[y] == lw && Reach(g, w, y);
      ReachEdge(g, v, w);
      ReachTrans(g, v, w, y);
    } else {
      var y :| y in s.onStack && s.indexes[y] == l && Reach(g, v, y);
      assert y in t.onStack && t.indexes[y] == l;
    }
  }

  /** A successor on the stack lowers the low-link to its number. */
  lemma ScanOnStack(g: Graph, s: Snapshot, v: Node, seen: set<Node>, l: nat, w: Node)
    requires Numbered(g, s) && Scanning(g, s, v, seen, l)
    requires v in g && w in g && w in g[v] && w in s.onStack
    ensures Scanning(g, s, v, seen + {w}, Min(l, s.indexes[w]))
  {
    ReachEdge(g, v, w);
  }

  // Returning without popping --------------------------------------------

  lemma ScanLowLink(g: Graph, s: Snapshot, v: Node, l: nat)
    requires v in g && Numbered(g, s) && Scanning(g, s, v, g[v], l)
    requires forall x :: x in s.onStack && s.indexes[x] == s.indexes[v] ==> x == v
    ensures LowLink(g, s, v, l)
  {
  }

  lemma ReturnAnchored(g: Graph, s: Snapshot, gray: set<Node>, v: Node, l: nat)
    requires Numbered(g, s) && Anchored(g, s, gray + {v}) && v in s.onStack
    requires l < s.indexes[v] && ReachesNumber(g, s, v, l)
    ensures Anchored(g, s, gray)
  {
    var k :| k in s.onStack && s.indexes[k] == l && Reach(g, v, k);
    var z := AnchorOf(g, s, gray + {v}, k);
    ReachTrans(g, v, k, z);
    forall y | y in s.onStack
      ensures HasAnchor(g, s, gray, y)
    {
      var x := AnchorOf(g, s, gray + {v}, y);
      if x == v {
        ReachTrans(g, y, v, z);
        assert Anchors(g, s, gray, y, z);
      } else {
        assert Anchors(g, s, gray, y, x);
      }
    }
  }

  lemma Return(g: Graph, s: Snapshot, gray: set<Node>, v: Node, l: nat)
    requires v in g && Invariant(g, s, gray + {v}) && Scanning(g, s, v, g[v], l)
    requires l < s.indexes[v]
    ensures Invariant(g, s, gray)
  {
    ReturnAnchored(g, s, gray, v, l);
  }

  // Popping a component ----------------------------------------------------

  /** What holds just before the component of `v` is popped. */
  ghost predicate Ready(g: Graph, s: Snapshot, gray: set<Node>, v: Node) {
    && v in g && Invariant(g, s, gray + {v})
    && Scanning(g, s, v, g[v], s.indexes[v])
    && (forall x :: x in gray ==> s.indexes[x] < s.indexes[v])
    && (forall x :: x in s.onStack && s.indexes[x] == s.indexes[v] ==> x == v)
  }

  /** Nothing leads from the nodes at or above `v` back below it. */
  lemma RegionCloses(g: Graph, s: Snapshot, gray: set<Node>, v: Node)
    requires Ready(g, s, gray, v)
    ensures forall x :: x in s.From(s.indexes[v]) + s.Popped() ==> g[x] <= s.From(s.indexes[v]) + s.Popped()
  {
  }

  lemma SegmentReturns(g: Graph, s: Snapshot, gray: set<Node>, v: Node, x: Node)
    requires Ready(g, s, gray, v)
    requires x in s.From(s.indexes[v])
    ensures Mutual(g, v, x)
  {
    var z := AnchorOf(g, s, gray + {v}, x);
    RegionCloses(g, s, gray, v);
    ReachStays(g, s.From(s.indexes[v]) + s.Popped(), x, z);
    assert z == v;
  }

  lemma SegmentIsComponent(g: Graph, s: Snapshot, gray: set<Node>, v: Node)
    requires Ready(g, s, gray, v)
    ensures IsComponent(g, s.From(s.indexes[v]))
  {
    var c := s.From(s.indexes[v]);
    assert v in c;
    forall x, y | x in c && y in g
      ensures y in c <==> Mutual(g, x, y)
    {
      SegmentReturns(g, s, gray, v, x);
      if y in c {
        SegmentReturns(g, s, gray, v, y);
        ReachTrans(g, x, v, y);
        ReachTrans(g, y, v, x);
      } else if Mutual(g, x, y) {
        SegmentMaximal(g, s, gray, v, x, y);
      }
    }
  }

  lemma SegmentMaximal(g: Graph, s: Snapshot, gray: set<Node>, v: Node, x: Node, y: Node)
    requires Ready(g, s, gray, v)
    requires x in s.From(s.indexes[v]) && Mutual(g, x, y)
    ensures y in s.From(s.indexes[v])
  {
    RegionCloses(g, s, gray, v);
    ReachStays(g, s.From(s.indexes[v]) + s.Popped(), x, y);
    if y in s.Popped() {
      ReachStays(g, s.Popped(), y, x);
    }
  }

  ghost function Cut(s: Snapshot, v: Node, c: seq<Node>): Snapshot
    requires v in s.indexes && s.onStack <= s.indexes.Keys
  {
    s.(onStack := s.onStack - s.From(s.indexes[v]), found := s.found + [c])
  }

  lemma CutAnchored(g: Graph, s: Snapshot, gray: set<Node>, v: Node, c: seq<Node>)
    requires Ready(g, s, gray, v)
    ensures Anchored(g, Cut(s, v, c), gray)
  {
    var t := Cut(s, v, c);
    forall y | y in t.onStack
      ensures HasAnchor(g, t, gray, y)
    {
      var x := AnchorOf(g, s, gray + {v}, y);
      assert Anchors(g, t, gray, y, x);
    }
  }

  lemma CutSeparated(g: Graph, s: Snapshot, v: Node, c: seq<Node>)
    requires Numbered(g, s) && Separated(s) && v in s.indexes
    requires Elems(c) == s.From(s.indexes[v])
    ensures Separated(Cut(s, v, c))
  {
    var t := Cut(s, v, c);
    assert t.Popped() == s.Popped() + Elems(c);
    forall x | x in t.Popped()
      ensures Listed(t.found, x)
    {
      if x in s.Popped() {
        assert Listed(s.found, x);
        var k :| 0 <= k < |s.found| && x in s.found[k];
        assert x in t.found[k];
      } else {
        assert x in t.found[|s.found|];
      }
    }
  }

  lemma Pop(g: Graph, s: Snapshot, gray: set<Node>, v: Node, c: seq<Node>)
    requires v in g && v in s.indexes && Invariant(g, s, gray + {v}) && Scanning(g, s, v, g[v], s.indexes[v])
    requires forall x :: x in gray && x in s.indexes ==> s.indexes[x] < s.indexes[v]
    requires forall x :: x in s.onStack && s.indexes[x] == s.indexes[v] ==> x == v
    requires Distinct(c) && Sorted(c, StringLeq) && Elems(c) == s.From(s.indexes[v])
    ensures Invariant(g, Cut(s, v, c), gray)
  {
    assert Ready(g, s, gray, v);
    SegmentIsComponent(g, s, gray, v);
    CutAnchored(g, s, gray, v, c);
    CutSeparated(g, s, v, c);
    var t := Cut(s, v, c);
    assert Linked(g, t);
    assert ListsComponent(g, c);
    assert Genuine(g, t.found);
  }

  /** The stack lists its nodes in the order of their numbers; so it repeats none. */
  ghost predicate Stacked(indexes: map<Node, nat>, stack: seq<Node>, onStack: set<Node>) {
    && onStack == Elems(stack)
    && (forall i :: 0 <= i < |stack| ==> stack[i] in indexes)
    && (forall i, j :: 0 <= i < j < |stack| ==> indexes[stack[i]] < indexes[stack[j]])
  }

  /** The numbers are given out from 0 in the order of `order`: each node gets one, once. */
  ghost predicate Counted(indexes: map<Node, nat>, order: seq<Node>) {
    && (forall x :: x in indexes ==> indexes[x] < |order| && order[indexes[x]] == x)
    && (forall i :: 0 <= i < |order| ==> order[i] in indexes && indexes[order[i]] == i)
  }

  lemma PushStacked(indexes: map<Node, nat>, stack: seq<Node>, onStack: set<Node>, order: seq<Node>, v: Node)
    requires Stacked(indexes, stack, onStack) && Counted(indexes, order)
    requires v !in indexes
    ensures Stacked(indexes[v := |order|], stack + [v], onStack + {v})
    ensures Counted(indexes[v := |order|], order + [v])
  {
  }

  /** The components with more than one node: the only ones the detector reports. */
  ghost function NonTrivial(found: seq<seq<Node>>): seq<seq<Node>> {
    if found == [] then []
    else
      var last := found[|found| - 1];
      NonTrivial(found[..|found| - 1]) + (if |last| > 1 then [last] else [])
  }

  /** The part of the stack from position `base` on is what carries at least its number. */
  lemma StackFrom(g: Graph, s: Snapshot, stack: seq<Node>, base: nat)
    requires Numbered(g, s) && Stacked(s.indexes, stack, s.onStack) && base < |stack|
    ensures s.From(s.indexes[stack[base]]) == Elems(stack[base..])
    ensures s.onStack - s.From(s.indexes[stack[base]]) == Elems(stack[..base])
  {
    var n := s.indexes[stack[base]];
    forall i | 0 <= i < |stack|
      ensures stack[i] in stack[base..] <==> n <= s.indexes[stack[i]]
      ensures stack[i] in stack[..base] <==> s.indexes[stack[i]] < n
    {
      StackPosition(s.indexes, stack, s.onStack, base, i);
    }
  }

  lemma StackPosition(indexes: map<Node, nat>, stack: seq<Node>, onStack: set<Node>, base: nat, i: nat)
    requires Stacked(indexes, stack, onStack) && base < |stack| && i < |stack|
    ensures stack[i] in stack[base..] <==> indexes[stack[base]] <= indexes[stack[i]]
    ensures stack[i] in stack[..base] <==> indexes[stack[i]] < indexes[stack[base]]
  {
    if base <= i {
      assert stack[base..][i - base] == stack[i];
    } else {
      assert stack[..base][i] == stack[i];
    }
  }

  lemma StackDistinct(indexes: map<Node, nat>, stack: seq<Node>, onStack: set<Node>, base: nat)
    requires Stacked(indexes, stack, onStack) && base <= |stack|
    ensures Distinct(stack[base..])
  {
    forall i, j | 0 <= i < j < |stack[base..]|
      ensures stack[base..][i] != stack[base..][j]
    {
      assert indexes[stack[base + i]] < indexes[stack[base + j]];
    }
  }

  lemma CutStacked(indexes: map<Node, nat>, stack: seq<Node>, onStack: set<Node>, base: nat)
    requires Stacked(indexes, stack, onStack) && base <= |stack|
    ensures Stacked(indexes, stack[..base], Elems(stack[..base]))
  {
  }

  lemma StackInjective(indexes: map<Node, nat>, order: seq<Node>, v: Node)
    requires Counted(indexes, order) && v in indexes
    ensures forall x :: x in indexes && indexes[x] == indexes[v] ==> x == v
  {
  }

  /** Later states keep what was numbered, and number further nodes from `n` up. */
  ghost predicate Grows(s: Snapshot, n: nat, t: Snapshot, m: nat) {
    && Extends(s, t)
    && n <= m
    && forall x :: x in t.indexes && x !in s.indexes ==> n <= t.indexes[x]
  }

  lemma CutGrows(g: Graph, s: Snapshot, n: nat, t: Snapshot, v: Node, m: nat, c: seq<Node>)
    requires Numbered(g, t) && Grows(s, n, t, m) && v in t.onStack && t.indexes[v] == n
    requires forall x :: x in s.indexes ==> s.indexes[x] < n
    ensures Grows(s, n, Cut(t, v, c), m)
  {
  }

  lemma CutLowLink(g: Graph, s: Snapshot, v: Node, c: seq<Node>)
    requires Numbered(g, s) && v in s.onStack && LowLink(g, s, v, s.indexes[v])
    ensures LowLink(g, Cut(s, v, c), v, s.indexes[v])
  {
  }

  lemma ReachThrough(g: Graph, gray: set<Node>, v: Node, w: Node)
    requires v in g && w in g && w in g[v]
    requires AllReach(g, gray, v)
    ensures AllReach(g, gray + {v}, w)
  {
    ReachEdge(g, v, w);
    forall x | x in gray
      ensures Reach(g, x, w)
    {
      ReachTrans(g, x, v, w);
    }
  }

  lemma PopOne(indexes: map<Node, nat>, all: seq<Node>, stack: seq<Node>)
    requires Stacked(indexes, all, Elems(all))
    requires 0 < |stack| <= |all| && stack == all[..|stack|]
    ensures Elems(stack[..|stack| - 1]) == Elems(stack) - {stack[|stack| - 1]}
    ensures all[|stack| - 1..] == [stack[|stack| - 1]] + all[|stack|..]
  {
    var last := |stack| - 1;
    assert stack == stack[..last] + [stack[last]];
    assert forall i :: 0 <= i < last ==> all[i] != all[last];
  }

  lemma SortedComponent(component: seq<Node>, segment: seq<Node>)
    requires multiset(component) == multiset(segment) && Distinct(segment)
    ensures Sorted(Sort(component, StringLeq), StringLeq)
    ensures Distinct(Sort(component, StringLeq))
    ensures Elems(Sort(component, StringLeq)) == Elems(segment)
  {
    StringOrder();
    SortSorted(component, StringLeq);
    SortPermutation(component, segment, StringLeq);
    SortDistinct(segment, StringLeq);
    SortElems(segment, StringLeq);
  }

  // The detector's variables as one value ------------------------------------

  /** All variables of the closure, with the numbering order and every popped component kept for the proof. */
  datatype Memory = Memory(
    index: nat, indexes: map<Node, nat>, low: map<Node, nat>, stack: seq<Node>, onStack: set<Node>,
    result: seq<seq<Node>>, order: seq<Node>, found: seq<seq<Node>>)
  {
    ghost function View(): Snapshot {
      Snapshot(indexes, onStack, found)
    }
  }

  ghost predicate Keyed(g: Graph, m: Memory) {
    m.low.Keys == m.indexes.Keys && m.onStack <= m.indexes.Keys && m.indexes.Keys <= g.Keys
  }

  ghost predicate Tidy(m: Memory) {
    && Stacked(m.indexes, m.stack, m.onStack)
    && Counted(m.indexes, m.order) && m.index == |m.order|
    && m.result == NonTrivial(m.found)
  }

  ghost predicate Valid(g: Graph, m: Memory, gray: set<Node>) {
    && Closed(g)
    && Keyed(g, m)
    && Invariant(g, m.View(), gray)
    && Tidy(m)
  }

  ghost predicate Scans(g: Graph, m: Memory, v: Node, seen: set<Node>) {
    && v in g && seen <= g[v]
    && Keyed(g, m) && v in m.low
    && Scanning(g, m.View(), v, seen, m.low[v])
  }

  /** `m` comes after `l`: numbers and low-links of earlier nodes stand, except that of `v`. */
  ghost predicate After(l: Memory, m: Memory, v: Node) {
    && Grows(l.View(), l.index, m.View(), m.index)
    && (forall x :: x in l.low && x != v ==> x in m.low && m.low[x] == l.low[x])
    && l.stack <= m.stack
  }

  /** The visit of `v` that began in `l` returned in `m`. */
  ghost predicate Visited(g: Graph, l: Memory, m: Memory, v: Node) {
    && Keyed(g, m)
    && After(l, m, v) && v !in l.low
    && v in m.low && m.indexes[v] == l.index
    && LowLink(g, m.View(), v, m.low[v])
  }

  /** Holds of every value; mentioning it is what lets the verifier look inside the sealed predicates. */
  ghost predicate Opened(m: Memory) {
    true
  }

  // The methods carry these from step to step without looking inside; each
  // equals the predicate it seals.
  ghost predicate SealedValid(g: Graph, m: Memory, gray: set<Node>) {
    forall k {:trigger Opened(k)} :: Opened(k) && k == m ==> Valid(g, k, gray)
  }

  ghost predicate SealedScans(g: Graph, m: Memory, v: Node, seen: set<Node>) {
    forall k {:trigger Opened(k)} :: Opened(k) && k == m ==> Scans(g, k, v, seen)
  }

  ghost predicate SealedAfter(l: Memory, m: Memory, v: Node) {
    forall k {:trigger Opened(k)} :: Opened(k) && k == m ==> After(l, k, v)
  }

  ghost predicate SealedVisited(g: Graph, l: Memory, m: Memory, v: Node) {
    forall k {:trigger Opened(k)} :: Opened(k) && k == m ==> Visited(g, l, k, v)
  }

  lemma OpenValid(g: Graph, m: Memory, gray: set<Node>)
    ensures SealedValid(g, m, gray) <==> Valid(g, m, gray)
  {
    assert Opened(m);
  }

  lemma OpenScans(g: Graph, m: Memory, v: Node, seen: set<Node>)
    ensures SealedScans(g, m, v, seen) <==> Scans(g, m, v, seen)
  {
    assert Opened(m);
  }

  lemma OpenAfter(l: Memory, m: Memory, v: Node)
    ensures SealedAfter(l, m, v) <==> After(l, m, v)
  {
    assert Opened(m);
  }

  lemma OpenVisited(g: Graph, l: Memory, m: Memory, v: Node)
    ensures SealedVisited(g, l, m, v) <==> Visited(g, l, m, v)
  {
    assert Opened(m);
  }

  ghost predicate AllReach(g: Graph, gray: set<Node>, v: Node) {
    forall x :: x in gray ==> Reach(g, x, v)
  }

  ghost function Entered(m: Memory, v: Node): Memory {
    m.(indexes := m.indexes[v := m.index], low := m.low[v := m.index], index := m.index + 1,
       stack := m.stack + [v], onStack := m.onStack + {v}, order := m.order + [v])
  }

  lemma EnterTidy(m: Memory, v: Node)
    requires Tidy(m) && v !in m.indexes
    ensures Tidy(Entered(m, v))
  {
    PushStacked(m.indexes, m.stack, m.onStack, m.order, v);
  }

  lemma EnterValid(g: Graph, m: Memory, gray: set<Node>, v: Node)
    requires Valid(g, m, gray) && v in g && v !in m.indexes && AllReach(g, gray, v)
    ensures Valid(g, Entered(m, v), gray + {v})
  {
    Push(g, m.View(), gray, v, m.index);
    EnterTidy(m, v);
    assert Entered(m, v).View() == Pushed(m.View(), v, m.index);
  }

  /** Whatever follows the entry of `v`, its number and its place on the stack stand. */
  lemma EnteredPlace(g: Graph, k: Memory, m: Memory, v: Node)
    requires Keyed(g, k) && v !in k.indexes && SealedAfter(Entered(k, v), m, v)
    ensures SealedAfter(k, m, v)
    ensures v in m.indexes && m.indexes[v] == k.index
    ensures |k.stack| < |m.stack| && m.stack[|k.stack|] == v
    ensures k.stack <= m.stack
  {
    OpenAfter(Entered(k, v), m, v);
    AfterTrans(k, Entered(k, v), m, v);
    OpenAfter(k, m, v);
    assert Entered(k, v).stack[|k.stack|] == v;
  }

  lemma ValidFacts(g: Graph, m: Memory, gray: set<Node>)
    requires SealedValid(g, m, gray)
    ensures Keyed(g, m) && gray <= m.onStack
  {
    OpenValid(g, m, gray);
  }

  lemma ValidStacked(g: Graph, m: Memory, gray: set<Node>)
    requires SealedValid(g, m, gray)
    ensures Stacked(m.indexes, m.stack, m.onStack)
  {
    OpenValid(g, m, gray);
  }

  lemma EnterStep(g: Graph, m: Memory, gray: set<Node>, v: Node)
    requires SealedValid(g, m, gray) && Keyed(g, m) && v in g && v !in m.indexes && AllReach(g, gray, v)
    ensures SealedValid(g, Entered(m, v), gray + {v})
    ensures SealedScans(g, Entered(m, v), v, {})
    ensures SealedAfter(Entered(m, v), Entered(m, v), v)
  {
    OpenValid(g, m, gray);
    EnterValid(g, m, gray, v);
    OpenValid(g, Entered(m, v), gray + {v});
    OpenScans(g, Entered(m, v), v, {});
    OpenAfter(Entered(m, v), Entered(m, v), v);
  }

  lemma AfterTrans(k: Memory, l: Memory, m: Memory, v: Node)
    requires After(k, l, v) && After(l, m, v)
    ensures After(k, m, v)
  {
  }

  lemma AfterStep(k: Memory, l: Memory, m: Memory, v: Node)
    requires SealedAfter(k, l, v) && SealedAfter(l, m, v)
    ensures SealedAfter(k, m, v)
  {
    OpenAfter(k, l, v);
    OpenAfter(l, m, v);
    AfterTrans(k, l, m, v);
    OpenAfter(k, m, v);
  }

  ghost function Lowered(m: Memory, v: Node, l: nat): Memory {
    m.(low := m.low[v := l])
  }

  /** Changing the low-link of an unfinished node disturbs nothing else. */
  lemma LowerValid(g: Graph, m: Memory, gray: set<Node>, v: Node, l: nat)
    requires Valid(g, m, gray) && v in m.low
    ensures Valid(g, Lowered(m, v, l), gray)
  {
    assert Lowered(m, v, l).View() == m.View();
  }

  lemma LowerAfter(k: Memory, m: Memory, v: Node, l: nat)
    requires After(k, m, v)
    ensures After(k, Lowered(m, v, l), v)
  {
    assert Lowered(m, v, l).View() == m.View();
  }

  lemma VisitedScans(g: Graph, k: Memory, m: Memory, gray: set<Node>, v: Node, seen: set<Node>, w: Node)
    requires Keyed(g, k) && Tidy(k) && Scans(g, k, v, seen)
    requires w in g && w in g[v] && w !in k.indexes && Visited(g, k, m, w)
    ensures v in m.low && m.low[v] == k.low[v]
    ensures Scans(g, Lowered(m, v, Min(m.low[v], m.low[w])), v, seen + {w})
  {
    assert v in k.low && v != w;
    ScanVisited(g, k.View(), m.View(), v, seen, k.low[v], w, m.low[w]);
    assert Lowered(m, v, Min(m.low[v], m.low[w])).View() == m.View();
  }

  lemma VisitedAfter(k: Memory, m: Memory, v: Node, w: Node)
    requires After(k, m, w) && w !in k.low
    ensures After(k, m, v)
  {
  }

  /** The successor was visited: its low-link is taken over. */
  lemma VisitedStep(g: Graph, k: Memory, m: Memory, gray: set<Node>, v: Node, seen: set<Node>, w: Node)
    requires SealedValid(g, k, gray) && SealedScans(g, k, v, seen)
    requires v in g && w in g && w in g[v] && w !in k.indexes
    requires SealedVisited(g, k, m, w) && SealedValid(g, m, gray)
    ensures v in m.low && w in m.low
    ensures SealedValid(g, Lowered(m, v, Min(m.low[v], m.low[w])), gray)
    ensures SealedScans(g, Lowered(m, v, Min(m.low[v], m.low[w])), v, seen + {w})
    ensures SealedAfter(k, Lowered(m, v, Min(m.low[v], m.low[w])), v)
  {
    OpenValid(g, k, gray);
    OpenScans(g, k, v, seen);
    OpenVisited(g, k, m, w);
    OpenValid(g, m, gray);
    VisitedScans(g, k, m, gray, v, seen, w);
    var l := Min(m.low[v], m.low[w]);
    LowerValid(g, m, gray, v, l);
    VisitedAfter(k, m, v, w);
    LowerAfter(k, m, v, l);
    OpenValid(g, Lowered(m, v, l), gray);
    OpenScans(g, Lowered(m, v, l), v, seen + {w});
    OpenAfter(k, Lowered(m, v, l), v);
  }

  lemma OnStackScans(g: Graph, m: Memory, v: Node, seen: set<Node>, w: Node)
    requires Keyed(g, m) && Scans(g, m, v, seen)
    requires w in g && w in g[v] && w in m.onStack
    ensures Scans(g, Lowered(m, v, Min(m.low[v], m.indexes[w])), v, seen + {w})
  {
    ScanOnStack(g, m.View(), v, seen, m.low[v], w);
    assert Lowered(m, v, Min(m.low[v], m.indexes[w])).View() == m.View();
  }

  /** The successor is on the stack: its number is taken over. */
  lemma OnStackStep(g: Graph, m: Memory, gray: set<Node>, v: Node, seen: set<Node>, w: Node)
    requires SealedValid(g, m, gray) && SealedScans(g, m, v, seen)
    requires v in m.low && v in g && w in g && w in g[v] && w in m.onStack && w in m.indexes
    ensures SealedValid(g, Lowered(m, v, Min(m.low[v], m.indexes[w])), gray)
    ensures SealedScans(g, Lowered(m, v, Min(m.low[v], m.indexes[w])), v, seen + {w})
    ensures SealedAfter(m, Lowered(m, v, Min(m.low[v], m.indexes[w])), v)
  {
    OpenValid(g, m, gray);
    OpenScans(g, m, v, seen);
    OnStackScans(g, m, v, seen, w);
    var l := Min(m.low[v], m.indexes[w]);
    LowerValid(g, m, gray, v, l);
    assert After(m, m, v);
    LowerAfter(m, m, v, l);
    OpenValid(g, Lowered(m, v, l), gray);
    OpenScans(g, Lowered(m, v, l), v, seen + {w});
    OpenAfter(m, Lowered(m, v, l), v);
  }

  /** The successor is already in a component: nothing changes. */
  lemma SkipStep(g: Graph, m: Memory, v: Node, seen: set<Node>, w: Node)
    requires SealedScans(g, m, v, seen)
    requires v in g && w in g[v] && w in m.indexes && w !in m.onStack
    ensures SealedScans(g, m, v, seen + {w})
    ensures SealedAfter(m, m, v)
  {
    OpenScans(g, m, v, seen);
    OpenScans(g, m, v, seen + {w});
    OpenAfter(m, m, v);
  }

  lemma ScannedVisited(g: Graph, k: Memory, m: Memory, v: Node)
    requires v in g && Keyed(g, k) && Tidy(m) && Scans(g, m, v, g[v]) && After(k, m, v)
    requires v !in k.indexes && m.indexes[v] == k.index
    ensures Visited(g, k, m, v)
  {
    StackInjective(m.indexes, m.order, v);
    ScanLowLink(g, m.View(), v, m.low[v]);
  }

  /** The low-link of `v` lies below its number: the visit returns and `v` stays on the stack. */
  lemma ReturnStep(g: Graph, k: Memory, m: Memory, gray: set<Node>, v: Node)
    requires Keyed(g, k) && v in g && v !in k.indexes && v in m.indexes && v in m.low
    requires SealedValid(g, m, gray + {v}) && SealedScans(g, m, v, g[v]) && SealedAfter(k, m, v)
    requires m.indexes[v] == k.index && m.low[v] != m.indexes[v]
    ensures SealedValid(g, m, gray)
    ensures SealedVisited(g, k, m, v)
  {
    OpenValid(g, m, gray + {v});
    OpenScans(g, m, v, g[v]);
    OpenAfter(k, m, v);
    Return(g, m.View(), gray, v, m.low[v]);
    ScannedVisited(g, k, m, v);
    OpenValid(g, m, gray);
    OpenVisited(g, k, m, v);
  }

  /** The segment from position `base` on becomes the component `c`. */
  ghost function Left(m: Memory, base: nat, c: seq<Node>): Memory
    requires base <= |m.stack|
  {
    m.(stack := m.stack[..base], onStack := Elems(m.stack[..base]), found := m.found + [c],
       result := m.result + (if |c| > 1 then [c] else []))
  }

  lemma LeftView(g: Graph, m: Memory, base: nat, c: seq<Node>)
    requires Keyed(g, m) && Tidy(m) && base < |m.stack|
    ensures Left(m, base, c).View() == Cut(m.View(), m.stack[base], c)
  {
    StackFrom(g, m.View(), m.stack, base);
  }

  lemma LeaveTidy(m: Memory, base: nat, c: seq<Node>)
    requires Tidy(m) && base < |m.stack|
    ensures Tidy(Left(m, base, c))
  {
    CutStacked(m.indexes, m.stack, m.onStack, base);
  }

  lemma LeaveValid(g: Graph, m: Memory, gray: set<Node>, base: nat, v: Node, component: seq<Node>)
    requires Valid(g, m, gray + {v}) && Scans(g, m, v, g[v]) && m.low[v] == m.indexes[v]
    requires forall x :: x in gray ==> m.indexes[x] < m.indexes[v]
    requires base < |m.stack| && m.stack[base] == v
    requires multiset(component) == multiset(m.stack[base..])
    ensures Valid(g, Left(m, base, Sort(component, StringLeq)), gray)
  {
    var c := Sort(component, StringLeq);
    StackFrom(g, m.View(), m.stack, base);
    StackDistinct(m.indexes, m.stack, m.onStack, base);
    StackInjective(m.indexes, m.order, v);
    SortedComponent(component, m.stack[base..]);
    Pop(g, m.View(), gray, v, c);
    LeaveTidy(m, base, c);
    LeftView(g, m, base, c);
  }

  lemma LeaveVisited(g: Graph, k: Memory, m: Memory, v: Node, c: seq<Node>)
    requires Keyed(g, k) && Tidy(k) && Keyed(g, m) && Tidy(m)
    requires Visited(g, k, m, v) && v in m.onStack && m.low[v] == m.indexes[v]
    requires |k.stack| < |m.stack| && m.stack[|k.stack|] == v
    ensures Visited(g, k, Left(m, |k.stack|, c), v)
  {
    LeftView(g, m, |k.stack|, c);
    CutGrows(g, k.View(), k.index, m.View(), v, m.index, c);
    CutLowLink(g, m.View(), v, c);
  }

  /** The low-link of `v` is its own number: the stack from `v` on is popped as a component. */
  lemma LeaveStep(g: Graph, k: Memory, m: Memory, gray: set<Node>, v: Node, component: seq<Node>, c: seq<Node>)
    requires Keyed(g, k) && gray <= k.onStack && v in g && v !in k.indexes && v in m.indexes && v in m.low
    requires SealedValid(g, k, gray)
    requires SealedValid(g, m, gray + {v}) && SealedScans(g, m, v, g[v]) && SealedAfter(k, m, v)
    requires m.indexes[v] == k.index && m.low[v] == m.indexes[v]
    requires |k.stack| < |m.stack| && m.stack[|k.stack|] == v
    requires multiset(component) == multiset(m.stack[|k.stack|..]) && c == Sort(component, StringLeq)
    ensures SealedValid(g, Left(m, |k.stack|, c), gray)
    ensures SealedVisited(g, k, Left(m, |k.stack|, c), v)
    ensures Keyed(g, Left(m, |k.stack|, c)) && gray <= Left(m, |k.stack|, c).onStack
  {
    OpenValid(g, k, gray);
    OpenValid(g, m, gray + {v});
    OpenScans(g, m, v, g[v]);
    OpenAfter(k, m, v);
    assert forall x :: x in gray ==> m.indexes[x] < m.indexes[v];
    LeaveValid(g, m, gray, |k.stack|, v, component);
    ScannedVisited(g, k, m, v);
    LeaveVisited(g, k, m, v, c);
    OpenValid(g, Left(m, |k.stack|, c), gray);
    ValidFacts(g, Left(m, |k.stack|, c), gray);
    OpenVisited(g, k, Left(m, |k.stack|, c), v);
  }

  // The algorithm ----------------------------------------------------------------

  class Detector {
    const graph: Graph
    var index: nat
    var indexes: map<Node, nat>
    var low: map<Node, nat>
    var stack: seq<Node>
    var onStack: set<Node>
    var result: seq<seq<Node>>
    ghost var order: seq<Node>
    ghost var found: seq<seq<Node>>

    ghost function Now(): Memory
      reads this
    {
      Memory(index, indexes, low, stack, onStack, result, order, found)
    }

    constructor (g: Graph)
      requires Closed(g)
      ensures graph == g && Keyed(g, Now()) && SealedValid(g, Now(), {}) && stack == [] && onStack == {}
    {
      graph := g;
      index, indexes, low, stack, onStack, result := 0, map[], map[], [], {}, [];
      order, found := [], [];
    }

    method Visit(node: Node, ghost gray: set<Node>)
      requires Keyed(graph, Now()) && SealedValid(graph, Now(), gray) && gray <= onStack
      requires node in graph && node !in indexes && AllReach(graph, gray, node) && Closed(graph)
      modifies this
      ensures Keyed(graph, Now()) && SealedValid(graph, Now(), gray)
      ensures SealedVisited(graph, old(Now()), Now(), node)
      ensures old(indexes).Keys + {node} <= indexes.Keys && gray <= onStack
      decreases graph.Keys - indexes.Keys, 0
    {
      ghost var start := Now();
      EnterStep(graph, start, gray, node);
      indexes := indexes[node := index];
      low := low[node := index];
      index := index + 1;
      stack := stack + [node];
      onStack := onStack + {node};
      order := order + [node];
      ghost var entered := Entered(start, node);
      assert Now() == entered;
      var rest := graph[node];
      ghost var seen: set<Node> := {};
      while rest != {}
        invariant seen + rest == graph[node]
        invariant Keyed(graph, Now()) && SealedValid(graph, Now(), gray + {node})
        invariant SealedScans(graph, Now(), node, seen)
        invariant SealedAfter(entered, Now(), node)
        invariant start.indexes.Keys + {node} <= indexes.Keys && gray + {node} <= onStack
        decreases rest
      {
        var target :| target in rest;
        ghost var turn := Now();
        Scan(node, target, gray, seen);
        AfterStep(entered, turn, Now(), node);
        rest := rest - {target};
        seen := seen + {target};
      }
      assert seen == graph[node];
      EnteredPlace(graph, start, Now(), node);
      if low[node] != indexes[node] {
        ReturnStep(graph, start, Now(), gray, node);
        ValidFacts(graph, Now(), gray);
        return;
      }
      ghost var full := Now();
      ValidStacked(graph, full, gray + {node});
      var component := PopComponent(node, |start.stack|);
      LeaveStep(graph, start, full, gray, node, component, Sort(component, StringLeq));
    }

    /** One successor: visit it, or take its number if it is on the stack. */
    method Scan(node: Node, target: Node, ghost gray: set<Node>, ghost seen: set<Node>)
      requires Closed(graph) && node in graph && target in graph[node] && AllReach(graph, gray, node)
      requires Keyed(graph, Now()) && SealedValid(graph, Now(), gray + {node}) && gray + {node} <= onStack
      requires SealedScans(graph, Now(), node, seen)
      modifies this
      ensures Keyed(graph, Now()) && SealedValid(graph, Now(), gray + {node}) && gray + {node} <= onStack
      ensures SealedScans(graph, Now(), node, seen + {target})
      ensures SealedAfter(old(Now()), Now(), node)
      ensures old(indexes).Keys <= indexes.Keys
      decreases graph.Keys - indexes.Keys, 1
    {
      ghost var turn := Now();
      if target !in indexes {
        ReachThrough(graph, gray, node, target);
        Visit(target, gray + {node});
        VisitedStep(graph, turn, Now(), gray + {node}, node, seen, target);
        low := low[node := Min(low[node], low[target])];
      } else if target in onStack {
        OnStackStep(graph, turn, gray + {node}, node, seen, target);
        low := low[node := Min(low[node], indexes[target])];
      } else {
        SkipStep(graph, turn, node, seen, target);
      }
    }

    /** The stack is popped down to `node`. */
    method Unwind(node: Node, ghost base: nat) returns (component: seq<Node>)
      requires Stacked(indexes, stack, onStack)
      requires base < |stack| && stack[base] == node
      modifies this`stack, this`onStack
      ensures stack == old(stack)[..base] && onStack == Elems(stack)
      ensures multiset(component) == multiset(old(stack)[base..])
    {
      ghost var all := stack;
      component := [];
      while true
        invariant base < |stack| <= |all| && stack == all[..|stack|]
        invariant onStack == Elems(stack)
        invariant multiset(component) == multiset(all[|stack|..])
        decreases |stack|
      {
        var target := stack[|stack| - 1];
        PopOne(indexes, all, stack);
        stack := stack[..|stack| - 1];
        onStack := onStack - {target};
        component := component + [target];
        if target == node {
          break;
        }
      }
    }

    /** What comes off the stack is recorded, sorted, if it has two nodes or more. */
    method PopComponent(node: Node, ghost base: nat) returns (component: seq<Node>)
      requires Stacked(indexes, stack, onStack)
      requires base < |stack| && stack[base] == node
      modifies this
      ensures multiset(component) == multiset(old(stack)[base..])
      ensures Now() == Left(old(Now()), base, Sort(component, StringLeq))
    {
      component := Unwind(node, base);
      var sorted := Sort(component, StringLeq);
      found := found + [sorted];
      if |component| > 1 {
        result := result + [sorted];
      }
      assert result == old(result) + (if |sorted| > 1 then [sorted] else []);
    }
  }

  // The report ---------------------------------------------------------------------

  /** `r` lists exactly the components of `g` with more than one node, each once, all in sorted order. */
  ghost predicate Report(g: Graph, r: seq<seq<Node>>) {
    && Sorted(r, ListLeq)
    && (forall k :: 0 <= k < |r| ==> |r[k]| > 1 && ListsComponent(g, r[k]))
    && (forall j, k :: 0 <= j < k < |r| ==> Elems(r[j]) !! Elems(r[k]))
    && (forall c :: IsComponent(g, c) && |c| > 1 ==> Reports(r, c))
  }

  ghost predicate Reports(r: seq<seq<Node>>, c: set<Node>) {
    exists k :: 0 <= k < |r| && Elems(r[k]) == c
  }

  lemma {:induction false} NonTrivialElems(found: seq<seq<Node>>)
    ensures forall c :: c in NonTrivial(found) <==> c in found && |c| > 1
  {
    if found != [] {
      var n := |found| - 1;
      NonTrivialElems(found[..n]);
      assert found == found[..n] + [found[n]];
    }
  }

  lemma {:induction false} NonTrivialDistinct(found: seq<seq<Node>>)
    requires forall j, k :: 0 <= j < k < |found| ==> Elems(found[j]) !! Elems(found[k])
    ensures Distinct(NonTrivial(found))
  {
    if found != [] {
      var n := |found| - 1;
      var init := found[..n];
      NonTrivialDistinct(init);
      NonTrivialElems(init);
      forall j | 0 <= j < n && |found[n]| > 1
        ensures init[j] != found[n]
      {
        assert found[n][0] in Elems(found[n]);
      }
    }
  }

  lemma FinishMembers(g: Graph, m: Memory, r: seq<seq<Node>>)
    requires m.result == NonTrivial(m.found) && Genuine(g, m.found) && r == Sort(m.result, ListLeq)
    ensures forall k :: 0 <= k < |r| ==> |r[k]| > 1 && ListsComponent(g, r[k]) && r[k] in m.found
  {
    SortElems(m.result, ListLeq);
    NonTrivialElems(m.found);
    forall k | 0 <= k < |r|
      ensures |r[k]| > 1 && ListsComponent(g, r[k]) && r[k] in m.found
    {
      assert r[k] in Elems(r) && r[k] in Elems(m.result);
      var i :| 0 <= i < |m.found| && m.found[i] == r[k];
      assert ListsComponent(g, m.found[i]);
    }
  }

  lemma FinishDisjoint(m: Memory, r: seq<seq<Node>>)
    requires m.result == NonTrivial(m.found) && r == Sort(m.result, ListLeq)
    requires forall j, k :: 0 <= j < k < |m.found| ==> Elems(m.found[j]) !! Elems(m.found[k])
    requires forall k :: 0 <= k < |r| ==> r[k] in m.found
    ensures forall j, k :: 0 <= j < k < |r| ==> Elems(r[j]) !! Elems(r[k])
  {
    NonTrivialDistinct(m.found);
    SortDistinct(m.result, ListLeq);
    ChosenDisjoint(m.found, r);
  }

  /** Different lists chosen among disjoint ones are disjoint. */
  lemma ChosenDisjoint(found: seq<seq<Node>>, r: seq<seq<Node>>)
    requires forall j, k :: 0 <= j < k < |found| ==> Elems(found[j]) !! Elems(found[k])
    requires Distinct(r) && forall k :: 0 <= k < |r| ==> r[k] in found
    ensures forall j, k :: 0 <= j < k < |r| ==> Elems(r[j]) !! Elems(r[k])
  {
    forall j, k | 0 <= j < k < |r|
      ensures Elems(r[j]) !! Elems(r[k])
    {
      assert r[j] != r[k];
      var a :| 0 <= a < |found| && found[a] == r[j];
      var b :| 0 <= b < |found| && found[b] == r[k];
    }
  }

  /** A component is found: its nodes are popped once nothing is on the stack. */
  lemma ComponentFound(g: Graph, m: Memory, c: set<Node>) returns (i: nat)
    requires Valid(g, m, {}) && m.indexes.Keys == g.Keys && IsComponent(g, c)
    ensures i < |m.found| && Elems(m.found[i]) == c && |m.found[i]| == |c|
  {
    IdleStackEmpty(g, m.View());
    var x :| x in c;
    assert x in m.View().Popped();
    assert Listed(m.found, x);
    i :| 0 <= i < |m.found| && x in m.found[i];
    assert ListsComponent(g, m.found[i]);
    ComponentsMeet(g, c, Elems(m.found[i]), x);
    DistinctCardinality(m.found[i]);
  }

  lemma FinishComplete(g: Graph, m: Memory, r: seq<seq<Node>>, c: set<Node>)
    requires Valid(g, m, {}) && m.indexes.Keys == g.Keys && r == Sort(m.result, ListLeq)
    requires IsComponent(g, c) && |c| > 1
    ensures Reports(r, c)
  {
    var i := ComponentFound(g, m, c);
    NonTrivialElems(m.found);
    assert m.found[i] in m.result;
    SortElems(m.result, ListLeq);
    assert m.found[i] in Elems(m.result) && m.found[i] in Elems(r);
    var k :| 0 <= k < |r| && r[k] == m.found[i];
  }

  /** With no visit under way nothing is left on the stack. */
  lemma IdleStackEmpty(g: Graph, s: Snapshot)
    requires Invariant(g, s, {})
    ensures s.onStack == {}
  {
    if s.onStack != {} {
      var y :| y in s.onStack;
      var x := AnchorOf(g, s, {}, y);
    }
  }

  lemma Finish(g: Graph, m: Memory)
    requires SealedValid(g, m, {}) && m.indexes.Keys == g.Keys
    ensures Report(g, Sort(m.result, ListLeq))
  {
    OpenValid(g, m, {});
    var r := Sort(m.result, ListLeq);
    ListOrder();
    SortSorted(m.result, ListLeq);
    FinishMembers(g, m, r);
    FinishDisjoint(m, r);
    forall c | IsComponent(g, c) && |c| > 1
      ensures Reports(r, c)
    {
      FinishComplete(g, m, r, c);
    }
  }

  /** Between two roots the detector is idle: nothing is on the stack. */
  lemma BetweenRoots(g: Graph, m: Memory)
    requires SealedValid(g, m, {})
    ensures m.stack == [] && m.onStack == {}
  {
    OpenValid(g, m, {});
    IdleStackEmpty(g, m.View());
    ElemsEmpty(m.stack);
  }

  /** The same lists of nodes, sorted and without repeats, are the same list. */
  lemma SameComponentList(a: seq<Node>, b: seq<Node>)
    requires Distinct(a) && Sorted(a, StringLeq) && Distinct(b) && Sorted(b, StringLeq)
    requires Elems(a) == Elems(b)
    ensures a == b
  {
    StringOrder();
    DistinctMultiset(a);
    DistinctMultiset(b);
    SortUnique(a, b, StringLeq);
  }

  lemma ReportIncluded(g: Graph, r: seq<seq<Node>>, t: seq<seq<Node>>)
    requires Report(g, r) && Report(g, t)
    ensures Elems(r) <= Elems(t)
  {
    forall c | c in r
      ensures c in t
    {
      var k :| 0 <= k < |r| && r[k] == c;
      DistinctCardinality(c);
      assert Reports(t, Elems(c));
      var i :| 0 <= i < |t| && Elems(t[i]) == Elems(c);
      SameComponentList(t[i], c);
    }
  }

  /** A graph has one report: the order in which the sets are walked does not show. */
  lemma ReportUnique(g: Graph, r: seq<seq<Node>>, t: seq<seq<Node>>)
    requires Report(g, r) && Report(g, t)
    ensures r == t
  {
    ReportIncluded(g, r, t);
    ReportIncluded(g, t, r);
    DistinctMultiset(r);
    DistinctMultiset(t);
    ListOrder();
    SortUnique(r, t, ListLeq);
  }

  method Roots(g: Graph) returns (roots: seq<Node>)
    ensures Elems(roots) == g.Keys && Sorted(roots, StringLeq)
  {
    roots := SortStrings(g.Keys);
  }

  /** The import cycles: every strongly connected component with more than one module. */
  method StronglyConnected(graph: Graph) returns (r: seq<seq<Node>>)
    requires Closed(graph)
    ensures Report(graph, r)
  {
    var d := new Detector(graph);
    var roots := Roots(graph);
    for i := 0 to |roots|
      invariant Keyed(graph, d.Now()) && SealedValid(graph, d.Now(), {})
      invariant d.stack == [] && d.onStack == {}
      invariant d.graph == graph
      invariant forall j :: 0 <= j < i ==> roots[j] in d.indexes
    {
      assert roots[i] in Elems(roots);
      if roots[i] !in d.indexes {
        d.Visit(roots[i], {});
      }
      BetweenRoots(graph, d.Now());
    }
    RootsCover(graph, roots, d.indexes);
    Finish(graph, d.Now());
    r := Sort(d.result, ListLeq);
  }

  lemma RootsCover(g: Graph, roots: seq<Node>, indexes: map<Node, nat>)
    requires Elems(roots) == g.Keys && forall j :: 0 <= j < |roots| ==> roots[j] in indexes
    ensures forall x :: x in g ==> x in indexes
  {
    forall x | x in g
      ensures x in indexes
    {
      assert x in Elems(roots);
    }
  }
}
