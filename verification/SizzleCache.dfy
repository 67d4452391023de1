/** Two memoised searches of a selector engine: the nearest matching ancestor and the position
    among the element children. Both leave marks in the nodes, under the number of the search. */
module SizzleCache {
  import opened Common

  datatype Slot = No | Yes | Found(node: Node)

  /** What a nested search may leave in a node. */
  datatype Mark = Mark(done: int, slot: nat)

  const ELEMENT: int := 1

  /** The property a search follows from node to node. */
  datatype Dir = Parent | Sibling

  class Node {
    var parentNode: Node?
    var previousSibling: Node?
    var childNodes: seq<Node>
    const nodeType: int
    const nodeName: string
    var sizcache: int
    var sizset: nat
    /** 0 while undefined. */
    var nodeIndex: nat

    constructor (nodeType: int, nodeName: string)
      ensures this.nodeType == nodeType && this.nodeName == nodeName
      ensures parentNode == null && previousSibling == null && childNodes == []
      ensures nodeIndex == 0 && sizcache == -1
    {
      this.nodeType, this.nodeName := nodeType, nodeName;
      parentNode, previousSibling, childNodes, sizcache, sizset, nodeIndex := null, null, [], -1, 0, 0;
    }

    function Next(dir: Dir): Node?
      reads this`parentNode, this`previousSibling
    {
      if dir.Parent? then parentNode else previousSibling
    }
  }

  // ----- the search without marks ---------------------------------------------------------------

  /** Where each node leads, and how many steps there are at most from it. */
  datatype Links = Links(next: map<Node, Node?>, depth: map<Node, nat>)

  ghost predicate Acyclic(c: Links) {
    && c.next.Keys == c.depth.Keys
    && forall n | n in c.next && c.next[n] != null :: c.next[n] in c.next && c.depth[c.next[n]] < c.depth[n]
  }

  type Chain = c: Links | Acyclic(c) witness Links(map[], map[])

  /** The chain is what the nodes hold. */
  ghost predicate Follows(c: Chain, dir: Dir)
    reads c.next.Keys`parentNode, c.next.Keys`previousSibling
  {
    forall n | n in c.next :: c.next[n] == n.Next(dir)
  }

  /** The first hit from n on. */
  ghost function Hit(n: Node?, hits: set<Node>, c: Chain): (h: Node?)
    requires n != null ==> n in c.next
    ensures h != null ==> h in c.next && h in hits && n != null && c.depth[h] <= c.depth[n]
    decreases if n == null then 0 else c.depth[n] + 1
  {
    if n == null || n in hits then n else Hit(c.next[n], hits, c)
  }

  /** The search without marks, started at m, comes to n. */
  ghost predicate OnWay(m: Node?, n: Node, hits: set<Node>, c: Chain)
    requires m != null ==> m in c.next
    ensures OnWay(m, n, hits, c) ==> m != null && n in c.next && c.depth[n] <= c.depth[m]
    decreases if m == null then 0 else c.depth[m] + 1
  {
    m != null && (m == n || (m !in hits && OnWay(c.next[m], n, hits, c)))
  }

  lemma {:induction false} WayIsTransitive(m: Node?, x: Node, n: Node, hits: set<Node>, c: Chain)
    requires m != null ==> m in c.next
    requires OnWay(m, x, hits, c) && OnWay(x, n, hits, c)
    ensures OnWay(m, n, hits, c)
    decreases if m == null then 0 else c.depth[m] + 1
  {
    if m != x { WayIsTransitive(c.next[m], x, n, hits, c); }
  }

  /** Everything on the way has the same first hit. */
  lemma {:induction false} SameHitOnWay(m: Node?, n: Node, hits: set<Node>, c: Chain)
    requires m != null ==> m in c.next
    requires OnWay(m, n, hits, c)
    ensures Hit(n, hits, c) == Hit(m, hits, c)
    decreases if m == null then 0 else c.depth[m] + 1
  {
    if m != n { SameHitOnWay(c.next[m], n, hits, c); }
  }

  lemma {:induction false} HitIsOnWay(m: Node?, hits: set<Node>, c: Chain)
    requires m != null ==> m in c.next
    requires Hit(m, hits, c) != null
    ensures OnWay(m, Hit(m, hits, c), hits, c)
    decreases if m == null then 0 else c.depth[m] + 1
  {
    if m !in hits { HitIsOnWay(c.next[m], hits, c); }
  }

  /** The nodes from one to another, each followed by the one it leads to. */
  ghost predicate Leads(path: seq<Node>, from: Node?, to: Node, c: Chain) {
    && path != [] && path[0] == from && path[|path| - 1] == to
    && (forall j | 0 <= j < |path| :: path[j] in c.next)
    && forall j | 0 < j < |path| :: c.next[path[j - 1]] == path[j]
  }

  ghost predicate LeadsFirst(path: seq<Node>, from: Node?, to: Node, hits: set<Node>, c: Chain) {
    Leads(path, from, to, c) && to in hits && forall j | 0 <= j < |path| - 1 :: path[j] !in hits
  }

  /** The first hit is the end of the one path whose other nodes are no hits. */
  lemma {:induction false} FirstHit(n: Node?, hits: set<Node>, c: Chain, h: Node)
    requires n != null ==> n in c.next
    ensures Hit(n, hits, c) == h <==> exists path :: LeadsFirst(path, n, h, hits, c)
    decreases if n == null then 0 else c.depth[n] + 1
  {
    if n == null {
      assert forall path :: !LeadsFirst(path, n, h, hits, c);
    } else if n in hits {
      if n == h { assert LeadsFirst([n], n, h, hits, c); }
    } else {
      FirstHit(c.next[n], hits, c, h);
      if path :| LeadsFirst(path, n, h, hits, c) {
        assert LeadsFirst(path[1..], c.next[n], h, hits, c);
      }
      if path :| LeadsFirst(path, c.next[n], h, hits, c) {
        LongerPath(path, n, h, hits, c);
      }
    }
  }

  lemma LongerPath(path: seq<Node>, n: Node, h: Node, hits: set<Node>, c: Chain)
    requires n in c.next && n !in hits && LeadsFirst(path, c.next[n], h, hits, c)
    ensures LeadsFirst([n] + path, n, h, hits, c)
  {
  }

  // ----- one search over a list of slots ----------------------------------------------------------

  /** Which nodes carry the number of the search, and for which slot. */
  type Marks = map<Node, nat>

  /** Whose marks the nested search of a call overwrites. */
  type Erasure = nat -> set<Node>

  /** What a walk comes to: the marks, its answer, and how many nested searches there have been. */
  datatype Outcome = Outcome(marks: Marks, found: Slot, calls: nat)

  /** The marks, the slots and the calls after some of the slots have been answered. */
  datatype Round = Round(marks: Marks, slots: seq<Slot>, calls: nat)

  /** A search: its direction, whether it leaves marks, what it looks for and how it answers, and
      the slots as they were. */
  datatype Search = Search(dir: Dir, marking: bool, hits: set<Node>, asNode: bool, chain: Chain, starts: seq<Slot>) {

    ghost predicate Valid()
      reads chain.next.Keys`parentNode, chain.next.Keys`previousSibling
    {
      && Follows(chain, dir)
      && forall k | 0 <= k < |starts| && starts[k].Found? :: starts[k].node in chain.next
    }

    ghost predicate Starts(k: int, n: Node) {
      0 <= k < |starts| && starts[k] == Found(n) && n in chain.next
    }

    ghost function Shown(h: Node?): Slot {
      if h == null then No else if asNode then Found(h) else Yes
    }

    /** The first hit after the node of a slot. */
    ghost function After(k: nat): Node?
      requires k < |starts|
    {
      if starts[k].Found? && starts[k].node in chain.next then Hit(chain.next[starts[k].node], hits, chain) else null
    }

    /** What the search without marks makes of a slot. */
    ghost function Answer(k: nat): Slot
      requires k < |starts|
    {
      Shown(After(k))
    }

    /** n is the node of one of the first i slots. */
    ghost predicate Taken(n: Node, i: nat) {
      exists k | 0 <= k < i :: Starts(k, n)
    }

    ghost predicate WayFrom(k: int, n: Node) {
      && 0 <= k < |starts| && starts[k].Found? && starts[k].node in chain.next
      && OnWay(chain.next[starts[k].node], n, hits, chain)
    }

    /** n lies on the way of one of the first i slots. */
    ghost predicate Passed(n: Node, i: nat) {
      exists k | 0 <= k < i :: WayFrom(k, n)
    }

    /** The first hit is the node of an earlier slot, whose mark hides it. */
    ghost predicate Exposed(k: nat)
      requires k < |starts|
    {
      && dir.Sibling? && marking
      && var h := After(k); h != null && h.nodeType == ELEMENT && Taken(h, k)
    }

    /** Exposed, and no mark of an earlier slot lies in between. */
    ghost predicate Blind(k: nat)
      requires k < |starts|
    {
      && Exposed(k)
      && forall n | n in chain.next && WayFrom(k, n) && n != After(k) && n.nodeType == ELEMENT :: !Taken(n, k) && !Passed(n, k)
    }

    ghost function MarksOf(doneName: int): Marks
      reads chain.next.Keys`sizcache, chain.next.Keys`sizset
    {
      map n | n in chain.next && n.sizcache == doneName :: n.sizset
    }

    /** Marks point to earlier slots, which hold the answer from the marked node on; from the node
        after it, where it is the node of that slot. */
    ghost predicate Right(m: Marks, slots: seq<Slot>, i: nat) {
      forall n | n in m :: MarkRight(n, m[n], slots, i)
    }

    ghost predicate MarkRight(n: Node, k: nat, slots: seq<Slot>, i: nat) {
      && n in chain.next && n.nodeType == ELEMENT && k < i && k < |slots| && k < |starts| && starts[k].Found? && marking
      && (Starts(k, n) ==> dir.Sibling?)
      && slots[k] == Shown(Hit(if Starts(k, n) then chain.next[n] else n, hits, chain))
    }

    /** In the sibling direction the marks are exactly on the nodes and on the ways of the
        earlier slots, and the node of a slot is marked as such. */
    ghost predicate Covering(m: Marks, i: nat) {
      dir.Sibling? && marking ==>
        && (forall n | n in chain.next :: n in m <==> n.nodeType == ELEMENT && (Taken(n, i) || Passed(n, i)))
        && (forall n | n in m && Taken(n, i) :: Starts(m[n], n))
    }

    /** The marks once the node of slot i has got its own. */
    ghost function Opened(m: Marks, i: nat): Marks
      requires i < |starts| && starts[i].Found?
    {
      if dir.Sibling? && marking && starts[i].node.nodeType == ELEMENT then m[starts[i].node := i] else m
    }

    ghost function Trace(nodes: set<Node>, i: nat): Marks {
      map n | n in nodes && marking && n.nodeType == ELEMENT :: i
    }

    /** The walk for slot i left marks on these nodes and stopped at a mark, at a hit or at the end. */
    ghost predicate Walked(m: Marks, m': Marks, slots: seq<Slot>, i: nat, found: Slot, passed: set<Node>, stop: Node?)
      requires i < |starts| && starts[i].Found?
    {
      && Passing(Opened(m, i), i, passed, stop)
      && m' == Opened(m, i) + Trace(if stop == null || stop in Opened(m, i) then passed else passed + {stop}, i)
      && if stop == null then found == No
         else if stop in Opened(m, i) then Opened(m, i)[stop] < |slots| && found == slots[Opened(m, i)[stop]]
         else stop in hits && found == Shown(stop)
    }

    /** Different hits are told apart, or there is only one. */
    ghost predicate Telling() {
      asNode || forall x, y | x in hits && y in hits :: x == y
    }

    ghost predicate InChain() {
      forall k | 0 <= k < |starts| && starts[k].Found? :: starts[k].node in chain.next
    }

    /** The marks once node n has been visited: its own is set, and then a nested search
        overwrites some. */
    ghost function Visited(m: Marks, i: nat, n: Node, calls: nat, er: Erasure): Marks {
      if n.nodeType == ELEMENT then m + Trace({n}, i) - er(calls) else m
    }

    /** The walk for slot i from n on. */
    ghost function Walk(m: Marks, slots: seq<Slot>, i: nat, n: Node?, calls: nat, er: Erasure): Outcome
      requires n != null ==> n in chain.next
      decreases if n == null then 0 else chain.depth[n] + 1
    {
      if n == null then Outcome(m, No, calls)
      else if n in m then Outcome(m, if m[n] < |slots| then slots[m[n]] else No, calls)
      else
        var left, now := Visited(m, i, n, calls, er), if n.nodeType == ELEMENT then calls + 1 else calls;
        if n in hits then Outcome(left, Shown(n), now) else Walk(left, slots, i, chain.next[n], now, er)
    }

    /** What becomes of slot k. */
    ghost function Turn(m: Marks, slots: seq<Slot>, k: nat, calls: nat, er: Erasure): Outcome
      requires InChain() && k < |starts|
    {
      if starts[k].Found? then Walk(Opened(m, k), slots, k, chain.next[starts[k].node], calls, er)
      else Outcome(m, No, calls)
    }

    /** The first i slots are answered one after the other. */
    ghost function Rounds(i: nat, er: Erasure): (r: Round)
      requires InChain() && i <= |starts|
      ensures |r.slots| == |starts| && forall k | i <= k < |starts| :: r.slots[k] == starts[k]
    {
      if i == 0 then Round(map[], starts, 0)
      else
        var r := Rounds(i - 1, er);
        var t := Turn(r.marks, r.slots, i - 1, r.calls, er);
        Round(t.marks, r.slots[i - 1 := t.found], t.calls)
    }

    /** The walk for slot i has passed these nodes and is at n. */
    ghost predicate Passing(m: Marks, i: nat, passed: set<Node>, n: Node?)
      requires i < |starts|
    {
      && (n != null ==> n in chain.next && WayFrom(i, n))
      && After(i) == Hit(n, hits, chain)
      && (forall x | x in chain.next :: WayFrom(i, x) <==> x in passed || OnWay(n, x, hits, chain))
      && (forall x | x in passed :: x in chain.next && x !in hits && x !in m)
      && (n != null ==> forall x | x in passed :: chain.depth[n] < chain.depth[x])
    }
  }

  ghost predicate InRange(m: Marks, i: nat) {
    forall n | n in m :: m[n] < i
  }

  // ----- what one walk achieves --------------------------------------------------------------------

  /** The answer of a walk is right exactly if the slot is not blind. */
  lemma WalkAnswers(s: Search, m: Marks, m': Marks, slots: seq<Slot>, i: nat, found: Slot, passed: set<Node>, stop: Node?)
    requires i < |s.starts| == |slots| && s.starts[i].Found? && s.Telling()
    requires s.Walked(m, m', slots, i, found, passed, stop)
    requires s.Right(m, slots, i) && s.Covering(m, i)
    ensures found == s.Answer(i) <==> !s.Blind(i)
  {
    var h := s.After(i);
    var e := s.starts[i].node;
    if stop == null {
      assert h == null;
    } else {
      assert stop != e;
      if stop in m {
        assert s.MarkRight(stop, m[stop], slots, i);
        if s.Starts(m[stop], stop) && stop in s.hits {
          assert s.Taken(stop, i);
          assert h == stop;
          BlindThere(s, m, i, passed, stop);
        } else {
          if s.dir.Sibling? {
            assert if h == stop then !s.Taken(stop, i) else s.Taken(stop, i) || s.Passed(stop, i);
          }
          assert !s.Blind(i);
        }
      } else {
        assert h == stop;
        assert !s.Blind(i);
      }
    }
  }

  lemma BlindThere(s: Search, m: Marks, i: nat, passed: set<Node>, stop: Node)
    requires i < |s.starts| && s.starts[i].Found? && stop in m && s.dir.Sibling? && s.marking
    requires s.Passing(s.Opened(m, i), i, passed, stop) && s.Covering(m, i)
    requires stop in s.hits && s.Taken(stop, i)
    ensures s.Blind(i)
  {
    assert s.After(i) == stop;
    forall n | s.WayFrom(i, n) && n != stop && n.nodeType == ELEMENT ensures !s.Taken(n, i) && !s.Passed(n, i) {
      assert n in passed;
      assert n !in m;
    }
  }

  /** A right walk leaves marks that are right for the next slot. */
  lemma WalkKeepsRight(s: Search, m: Marks, m': Marks, slots: seq<Slot>, i: nat, found: Slot, passed: set<Node>, stop: Node?)
    requires i < |s.starts| == |slots| && s.starts[i].Found?
    requires s.starts[i].node in s.chain.next
    requires s.Walked(m, m', slots, i, found, passed, stop)
    requires s.Right(m, slots, i) && found == s.Answer(i)
    ensures s.Right(m', slots[i := found], i + 1)
  {
    var e := s.starts[i].node;
    forall n | n in m' ensures s.MarkRight(n, m'[n], slots[i := found], i + 1) {
      if n in s.Trace(passed, i) || (n == stop && n !in s.Opened(m, i)) {
        assert s.WayFrom(i, n) && n != e;
        SameHitOnWay(s.chain.next[e], n, s.hits, s.chain);
      } else if n != e || n !in s.Opened(m, i) || s.Opened(m, i) == m {
        assert s.MarkRight(n, m[n], slots, i);
      }
    }
  }

  lemma WalkKeepsCovering(s: Search, m: Marks, m': Marks, slots: seq<Slot>, i: nat, found: Slot, passed: set<Node>, stop: Node?)
    requires i < |s.starts| == |slots| && s.starts[i].Found? && s.starts[i].node in s.chain.next
    requires s.Walked(m, m', slots, i, found, passed, stop) && s.Covering(m, i)
    ensures s.Covering(m', i + 1)
  {
    if s.dir.Sibling? && s.marking {
      var e := s.starts[i].node;
      forall n | n in s.chain.next
        ensures n in m' <==> n.nodeType == ELEMENT && (s.Taken(n, i + 1) || s.Passed(n, i + 1))
        ensures n in m' && s.Taken(n, i + 1) ==> s.Starts(m'[n], n)
      {
        OneSlotMore(s, i, n);
        if stop != null && stop in s.Opened(m, i) && OnWay(stop, n, s.hits, s.chain) {
          BeyondMark(s, i, stop, n);
        }
      }
    }
  }

  lemma OneSlotMore(s: Search, i: nat, n: Node)
    ensures s.Taken(n, i + 1) <==> s.Taken(n, i) || s.Starts(i, n)
    ensures s.Passed(n, i + 1) <==> s.Passed(n, i) || s.WayFrom(i, n)
  {
  }

  /** What lies beyond a marked node is on the way of an earlier slot. */
  lemma BeyondMark(s: Search, i: nat, stop: Node, n: Node)
    requires stop in s.chain.next && (s.Taken(stop, i) || s.Passed(stop, i)) && OnWay(stop, n, s.hits, s.chain)
    ensures n == stop || s.Passed(n, i)
  {
    if n != stop {
      if s.Taken(stop, i) {
        var k :| 0 <= k < i && s.Starts(k, stop);
        assert s.WayFrom(k, n);
      } else {
        var k :| 0 <= k < i && s.WayFrom(k, stop);
        WayIsTransitive(s.chain.next[s.starts[k].node], stop, n, s.hits, s.chain);
        assert s.WayFrom(k, n);
      }
    }
  }

  /** In slots listed so that whatever lies on the way of one comes in an earlier one, as in
      document order, some slot is blind exactly if the first hit of some slot is the node of
      another. */
  lemma BlindInOrder(s: Search)
    requires s.dir.Sibling? && s.marking
    requires forall i, j :: 0 <= i < |s.starts| && 0 <= j < |s.starts| && s.starts[j].Found? && s.WayFrom(i, s.starts[j].node) ==> j < i
    ensures (exists i :: 0 <= i < |s.starts| && s.Blind(i)) <==>
            exists i :: 0 <= i < |s.starts| && Hidden(s, i)
  {
    if i :| 0 <= i < |s.starts| && s.Blind(i) {
      assert Hidden(s, i);
    }
    if i :| 0 <= i < |s.starts| && Hidden(s, i) {
      var b := FirstHiddenIsBlind(s, i);
    }
  }

  ghost predicate Hidden(s: Search, i: nat)
    requires i < |s.starts|
  {
    var h := s.After(i); h != null && h.nodeType == ELEMENT && s.Taken(h, |s.starts|)
  }

  lemma {:induction false} FirstHiddenIsBlind(s: Search, i: nat) returns (b: nat)
    requires s.dir.Sibling? && s.marking && i < |s.starts| && Hidden(s, i)
    requires forall i, j :: 0 <= i < |s.starts| && 0 <= j < |s.starts| && s.starts[j].Found? && s.WayFrom(i, s.starts[j].node) ==> j < i
    ensures b < |s.starts| && s.Blind(b)
    decreases i
  {
    if s.Blind(i) {
      b := i;
    } else {
      var k := EarlierHidden(s, i);
      b := FirstHiddenIsBlind(s, k);
    }
  }

  lemma EarlierHidden(s: Search, i: nat) returns (k: nat)
    requires i < |s.starts| && Hidden(s, i) && !s.Blind(i)
    requires s.dir.Sibling? && s.marking
    requires forall i, j :: 0 <= i < |s.starts| && 0 <= j < |s.starts| && s.starts[j].Found? && s.WayFrom(i, s.starts[j].node) ==> j < i
    ensures k < i && Hidden(s, k)
  {
    var h := s.After(i);
    HitIsOnWay(s.chain.next[s.starts[i].node], s.hits, s.chain);
    var j :| 0 <= j < |s.starts| && s.Starts(j, h);
    assert s.WayFrom(i, s.starts[j].node);
    assert s.Exposed(i);
    var n :| n in s.chain.next && s.WayFrom(i, n) && n != h && n.nodeType == ELEMENT && (s.Taken(n, i) || s.Passed(n, i));
    SameAfter(s, i, n);
    if s.Taken(n, i) {
      k :| 0 <= k < i && s.Starts(k, n);
    } else {
      k :| 0 <= k < i && s.WayFrom(k, n);
      SameAfter(s, k, n);
    }
  }

  lemma SameAfter(s: Search, k: nat, n: Node)
    requires k < |s.starts| && s.WayFrom(k, n)
    ensures s.After(k) == Hit(n, s.hits, s.chain)
  {
    SameHitOnWay(s.chain.next[s.starts[k].node], n, s.hits, s.chain);
  }

  // ----- the walks ---------------------------------------------------------------------------------

  /** Every mark belongs to a search with a number below next. */
  ghost predicate Below(nodes: set<Node>, next: int)
    reads nodes`sizcache
  {
    forall n | n in nodes :: n.sizcache < next
  }

  /** Marks a node, outside XML. */
  method SetMark(n: Node, doneName: int, i: nat, isXML: bool, ghost s: Search)
    requires n in s.chain.next && s.marking == !isXML
    modifies n`sizcache, n`sizset
    ensures s.MarksOf(doneName) == old(s.MarksOf(doneName)) + s.Trace({n}, i)
    ensures n.sizcache == old(n.sizcache) || n.sizcache == doneName
  {
    if n.nodeType == ELEMENT && !isXML {
      n.sizcache := doneName;
      n.sizset := i;
    }
  }

  /** One slot: marks its node in the sibling direction and walks on until a mark or a hit. */
  method WalkNames(dir: Dir, elem: Node, cur: string, doneName: int, checkSet: array<Slot>, i: nat, isXML: bool, ghost s: Search)
    returns (found: Slot, ghost passed: set<Node>, ghost stop: Node?)
    requires s.Valid() && s.dir == dir && s.marking == !isXML && s.asNode && s.hits == Named(s.chain.next.Keys, cur)
    requires i < |s.starts| && s.starts[i] == Found(elem) && i < checkSet.Length
    requires InRange(s.MarksOf(doneName), i)
    modifies s.chain.next.Keys`sizcache, s.chain.next.Keys`sizset
    ensures s.Walked(old(s.MarksOf(doneName)), s.MarksOf(doneName), checkSet[..], i, found, passed, stop)
    ensures forall n | n in s.chain.next :: n.sizcache == old(n.sizcache) || n.sizcache == doneName
  {
    hide Search.Passing, Search.Trace, Hit, OnWay;
    if dir.Sibling? {
      SetMark(elem, doneName, i, isXML, s);
    }
    ghost var begun := s.Opened(old(s.MarksOf(doneName)), i);
    OpenedIsTraced(s, old(s.MarksOf(doneName)), i);
    var n := elem.Next(dir);
    passed := {};
    WalkBegins(s, begun, i);
    while n != null
      invariant (n != null ==> n in s.chain.next) && s.Passing(begun, i, passed, n)
      invariant s.MarksOf(doneName) == begun + s.Trace(passed, i)
      invariant forall x | x in s.chain.next :: x.sizcache == old(x.sizcache) || x.sizcache == doneName
      decreases if n == null then 0 else s.chain.depth[n] + 1
    {
      NotPassedTwice(s, begun, i, passed, n);
      if n.sizcache == doneName {
        assert n in s.MarksOf(doneName);
        return checkSet[n.sizset], passed, n;
      }
      assert n !in s.MarksOf(doneName);
      SetMark(n, doneName, i, isXML, s);
      TraceGrows(s, begun, passed, n, i);
      if n.nodeName == cur {
        return Found(n), passed, n;
      }
      WalkGoesOn(s, begun, i, passed, n);
      passed := passed + {n};
      n := n.Next(dir);
    }
    return No, passed, null;
  }

  lemma OpenedIsTraced(s: Search, m: Marks, i: nat)
    requires i < |s.starts| && s.starts[i].Found?
    ensures s.Opened(m, i) == if s.dir.Sibling? then m + s.Trace({s.starts[i].node}, i) else m
  {
  }

  lemma TraceGrows(s: Search, m: Marks, passed: set<Node>, n: Node, i: nat)
    ensures m + s.Trace(passed, i) + s.Trace({n}, i) == m + s.Trace(passed + {n}, i)
    ensures m + s.Trace({}, i) == m
  {
  }

  lemma WalkBegins(s: Search, m: Marks, i: nat)
    requires i < |s.starts| && s.starts[i].Found? && s.starts[i].node in s.chain.next
    ensures s.Passing(m, i, {}, s.chain.next[s.starts[i].node])
    ensures m + s.Trace({}, i) == m
  {
  }

  /** What has been passed lies behind, and its marks are those of the walk. */
  lemma NotPassedTwice(s: Search, m: Marks, i: nat, passed: set<Node>, n: Node)
    requires i < |s.starts| && s.Passing(m, i, passed, n)
    ensures n in m + s.Trace(passed, i) <==> n in m
    ensures n in m ==> (m + s.Trace(passed, i))[n] == m[n]
  {
  }

  lemma WalkGoesOn(s: Search, m: Marks, i: nat, passed: set<Node>, n: Node)
    requires i < |s.starts| && s.Passing(m, i, passed, n) && n !in s.hits && n !in m
    ensures s.Passing(m, i, passed + {n}, s.chain.next[n])
  {
    var next := s.chain.next[n];
    assert next != null ==> OnWay(n, next, s.hits, s.chain);
  }

  ghost function Named(nodes: set<Node>, name: string): set<Node> {
    set n | n in nodes && n.nodeName == name
  }

  /** Every slot gets its answer exactly if none is blind. The first blind slot gets a wrong one. */
  method DirNodeCheck(dir: Dir, cur: string, doneName: int, checkSet: array<Slot>, isXML: bool, ghost chain: Chain)
    requires Follows(chain, dir) && InTree(checkSet[..], chain)
    requires Below(chain.next.Keys, doneName)
    modifies checkSet, chain.next.Keys`sizcache, chain.next.Keys`sizset
    ensures forall n | n in chain.next :: n.sizcache == old(n.sizcache) || n.sizcache == doneName
    ensures var s := NameSearch(dir, cur, isXML, chain, old(checkSet[..]));
      && Exact(s, checkSet[..], checkSet.Length)
      && ((forall k | 0 <= k < checkSet.Length :: checkSet[k] == s.Answer(k)) <==> NoneBlind(s, checkSet.Length))
  {
    hide Search.Answer, Search.Blind, Search.Right, Search.Covering, Search.Walked, Search.MarksOf, SoFar;
    ghost var s := NameSearch(dir, cur, isXML, chain, checkSet[..]);
    NothingYet(s);
    NoMarksYet(s, doneName);
    var i := 0;
    while i < checkSet.Length
      invariant 0 <= i <= checkSet.Length
      invariant forall n | n in chain.next :: n.sizcache == old(n.sizcache) || n.sizcache == doneName
      invariant forall k | i <= k < checkSet.Length :: checkSet[k] == s.starts[k]
      invariant InRange(s.MarksOf(doneName), i)
      invariant SoFar(s, s.MarksOf(doneName), checkSet[..], i)
    {
      ghost var m, slots := s.MarksOf(doneName), checkSet[..];
      var elem := checkSet[i];
      if elem.Found? {
        ghost var passed, stop;
        var found: Slot;
        found, passed, stop := WalkNames(dir, elem.node, cur, doneName, checkSet, i, isXML, s);
        WalkStep(s, m, s.MarksOf(doneName), slots, i, found, passed, stop);
        checkSet[i] := found;
      } else {
        if elem.Yes? { checkSet[i] := No; }
        EmptyStep(s, m, slots, i);
      }
      assert checkSet[..] == slots[i := checkSet[i]];
      i := i + 1;
    }
    AllDone(s, s.MarksOf(doneName), checkSet[..]);
  }

  ghost function NameSearch(dir: Dir, cur: string, isXML: bool, chain: Chain, starts: seq<Slot>): Search {
    Search(dir, !isXML, Named(chain.next.Keys, cur), true, chain, starts)
  }

  ghost predicate InTree(checkSet: seq<Slot>, chain: Chain) {
    forall k | 0 <= k < |checkSet| && checkSet[k].Found? :: checkSet[k].node in chain.next
  }

  ghost predicate NoneBlind(s: Search, i: nat)
    requires i <= |s.starts|
  {
    forall k | 0 <= k < i :: !s.Blind(k)
  }

  /** A slot before which none is blind has its answer exactly if it is not blind itself. */
  ghost predicate Exact(s: Search, slots: seq<Slot>, i: nat)
    requires i <= |slots| == |s.starts|
  {
    forall k | 0 <= k < i && NoneBlind(s, k) :: slots[k] == s.Answer(k) <==> !s.Blind(k)
  }

  /** The first i slots are exact and, unless one of them was blind, the marks are right. */
  ghost predicate SoFar(s: Search, m: Marks, slots: seq<Slot>, i: nat)
    requires i <= |slots| == |s.starts|
  {
    && Exact(s, slots, i)
    && (NoneBlind(s, i) ==> s.Right(m, slots, i) && s.Covering(m, i))
  }

  lemma NoMarksYet(s: Search, doneName: int)
    requires Below(s.chain.next.Keys, doneName)
    ensures s.MarksOf(doneName) == map[]
  {
  }

  lemma NothingYet(s: Search)
    ensures SoFar(s, map[], s.starts, 0)
  {
  }

  lemma AllDone(s: Search, m: Marks, slots: seq<Slot>)
    requires |slots| == |s.starts| && SoFar(s, m, slots, |slots|)
    ensures Exact(s, slots, |slots|)
    ensures (forall k | 0 <= k < |slots| :: slots[k] == s.Answer(k)) <==> NoneBlind(s, |slots|)
  {
    hide Search.Answer, Search.Blind, Search.Right, Search.Covering;
    forall k | 0 <= k <= |slots| && NoneBlind(s, |slots|) ensures NoneBlind(s, k) {
    }
    if (forall k | 0 <= k < |slots| :: slots[k] == s.Answer(k)) && !NoneBlind(s, |slots|) {
      FirstBlind(s, slots, |slots|);
    }
  }

  /** If some slot is blind, the first such slot has a wrong answer. */
  lemma {:induction false} FirstBlind(s: Search, slots: seq<Slot>, i: nat)
    requires |slots| == |s.starts| && Exact(s, slots, |slots|) && i <= |slots| && !NoneBlind(s, i)
    ensures exists k | 0 <= k < i :: slots[k] != s.Answer(k)
  {
    hide Search.Answer, Search.Blind;
    if !NoneBlind(s, i - 1) {
      FirstBlind(s, slots, i - 1);
    } else {
      assert slots[i - 1] != s.Answer(i - 1);
    }
  }

  lemma WalkStep(s: Search, m: Marks, m': Marks, slots: seq<Slot>, i: nat, found: Slot, passed: set<Node>, stop: Node?)
    requires i < |s.starts| == |slots| && s.starts[i].Found? && s.starts[i].node in s.chain.next && s.Telling()
    requires s.Walked(m, m', slots, i, found, passed, stop) && SoFar(s, m, slots, i) && InRange(m, i)
    ensures SoFar(s, m', slots[i := found], i + 1)
    ensures InRange(m', i + 1)
  {
    hide Search.Answer, Search.Blind, Search.Right, Search.Covering, Search.Passing;
    if NoneBlind(s, i) {
      WalkAnswers(s, m, m', slots, i, found, passed, stop);
      if found == s.Answer(i) {
        WalkKeepsRight(s, m, m', slots, i, found, passed, stop);
        WalkKeepsCovering(s, m, m', slots, i, found, passed, stop);
      }
    }
    ExactGrows(s, slots, i, found);
  }

  lemma ExactGrows(s: Search, slots: seq<Slot>, i: nat, found: Slot)
    requires i < |s.starts| == |slots| && Exact(s, slots, i)
    requires NoneBlind(s, i) ==> (found == s.Answer(i) <==> !s.Blind(i))
    ensures Exact(s, slots[i := found], i + 1)
    ensures NoneBlind(s, i + 1) <==> NoneBlind(s, i) && !s.Blind(i)
  {
    hide Search.Answer, Search.Blind;
  }

  lemma NoNodeNoAnswer(s: Search, i: nat)
    requires i < |s.starts| && !s.starts[i].Found?
    ensures s.Answer(i) == No && !s.Blind(i)
  {
  }

  /** A slot without a node stays without one. */
  lemma EmptyStep(s: Search, m: Marks, slots: seq<Slot>, i: nat)
    requires i < |s.starts| == |slots| && !s.starts[i].Found?
    requires SoFar(s, m, slots, i)
    ensures SoFar(s, m, slots[i := No], i + 1)
  {
    hide Search.Answer, Search.Blind, Search.Taken, Search.Passed;
    NoNodeNoAnswer(s, i);
    ExactGrows(s, slots, i, No);
    if NoneBlind(s, i) {
      forall n | n in m ensures s.MarkRight(n, m[n], slots[i := No], i + 1) {
        assert s.MarkRight(n, m[n], slots, i);
      }
      forall n | n in s.chain.next
        ensures s.Taken(n, i + 1) == s.Taken(n, i) && s.Passed(n, i + 1) == s.Passed(n, i)
      {
        OneSlotMore(s, i, n);
      }
    }
  }

  /** Two paragraphs side by side: the second follows a paragraph, and is not found to. */
  method SiblingIsMissed() returns (a: Node, b: Node, answers: array<Slot>)
    ensures b.previousSibling == a && a.nodeName == b.nodeName == "P"
    ensures answers.Length == 2 && answers[1] != Found(a)
  {
    a := new Node(ELEMENT, "P");
    b := new Node(ELEMENT, "P");
    b.previousSibling := a;
    answers := new Slot[][Found(a), Found(b)];
    ghost var chain: Chain := Links(map[a := null, b := a], map[a := 0, b := 1]);
    ghost var s := NameSearch(Sibling, "P", false, chain, [Found(a), Found(b)]);
    assert answers[..] == s.starts;
    SecondIsBlind(s, a, b);
    DirNodeCheck(Sibling, "P", 0, answers, false, chain);
  }

  lemma SecondIsBlind(s: Search, a: Node, b: Node)
    requires s.dir.Sibling? && s.marking && s.asNode && s.starts == [Found(a), Found(b)]
    requires s.chain.next == map[a := null, b := a] && a != b && a in s.hits && a.nodeType == ELEMENT
    ensures !s.Blind(0) && s.Blind(1) && s.Answer(1) == Found(a)
  {
    assert s.Starts(0, a);
    assert s.After(0) == null;
    assert s.After(1) == a;
  }

  /** What an ancestor or sibling is compared with: a node, or a selector that these nodes match. */
  datatype Target = Is(node: Node) | Matches(nodes: set<Node>)

  /** The marks a nested search leaves carry later numbers than that of the search around it. */
  ghost predicate Foreign(marks: map<Node, Mark>, doneName: int, next: int, chain: Chain) {
    forall n | n in marks :: n in chain.next && doneName < marks[n].done < next
  }

  /** A nested search: says whether the node matches, and marks any nodes in its own way. */
  method Filter(n: Node, nodes: set<Node>, marks: map<Node, Mark>, doneName: int, ghost next: int, ghost s: Search)
    returns (hit: bool)
    requires Foreign(marks, doneName, next, s.chain)
    modifies s.chain.next.Keys`sizcache, s.chain.next.Keys`sizset
    ensures hit == (n in nodes)
    ensures forall m | m in s.chain.next :: m.sizcache == old(m.sizcache) || doneName < m.sizcache < next
    ensures s.MarksOf(doneName) == old(s.MarksOf(doneName)) - marks.Keys
  {
    forall m | m in marks {
      m.sizcache := marks[m].done;
    }
    forall m | m in marks {
      m.sizset := marks[m].slot;
    }
    hit := n in nodes;
  }

  ghost function Hits(cur: Target, nodes: set<Node>): set<Node> {
    set n | n in nodes && n.nodeType == ELEMENT && if cur.Is? then n == cur.node else n in cur.nodes
  }

  ghost function TargetSearch(dir: Dir, cur: Target, isXML: bool, chain: Chain, starts: seq<Slot>): Search {
    Search(dir, !isXML, Hits(cur, chain.next.Keys), cur.Matches?, chain, starts)
  }

  /** Comparing with a node involves no nested search. */
  ghost function Overwritten(cur: Target, marks: map<Node, Mark>): set<Node> {
    if cur.Matches? then marks.Keys else {}
  }

  ghost function Erased(cur: Target, noise: nat -> map<Node, Mark>): (er: Erasure)
    ensures forall c :: er(c) == Overwritten(cur, noise(c))
  {
    (c: nat) => Overwritten(cur, noise(c))
  }

  ghost predicate Within(m: Marks, of: Marks) {
    forall n | n in m :: n in of && m[n] == of[n]
  }

  /** Marks an element for slot i and compares it with the target. */
  method Examine(n: Node, cur: Target, doneName: int, i: nat, isXML: bool,
                 marks: map<Node, Mark>, ghost next: int, ghost s: Search)
    returns (hit: bool)
    requires n in s.chain.next && n.nodeType == ELEMENT && s.marking == !isXML
    requires Foreign(marks, doneName, next, s.chain) && doneName < next
    modifies s.chain.next.Keys`sizcache, s.chain.next.Keys`sizset
    ensures hit == (n in Hits(cur, s.chain.next.Keys))
    ensures forall m | m in s.chain.next :: m.sizcache == old(m.sizcache) || doneName <= m.sizcache < next
    ensures s.MarksOf(doneName) == old(s.MarksOf(doneName)) + s.Trace({n}, i) - Overwritten(cur, marks)
  {
    SetMark(n, doneName, i, isXML, s);
    if cur.Is? {
      hit := n == cur.node;
    } else {
      hit := Filter(n, cur.nodes, marks, doneName, next, s);
    }
  }

  /** The marks of a walk for slot i that is at n: those from before are right, and its own point
      to the answer the walk will give. */
  ghost predicate OnCourse(s: Search, m: Marks, i: nat, n: Node?)
    requires i < |s.starts|
  {
    && (n != null ==> n in s.chain.next && s.WayFrom(i, n))
    && (n != null ==> forall x | x in m && m[x] == i && x in s.chain.next :: s.chain.depth[n] < s.chain.depth[x])
    && s.After(i) == Hit(n, s.hits, s.chain)
    && InRange(m, i + 1)
  }

  lemma AwaitAnswer(s: Search, m: Marks, slots: seq<Slot>, i: nat)
    requires i < |slots| == |s.starts| && s.Right(m, slots, i)
    ensures s.Right(m, slots[i := s.Answer(i)], i + 1)
  {
    forall n | n in m ensures s.MarkRight(n, m[n], slots[i := s.Answer(i)], i + 1) {
      assert s.MarkRight(n, m[n], slots, i);
    }
  }

  lemma StartIsRight(s: Search, m: Marks, slots: seq<Slot>, i: nat)
    requires i < |slots| == |s.starts| && s.starts[i].Found? && s.starts[i].node in s.chain.next
    requires s.dir.Sibling? && s.Right(m, slots[i := s.Answer(i)], i + 1)
    ensures s.Right(m + s.Trace({s.starts[i].node}, i), slots[i := s.Answer(i)], i + 1)
  {
  }

  lemma StartOnCourse(s: Search, m: Marks, i: nat)
    requires i < |s.starts| && s.starts[i].Found? && s.starts[i].node in s.chain.next
    requires InRange(m, i)
    ensures var m' := if s.dir.Sibling? then m + s.Trace({s.starts[i].node}, i) else m;
      OnCourse(s, m', i, s.chain.next[s.starts[i].node])
  {
  }

  lemma CourseMeets(s: Search, m: Marks, i: nat, n: Node?)
    requires i < |s.starts| && OnCourse(s, m, i, n)
    ensures InRange(m, i + 1) && (n != null ==> n in s.chain.next) && (n != null && n in m ==> m[n] < i)
    ensures n == null || n in s.hits ==> s.After(i) == n
    ensures n != null ==> Within(m, m + s.Trace({n}, i))  || n in m
  {
  }

  lemma StayOnCourse(s: Search, m: Marks, m': Marks, i: nat, n: Node)
    requires i < |s.starts| && OnCourse(s, m, i, n) && n !in s.hits
    requires Within(m', m + s.Trace({n}, i))
    ensures OnCourse(s, m', i, s.chain.next[n])
  {
    var next := s.chain.next[n];
    if next != null {
      assert OnWay(n, next, s.hits, s.chain);
      WayIsTransitive(s.chain.next[s.starts[i].node], n, next, s.hits, s.chain);
    }
  }

  lemma StillRight(s: Search, m: Marks, m': Marks, slots: seq<Slot>, i: nat, n: Node)
    requires i < |slots| == |s.starts| && OnCourse(s, m, i, n)
    requires s.Right(m, slots[i := s.Answer(i)], i + 1) && Within(m', m + s.Trace({n}, i))
    ensures s.Right(m', slots[i := s.Answer(i)], i + 1)
  {
  }

  /** A mark met by a walk that is not exposed holds its answer. */
  lemma MarkAnswers(s: Search, m: Marks, slots: seq<Slot>, i: nat, n: Node)
    requires i < |slots| == |s.starts| && OnCourse(s, m, i, n) && n in m
    requires s.Right(m, slots[i := s.Answer(i)], i + 1) && !s.Exposed(i)
    ensures slots[m[n]] == s.Answer(i)
  {
    assert s.MarkRight(n, m[n], slots[i := s.Answer(i)], i + 1);
    if s.Starts(m[n], n) {
      assert s.Taken(n, i);
    }
  }

  /** A walk that is not exposed gives the right answer and leaves right marks, whatever is
      overwritten meanwhile. */
  lemma {:induction false} WalkIsRight(s: Search, m: Marks, slots: seq<Slot>, i: nat, n: Node?, calls: nat, er: Erasure)
    requires i < |slots| == |s.starts| && OnCourse(s, m, i, n) && !s.Exposed(i)
    requires s.Right(m, slots[i := s.Answer(i)], i + 1) && (n != null ==> n in s.chain.next)
    ensures var o := s.Walk(m, slots, i, n, calls, er);
      o.found == s.Answer(i) && s.Right(o.marks, slots[i := s.Answer(i)], i + 1)
    decreases if n == null then 0 else s.chain.depth[n] + 1
  {
    hide Search.Right, Search.Exposed, Search.After, OnCourse, Hit, OnWay;
    CourseMeets(s, m, i, n);
    if n != null {
      if n in m {
        MarkAnswers(s, m, slots, i, n);
        RightInRange(s, m, slots[i := s.Answer(i)], i + 1);
      } else {
        var left := s.Visited(m, i, n, calls, er);
        StillRight(s, m, left, slots, i, n);
        if n !in s.hits {
          StayOnCourse(s, m, left, i, n);
          WalkIsRight(s, left, slots, i, s.chain.next[n], if n.nodeType == ELEMENT then calls + 1 else calls, er);
        }
      }
    }
  }

  lemma RightInRange(s: Search, m: Marks, slots: seq<Slot>, i: nat)
    requires s.Right(m, slots, i)
    ensures InRange(m, i) && InRange(m, |slots|)
  {
    forall n | n in m ensures m[n] < i && m[n] < |slots| {
      assert s.MarkRight(n, m[n], slots, i);
    }
  }

  /** The marks are right and the first i slots are answered. */
  ghost predicate Answered(s: Search, m: Marks, slots: seq<Slot>, i: nat)
    requires i <= |slots| == |s.starts|
  {
    s.Right(m, slots, i) && forall k | 0 <= k < i :: slots[k] == s.Answer(k)
  }

  /** As long as no slot is exposed every slot gets its answer, whatever is overwritten. */
  lemma {:induction false} RoundsAreRight(s: Search, i: nat, er: Erasure)
    requires s.InChain() && i <= |s.starts| && forall k | 0 <= k < i :: !s.Exposed(k)
    ensures var r := s.Rounds(i, er); Answered(s, r.marks, r.slots, i)
  {
    if i > 0 {
      var r := s.Rounds(i - 1, er);
      RoundsAreRight(s, i - 1, er);
      TurnIsRight(s, r.marks, r.slots, i - 1, r.calls, er);
    }
  }

  lemma TurnIsRight(s: Search, m: Marks, slots: seq<Slot>, k: nat, calls: nat, er: Erasure)
    requires s.InChain() && k < |s.starts| == |slots| && Answered(s, m, slots, k) && !s.Exposed(k)
    ensures var t := s.Turn(m, slots, k, calls, er); Answered(s, t.marks, slots[k := t.found], k + 1)
  {
    hide Search.Right, Search.Exposed, Search.After, Search.Walk, OnCourse;
    AwaitAnswer(s, m, slots, k);
    if s.starts[k].Found? {
      RightInRange(s, m, slots, k);
      OpenedIsTraced(s, m, k);
      StartOnCourse(s, m, k);
      if s.dir.Sibling? { StartIsRight(s, m, slots, k); }
      WalkIsRight(s, s.Opened(m, k), slots, k, s.chain.next[s.starts[k].node], calls, er);
    } else {
      NoNodeNoAnswer(s, k);
    }
  }

  /** One slot with a nested search at every element. */
  method WalkNodes(dir: Dir, elem: Node, cur: Target, doneName: int, checkSet: array<Slot>, i: nat, isXML: bool,
                   noise: nat -> map<Node, Mark>, calls: nat, ghost next: int, ghost s: Search)
    returns (found: Slot, callsNow: nat)
    requires s.Valid() && s.InChain() && s == TargetSearch(dir, cur, isXML, s.chain, s.starts)
    requires i < |s.starts| == checkSet.Length && s.starts[i] == Found(elem)
    requires InRange(s.MarksOf(doneName), i)
    requires doneName < next && forall c :: Foreign(noise(c), doneName, next, s.chain)
    modifies s.chain.next.Keys`sizcache, s.chain.next.Keys`sizset
    ensures forall n | n in s.chain.next :: n.sizcache == old(n.sizcache) || doneName <= n.sizcache < next
    ensures InRange(s.MarksOf(doneName), i + 1)
    ensures Outcome(s.MarksOf(doneName), found, callsNow) ==
              s.Turn(old(s.MarksOf(doneName)), checkSet[..], i, calls, Erased(cur, noise))
  {
    hide Search.Trace, Search.Walk;
    ghost var m0 := s.MarksOf(doneName);
    OpenedIsTraced(s, m0, i);
    if dir.Sibling? {
      SetMark(elem, doneName, i, isXML, s);
      TracedInRange(s, m0, elem, i);
    }
    assert elem.Next(dir) == s.chain.next[elem];
    found, callsNow := WalkOn(dir, elem.Next(dir), cur, doneName, checkSet, i, isXML, noise, calls, next, s);
  }

  lemma TracedInRange(s: Search, m: Marks, n: Node, i: nat)
    requires InRange(m, i + 1)
    ensures InRange(m + s.Trace({n}, i), i + 1)
    ensures forall gone: set<Node> :: InRange(m + s.Trace({n}, i) - gone, i + 1)
  {
  }

  /** The loop of one walk, from the first node after that of the slot. */
  method WalkOn(dir: Dir, first: Node?, cur: Target, doneName: int, checkSet: array<Slot>, i: nat, isXML: bool,
                noise: nat -> map<Node, Mark>, calls: nat, ghost next: int, ghost s: Search)
    returns (found: Slot, callsNow: nat)
    requires s.Valid() && s == TargetSearch(dir, cur, isXML, s.chain, s.starts) && (first != null ==> first in s.chain.next)
    requires i < |s.starts| == checkSet.Length && InRange(s.MarksOf(doneName), i + 1)
    requires doneName < next && forall c :: Foreign(noise(c), doneName, next, s.chain)
    modifies s.chain.next.Keys`sizcache, s.chain.next.Keys`sizset
    ensures forall n | n in s.chain.next :: n.sizcache == old(n.sizcache) || doneName <= n.sizcache < next
    ensures InRange(s.MarksOf(doneName), i + 1)
    ensures Outcome(s.MarksOf(doneName), found, callsNow) ==
              s.Walk(old(s.MarksOf(doneName)), checkSet[..], i, first, calls, Erased(cur, noise))
  {
    hide Search.Trace, Search.Walk, Search.Visited, Hit, OnWay;
    ghost var er := Erased(cur, noise);
    callsNow := calls;
    var n := first;
    ghost var end := s.Walk(s.MarksOf(doneName), checkSet[..], i, n, calls, er);
    while n != null
      invariant n != null ==> n in s.chain.next
      invariant s.Walk(s.MarksOf(doneName), checkSet[..], i, n, callsNow, er) == end
      invariant InRange(s.MarksOf(doneName), i + 1)
      invariant forall x | x in s.chain.next :: x.sizcache == old(x.sizcache) || doneName <= x.sizcache < next
      decreases if n == null then 0 else s.chain.depth[n] + 1
    {
      ghost var m := s.MarksOf(doneName);
      assert n.Next(dir) == s.chain.next[n];
      WalkUnfolds(s, m, checkSet[..], i, n, callsNow, er);
      if n.sizcache == doneName {
        assert n in m;
        return checkSet[n.sizset], callsNow;
      }
      assert n !in m;
      if n.nodeType == ELEMENT {
        var hit := Examine(n, cur, doneName, i, isXML, noise(callsNow), next, s);
        assert s.MarksOf(doneName) == s.Visited(m, i, n, callsNow, er);
        TracedInRange(s, m, n, i);
        callsNow := callsNow + 1;
        if hit {
          return if cur.Is? then Yes else Found(n), callsNow;
        }
      }
      n := n.Next(dir);
    }
    WalkUnfolds(s, s.MarksOf(doneName), checkSet[..], i, null, callsNow, er);
    return No, callsNow;
  }

  lemma WalkUnfolds(s: Search, m: Marks, slots: seq<Slot>, i: nat, n: Node?, calls: nat, er: Erasure)
    requires n != null ==> n in s.chain.next
    ensures n == null ==> s.Walk(m, slots, i, n, calls, er) == Outcome(m, No, calls)
    ensures n != null && n in m && m[n] < |slots| ==> s.Walk(m, slots, i, n, calls, er) == Outcome(m, slots[m[n]], calls)
    ensures n != null && n !in m ==>
              var now := if n.nodeType == ELEMENT then calls + 1 else calls;
              && s.Visited(m, i, n, calls, er) == (if n.nodeType == ELEMENT then m + s.Trace({n}, i) - er(calls) else m)
              && s.Walk(m, slots, i, n, calls, er) ==
                   if n in s.hits then Outcome(s.Visited(m, i, n, calls, er), s.Shown(n), now)
                   else s.Walk(s.Visited(m, i, n, calls, er), slots, i, s.chain.next[n], now, er)
  {
  }

  /** The slots come out as the rounds determine, from the marks that the nested searches
      overwrite. So every slot gets its answer, whatever these are, if no slot is exposed. In the
      parent direction none is. Comparing with a node, every slot gets its answer exactly if none is
      blind. */
  method DirCheck(dir: Dir, cur: Target, doneName: int, checkSet: array<Slot>, isXML: bool,
                  noise: nat -> map<Node, Mark>, ghost next: int, ghost chain: Chain)
    requires Follows(chain, dir) && InTree(checkSet[..], chain)
    requires Below(chain.next.Keys, doneName) && doneName < next
    requires forall c :: Foreign(noise(c), doneName, next, chain)
    modifies checkSet, chain.next.Keys`sizcache, chain.next.Keys`sizset
    ensures forall n | n in chain.next :: n.sizcache == old(n.sizcache) || doneName <= n.sizcache < next
    ensures var s := TargetSearch(dir, cur, isXML, chain, old(checkSet[..]));
      s.InChain() && checkSet[..] == s.Rounds(checkSet.Length, Erased(cur, noise)).slots
    ensures var s := TargetSearch(dir, cur, isXML, chain, old(checkSet[..]));
      (forall k | 0 <= k < checkSet.Length :: !s.Exposed(k)) ==>
        forall k | 0 <= k < checkSet.Length :: checkSet[k] == s.Answer(k)
    ensures var s := TargetSearch(dir, cur, isXML, chain, old(checkSet[..]));
      cur.Is? ==>
        && Exact(s, checkSet[..], checkSet.Length)
        && ((forall k | 0 <= k < checkSet.Length :: checkSet[k] == s.Answer(k)) <==> NoneBlind(s, checkSet.Length))
  {
    hide Search.Answer, Search.Exposed, Search.Blind, Search.Rounds, Hits, Exact, NoneBlind;
    ghost var s := TargetSearch(dir, cur, isXML, chain, checkSet[..]);
    AnswerAll(dir, cur, doneName, checkSet, isXML, noise, next, s);
    RoundsTell(s, cur, noise);
  }

  /** The loop over the slots. */
  method AnswerAll(dir: Dir, cur: Target, doneName: int, checkSet: array<Slot>, isXML: bool,
                   noise: nat -> map<Node, Mark>, ghost next: int, ghost s: Search)
    requires s.Valid() && s.InChain() && s == TargetSearch(dir, cur, isXML, s.chain, checkSet[..])
    requires Below(s.chain.next.Keys, doneName) && doneName < next
    requires forall c :: Foreign(noise(c), doneName, next, s.chain)
    modifies checkSet, s.chain.next.Keys`sizcache, s.chain.next.Keys`sizset
    ensures forall n | n in s.chain.next :: n.sizcache == old(n.sizcache) || doneName <= n.sizcache < next
    ensures checkSet[..] == s.Rounds(checkSet.Length, Erased(cur, noise)).slots
  {
    hide Search.MarksOf, Search.Turn, Search.Rounds, Hits, Foreign, Search.InChain;
    ghost var er := Erased(cur, noise);
    NoMarksYet(s, doneName);
    RoundsStart(s, er);
    var calls := 0;
    var i := 0;
    while i < checkSet.Length
      invariant 0 <= i <= checkSet.Length
      invariant forall n | n in s.chain.next :: n.sizcache == old(n.sizcache) || doneName <= n.sizcache < next
      invariant InRange(s.MarksOf(doneName), i)
      invariant Round(s.MarksOf(doneName), checkSet[..], calls) == s.Rounds(i, er)
    {
      ghost var slots := checkSet[..];
      var elem := checkSet[i];
      assert elem == s.starts[i];
      if elem.Found? {
        var found: Slot;
        found, calls := WalkNodes(dir, elem.node, cur, doneName, checkSet, i, isXML, noise, calls, next, s);
        checkSet[i] := found;
      } else {
        if elem.Yes? { checkSet[i] := No; }
        EmptyTurn(s, s.MarksOf(doneName), slots, i, calls, er);
      }
      assert checkSet[..] == slots[i := checkSet[i]];
      i := i + 1;
      RoundsStep(s, i, er);
    }
  }

  /** What the rounds give for a target. */
  lemma RoundsTell(s: Search, cur: Target, noise: nat -> map<Node, Mark>)
    requires s.InChain() && s.hits == Hits(cur, s.chain.next.Keys) && s.asNode == cur.Matches?
    ensures var slots := s.Rounds(|s.starts|, Erased(cur, noise)).slots;
      && ((forall k | 0 <= k < |s.starts| :: !s.Exposed(k)) ==> forall k | 0 <= k < |slots| :: slots[k] == s.Answer(k))
      && (cur.Is? ==>
            && Exact(s, slots, |slots|)
            && ((forall k | 0 <= k < |slots| :: slots[k] == s.Answer(k)) <==> NoneBlind(s, |slots|)))
  {
    hide Search.Rounds, Search.Right, Search.Exposed, Search.Answer, Search.Blind, Exact, SoFar, NoneBlind;
    var n, er := |s.starts|, Erased(cur, noise);
    if forall k | 0 <= k < n :: !s.Exposed(k) { RoundsAreRight(s, n, er); }
    if cur.Is? {
      assert forall c :: er(c) == {};
      assert forall x | x in s.hits :: x == cur.node;
      QuietRounds(s, n, er);
      AllDone(s, s.Rounds(n, er).marks, s.Rounds(n, er).slots);
    }
  }

  // ----- without nested searches --------------------------------------------------------------------

  /** If nothing is overwritten, the rounds are exact like the search by names. */
  lemma {:induction false} QuietRounds(s: Search, i: nat, er: Erasure)
    requires s.InChain() && i <= |s.starts| && s.Telling() && forall c :: er(c) == {}
    ensures var r := s.Rounds(i, er); SoFar(s, r.marks, r.slots, i) && InRange(r.marks, i)
  {
    hide *;
    RoundsStart(s, er);
    if i == 0 {
      NothingYet(s);
    } else {
      RoundsStep(s, i, er);
      var r := s.Rounds(i - 1, er);
      QuietRounds(s, i - 1, er);
      EmptyTurn(s, r.marks, r.slots, i - 1, r.calls, er);
      if s.starts[i - 1].Found? {
        NodeInChain(s, i - 1);
        var passed, stop := QuietTurn(s, r.marks, r.slots, i - 1, r.calls, er);
        var t := s.Turn(r.marks, r.slots, i - 1, r.calls, er);
        WalkStep(s, r.marks, t.marks, r.slots, i - 1, t.found, passed, stop);
      } else {
        EmptyStep(s, r.marks, r.slots, i - 1);
        StillInRange(r.marks, i - 1);
      }
    }
  }

  lemma RoundsStart(s: Search, er: Erasure)
    requires s.InChain()
    ensures s.Rounds(0, er) == Round(map[], s.starts, 0) && InRange(map[], 0)
  {
  }

  lemma NodeInChain(s: Search, k: nat)
    requires s.InChain() && k < |s.starts| && s.starts[k].Found?
    ensures s.starts[k].node in s.chain.next
  {
  }

  lemma StillInRange(m: Marks, i: nat)
    requires InRange(m, i)
    ensures InRange(m, i + 1)
  {
  }

  lemma RoundsStep(s: Search, i: nat, er: Erasure)
    requires s.InChain() && 0 < i <= |s.starts|
    ensures var r := s.Rounds(i - 1, er);
      var t := s.Turn(r.marks, r.slots, i - 1, r.calls, er);
      s.Rounds(i, er) == Round(t.marks, r.slots[i - 1 := t.found], t.calls)
  {
  }

  lemma EmptyTurn(s: Search, m: Marks, slots: seq<Slot>, k: nat, calls: nat, er: Erasure)
    requires s.InChain() && k < |s.starts|
    ensures !s.starts[k].Found? ==> s.Turn(m, slots, k, calls, er) == Outcome(m, No, calls)
  {
  }

  lemma QuietTurn(s: Search, m: Marks, slots: seq<Slot>, k: nat, calls: nat, er: Erasure)
    returns (passed: set<Node>, stop: Node?)
    requires s.InChain() && k < |s.starts| == |slots| && s.starts[k].Found? && InRange(m, k) && forall c :: er(c) == {}
    ensures var t := s.Turn(m, slots, k, calls, er); s.Walked(m, t.marks, slots, k, t.found, passed, stop)
  {
    var begun := s.Opened(m, k);
    WalkBegins(s, begun, k);
    passed, stop := QuietWalk(s, begun, slots, k, {}, s.chain.next[s.starts[k].node], calls, er);
  }

  /** Where a walk that is at n after passing these nodes will stop. */
  lemma {:induction false} QuietWalk(s: Search, begun: Marks, slots: seq<Slot>, i: nat, passed: set<Node>, n: Node?,
                                     calls: nat, er: Erasure)
    returns (all: set<Node>, stop: Node?)
    requires i < |s.starts| && s.Passing(begun, i, passed, n) && (n != null ==> n in s.chain.next)
    requires InRange(begun, |slots|) && forall c :: er(c) == {}
    ensures s.Passing(begun, i, all, stop)
    ensures var o := s.Walk(begun + s.Trace(passed, i), slots, i, n, calls, er);
      && o.marks == begun + s.Trace(if stop == null || stop in begun then all else all + {stop}, i)
      && if stop == null then o.found == No
         else if stop in begun then o.found == slots[begun[stop]]
         else stop in s.hits && o.found == s.Shown(stop)
    decreases if n == null then 0 else s.chain.depth[n] + 1
  {
    hide Search.Passing, Search.Trace;
    all, stop := passed, n;
    if n != null {
      NotPassedTwice(s, begun, i, passed, n);
      if n !in begun {
        TraceGrows(s, begun, passed, n, i);
        QuietVisit(s, begun + s.Trace(passed, i), i, n, calls, er);
        if n !in s.hits {
          WalkGoesOn(s, begun, i, passed, n);
          all, stop := QuietWalk(s, begun, slots, i, passed + {n}, s.chain.next[n],
                                 if n.nodeType == ELEMENT then calls + 1 else calls, er);
        }
      }
    }
  }

  lemma QuietVisit(s: Search, m: Marks, i: nat, n: Node, calls: nat, er: Erasure)
    requires er(calls) == {}
    ensures s.Visited(m, i, n, calls, er) == m + s.Trace({n}, i)
  {
  }

  /** Towards the parents, and in XML, no slot is exposed and none is blind. */
  lemma ParentsAreExact(s: Search, k: nat)
    requires k < |s.starts| && (s.dir.Parent? || !s.marking)
    ensures !s.Exposed(k) && !s.Blind(k)
  {
  }

  lemma ClearIsNotBlind(s: Search)
    ensures (forall k | 0 <= k < |s.starts| :: !s.Exposed(k)) ==> NoneBlind(s, |s.starts|)
  {
  }

  // ----- what the answers are ---------------------------------------------------------------------

  /** A search for a name finds the first node of that name on the way from the node of the slot. */
  lemma NameAnswer(dir: Dir, cur: string, isXML: bool, chain: Chain, starts: seq<Slot>, k: nat, h: Node)
    requires k < |starts| && (starts[k].Found? ==> starts[k].node in chain.next)
    ensures var answer := NameSearch(dir, cur, isXML, chain, starts).Answer(k);
      && !answer.Yes?
      && (!starts[k].Found? ==> answer == No)
      && (starts[k].Found? ==>
            (answer == Found(h) <==>
              exists path: seq<Node> :: && Leads(path, chain.next[starts[k].node], h, chain) && h.nodeName == cur
                             && forall j | 0 <= j < |path| - 1 :: path[j].nodeName != cur))
  {
    if starts[k].Found? {
      var hits := Named(chain.next.Keys, cur);
      var from := chain.next[starts[k].node];
      FirstHit(from, hits, chain, h);
      if path: seq<Node> :| LeadsFirst(path, from, h, hits, chain) {
        assert Leads(path, from, h, chain);
      }
      if path: seq<Node> :| (Leads(path, from, h, chain) && h.nodeName == cur &&
                             forall j | 0 <= j < |path| - 1 :: path[j].nodeName != cur) {
        assert LeadsFirst(path, from, h, hits, chain);
      }
    }
  }

  /** A search for a selector finds the first matching element on the way. */
  lemma MatchAnswer(dir: Dir, nodes: set<Node>, isXML: bool, chain: Chain, starts: seq<Slot>, k: nat, h: Node)
    requires k < |starts| && (starts[k].Found? ==> starts[k].node in chain.next)
    ensures var answer := TargetSearch(dir, Matches(nodes), isXML, chain, starts).Answer(k);
      && !answer.Yes?
      && (!starts[k].Found? ==> answer == No)
      && (starts[k].Found? ==>
            (answer == Found(h) <==>
              exists path: seq<Node> :: && Leads(path, chain.next[starts[k].node], h, chain)
                             && h in nodes && h.nodeType == ELEMENT
                             && forall j | 0 <= j < |path| - 1 :: path[j] in nodes ==> path[j].nodeType != ELEMENT))
  {
    if starts[k].Found? {
      var hits := Hits(Matches(nodes), chain.next.Keys);
      var from := chain.next[starts[k].node];
      FirstHit(from, hits, chain, h);
      if path: seq<Node> :| LeadsFirst(path, from, h, hits, chain) {
        assert Leads(path, from, h, chain);
      }
      if path: seq<Node> :| (Leads(path, from, h, chain) && h in nodes && h.nodeType == ELEMENT &&
                             forall j | 0 <= j < |path| - 1 :: path[j] in nodes ==> path[j].nodeType != ELEMENT) {
        assert LeadsFirst(path, from, h, hits, chain);
      }
    }
  }

  /** A comparison with a node says whether that node is an element on the way. */
  lemma NodeAnswer(dir: Dir, node: Node, isXML: bool, chain: Chain, starts: seq<Slot>, k: nat)
    requires k < |starts| && (starts[k].Found? ==> starts[k].node in chain.next)
    ensures var answer := TargetSearch(dir, Is(node), isXML, chain, starts).Answer(k);
      && (answer == No || answer == Yes)
      && (answer == Yes <==>
            && starts[k].Found? && node.nodeType == ELEMENT
            && exists path: seq<Node> :: Leads(path, chain.next[starts[k].node], node, chain))
  {
    if starts[k].Found? {
      var hits := Hits(Is(node), chain.next.Keys);
      var from := chain.next[starts[k].node];
      FirstHit(from, hits, chain, node);
      if path: seq<Node> :| LeadsFirst(path, from, node, hits, chain) {
        assert Leads(path, from, node, chain);
      }
      if path: seq<Node> :| Leads(path, from, node, chain) {
        if node.nodeType == ELEMENT {
          DownThePath(path, chain);
          assert LeadsFirst(path, from, node, hits, chain);
        }
      }
    }
  }

  /** No path comes back to a node. */
  lemma {:induction false} DownThePath(path: seq<Node>, c: Chain)
    requires path != [] && Leads(path, path[0], path[|path| - 1], c)
    ensures forall j | 0 <= j < |path| - 1 :: c.depth[path[|path| - 1]] < c.depth[path[j]]
    decreases |path|
  {
    if |path| > 1 {
      assert c.next[path[0]] == path[1];
      DownThePath(path[1..], c);
      forall j | 0 <= j < |path| - 1 ensures c.depth[path[|path| - 1]] < c.depth[path[j]] {
        if j > 0 { assert path[j] == path[1..][j - 1]; }
      }
    }
  }

  // ----- the position among the element children ------------------------------------------------

  /** How many of the first n nodes are elements. */
  function CountElements(kids: seq<Node>, n: nat): (count: nat)
    requires n <= |kids|
    ensures n > 0 && kids[n - 1].nodeType == ELEMENT ==> count > 0
  {
    if n == 0 then 0 else CountElements(kids, n - 1) + if kids[n - 1].nodeType == ELEMENT then 1 else 0
  }

  lemma {:induction false} CountIsCardinality(kids: seq<Node>, n: nat)
    requires n <= |kids|
    ensures CountElements(kids, n) == |set k: nat | k < n && kids[k].nodeType == ELEMENT|
    decreases n
  {
    if n > 0 {
      CountIsCardinality(kids, n - 1);
      var those := set k: nat | k < n && kids[k].nodeType == ELEMENT;
      var fewer := set k: nat | k < n - 1 && kids[k].nodeType == ELEMENT;
      OneMoreIn(fewer, those, n - 1, kids[n - 1].nodeType == ELEMENT);
    }
  }

  /** The position of an element child is one more than the number of elements before it. */
  lemma PositionCounts(e: Node, k: nat, nodes: set<Node>)
    requires Tree(nodes) && e.parentNode != null && e.parentNode in nodes && e.nodeType == ELEMENT
    requires k < |e.parentNode.childNodes| && e.parentNode.childNodes[k] == e
    ensures Position(e) == 1 + |set j: nat | j < k && e.parentNode.childNodes[j].nodeType == ELEMENT|
  {
    assert k == PlaceOf(e.parentNode.childNodes, e);
    CountIsCardinality(e.parentNode.childNodes, k);
  }

  ghost predicate Tree(nodes: set<Node>)
    reads nodes`parentNode, nodes`childNodes
  {
    && (forall p, k | p in nodes && 0 <= k < |p.childNodes| :: p.childNodes[k] in nodes && p.childNodes[k].parentNode == p)
    && (forall p, j, k | p in nodes && 0 <= j < k < |p.childNodes| :: p.childNodes[j] != p.childNodes[k])
    && (forall n | n in nodes && n.parentNode != null :: n.parentNode in nodes && n in n.parentNode.childNodes)
  }

  function PlaceOf(kids: seq<Node>, n: Node): (k: nat)
    requires n in kids
    ensures k < |kids| && kids[k] == n
  {
    if kids[0] == n then 0 else PlaceOf(kids[1..], n) + 1
  }

  /** The 1-based position of a node among the element children of its parent. */
  ghost function Position(n: Node): nat
    requires n.parentNode != null && n in n.parentNode.childNodes
    reads n`parentNode, n.parentNode`childNodes
  {
    CountElements(n.parentNode.childNodes, PlaceOf(n.parentNode.childNodes, n) + 1)
  }

  /** Wherever this search has been, the indices of the element children are their positions. */
  ghost predicate Numbered(doneName: int, nodes: set<Node>)
    requires Tree(nodes)
    reads nodes
  {
    forall p, k | p in nodes && p.sizcache == doneName && 0 <= k < |p.childNodes| && p.childNodes[k].nodeType == ELEMENT ::
      p.childNodes[k].nodeIndex == CountElements(p.childNodes, k + 1)
  }

  /** Numbers the element children of a parent. */
  method NumberChildren(parent: Node, doneName: int, ghost nodes: set<Node>)
    requires Tree(nodes) && parent in nodes && Numbered(doneName, nodes)
    modifies nodes`nodeIndex, parent`sizcache
    ensures Tree(nodes) && Numbered(doneName, nodes) && parent.sizcache == doneName
    ensures forall k | 0 <= k < |parent.childNodes| && parent.childNodes[k].nodeType == ELEMENT ::
              parent.childNodes[k].nodeIndex == 1 + |set j: nat | j < k && parent.childNodes[j].nodeType == ELEMENT|
    ensures forall n | n in nodes && (n.parentNode != parent || n.nodeType != ELEMENT) :: n.nodeIndex == old(n.nodeIndex)
  {
    PlacesAreCounted(parent.childNodes);
    hide *;
    NumberAndMark(parent, doneName, nodes);
  }

  method NumberAndMark(parent: Node, doneName: int, ghost nodes: set<Node>)
    requires Tree(nodes) && parent in nodes && Numbered(doneName, nodes)
    modifies nodes`nodeIndex, parent`sizcache
    ensures Tree(nodes) && Numbered(doneName, nodes) && parent.sizcache == doneName
    ensures forall k | 0 <= k < |parent.childNodes| && parent.childNodes[k].nodeType == ELEMENT ::
              parent.childNodes[k].nodeIndex == CountElements(parent.childNodes, k + 1)
    ensures forall n | n in nodes && (n.parentNode != parent || n.nodeType != ELEMENT) :: n.nodeIndex == old(n.nodeIndex)
  {
    NumberAll(parent.childNodes, set n | n in nodes && n.parentNode == parent);
    parent.sizcache := doneName;
  }

  lemma PlacesAreCounted(kids: seq<Node>)
    ensures forall k | 0 <= k < |kids| && kids[k].nodeType == ELEMENT ::
              CountElements(kids, k + 1) == 1 + |set j: nat | j < k && kids[j].nodeType == ELEMENT|
  {
    forall k | 0 <= k < |kids| && kids[k].nodeType == ELEMENT
      ensures CountElements(kids, k + 1) == 1 + |set j: nat | j < k && kids[j].nodeType == ELEMENT|
    {
      CountIsCardinality(kids, k);
    }
  }

  method NumberAll(kids: seq<Node>, ghost those: set<Node>)
    requires (forall k | 0 <= k < |kids| :: kids[k] in those) && forall j, k | 0 <= j < k < |kids| :: kids[j] != kids[k]
    modifies those`nodeIndex
    ensures forall k | 0 <= k < |kids| && kids[k].nodeType == ELEMENT :: kids[k].nodeIndex == CountElements(kids, k + 1)
    ensures forall n | n in those && n.nodeType != ELEMENT :: n.nodeIndex == old(n.nodeIndex)
  {
    var count := 0;
    var k := 0;
    while k < |kids|
      invariant 0 <= k <= |kids| && count == CountElements(kids, k)
      invariant forall j | 0 <= j < k && kids[j].nodeType == ELEMENT :: kids[j].nodeIndex == CountElements(kids, j + 1)
      invariant forall n | n in those && n.nodeType != ELEMENT :: n.nodeIndex == old(n.nodeIndex)
    {
      var node := kids[k];
      if node.nodeType == ELEMENT {
        count := count + 1;
        node.nodeIndex := count;
      }
      k := k + 1;
    }
  }

  /** The remainder of JavaScript: it has the sign of the dividend. */
  function Remainder(a: int, b: int): int
    requires b != 0
  {
    var m := if b < 0 then -b else b;
    if a >= 0 then a % m else -((-a) % m)
  }

  function Term(a: int, b: int, n: nat): int {
    a * n + b
  }

  /** The position is a*n + b for some n >= 0. */
  ghost predicate Nth(a: int, b: int, position: int) {
    exists n: nat :: Term(a, b, n) == position
  }

  lemma MultipleHasNoRemainder(a: int, n: nat)
    requires a != 0
    ensures Remainder(a * n, a) == 0
  {
    var m := if a < 0 then -a else a;
    assert (m * n) % m == 0 by { MultipleMod(m, n); }
    assert a * n == if a < 0 then -(m * n) else m * n;
  }

  lemma MultipleMod(m: nat, n: nat)
    requires m > 0
    ensures (m * n) % m == 0
  {
    var x := m * n;
    var q, r := x / m, x % m;
    assert x == m * q + r;
    SmallMultiple(m, n, q, r);
  }

  lemma SmallMultiple(m: nat, n: nat, q: int, r: int)
    requires 0 <= r < m && m * n == m * q + r
    ensures r == 0
  {
    if n >= q {
      Difference(m, n, q);
      AtLeastOnce(m, n - q);
    } else {
      Difference(m, q, n);
      AtLeastOnce(m, q - n);
    }
  }

  lemma Difference(m: nat, n: int, q: int)
    ensures m * n - m * q == m * (n - q)
  {
  }

  lemma {:induction false} AtLeastOnce(m: nat, d: nat)
    ensures d > 0 ==> m * d >= m
    ensures m * 0 == 0
  {
  }

  /** The quotient is not negative exactly if the signs agree. */
  lemma QuotientSign(d: int, a: int)
    requires a != 0
    ensures d as real / a as real >= 0.0 <==> d == 0 || (d > 0) == (a > 0)
  {
  }

  lemma ProductSign(a: int, n: nat)
    ensures a * n == 0 || (a * n > 0) == (a > 0)
  {
  }

  lemma NoRemainderIsMultiple(a: int, d: int) returns (n: nat)
    requires a != 0 && Remainder(d, a) == 0 && (d == 0 || (d > 0) == (a > 0))
    ensures a * n == d
  {
    var m := if a < 0 then -a else a;
    var e := if d < 0 then -d else d;
    n := e / m;
    assert e == m * n;
  }

  /** The test of the filter, on remainder and sign of the quotient, finds exactly the members of
      the progression. */
  lemma NthExactly(a: int, b: int, position: int)
    requires a != 0
    ensures Remainder(position - b, a) == 0 && (position - b) as real / a as real >= 0.0 <==> Nth(a, b, position)
  {
    var d := position - b;
    hide Remainder;
    QuotientSign(d, a);
    if Remainder(d, a) == 0 && (d == 0 || (d > 0) == (a > 0)) {
      var n := NoRemainderIsMultiple(a, d);
      assert Term(a, b, n) == position;
    }
    if Nth(a, b, position) {
      var n: nat :| Term(a, b, n) == position;
      assert d == a * n;
      MultipleHasNoRemainder(a, n);
      ProductSign(a, n);
    }
  }

  lemma NthMeans(a: int, b: int, position: int)
    ensures Nth(a, b, position) <==> exists n: nat :: a * n + b == position
  {
    if n: nat :| Term(a, b, n) == position {
      assert a * n + b == position;
    }
    if n: nat :| a * n + b == position {
      assert Term(a, b, n) == position;
    }
  }

  method NthChild(elem: Node, first: int, last: int, doneName: int, ghost nodes: set<Node>) returns (found: bool)
    requires Tree(nodes) && elem in nodes && elem.nodeType == ELEMENT && Numbered(doneName, nodes)
    modifies nodes`nodeIndex, nodes`sizcache
    ensures Tree(nodes) && Numbered(doneName, nodes)
    ensures forall n | n in nodes :: n.sizcache == old(n.sizcache) || n.sizcache == doneName
    ensures forall n | n in nodes && n.parentNode == null :: n.nodeIndex == old(n.nodeIndex)
    ensures found <==> old(Passes(elem, first, last, nodes))
    ensures forall k | elem.parentNode != null && 0 <= k < |elem.parentNode.childNodes| && elem.parentNode.childNodes[k] == elem ::
              found <==> exists n: nat ::
                first * n + last == 1 + |set j: nat | j < k && elem.parentNode.childNodes[j].nodeType == ELEMENT|
  {
    PassesByPlaces(elem, first, last, nodes);
    hide Passes;
    if elem.parentNode == null { PassesByIndex(elem, first, last, nodes); }
    if first == 1 && last == 0 {
      if elem.parentNode != null { assert Term(1, 0, Position(elem)) == Position(elem); }
      return true;
    }
    var parent := elem.parentNode;
    if parent != null && (parent.sizcache != doneName || elem.nodeIndex == 0) {
      NumberChildren(parent, doneName, nodes);
    }
    if elem.nodeIndex == 0 {
      assert parent == null;
      return false;
    }
    if parent != null {
      assert parent.childNodes[PlaceOf(parent.childNodes, elem)] == elem;
      assert elem.nodeIndex == Position(elem);
    }
    found := InProgression(elem.nodeIndex, first, last);
  }

  /** The test on the index: equality when first is 0, and else remainder and sign of a quotient. */
  method InProgression(nodeIndex: int, first: int, last: int) returns (found: bool)
    ensures found <==> Nth(first, last, nodeIndex)
  {
    var diff := nodeIndex - last;
    if first == 0 {
      assert Term(0, last, 0) == last;
      found := diff == 0;
    } else {
      NthExactly(first, last, nodeIndex);
      found := Remainder(diff, first) == 0 && diff as real / first as real >= 0.0;
    }
  }

  /** A child passes by its position. An element without a parent is never numbered: it passes the
      test for all positions, and else by the index an earlier search has left in it. */
  ghost predicate Passes(e: Node, first: int, last: int, nodes: set<Node>)
    requires Tree(nodes) && e in nodes
    reads nodes`parentNode, nodes`childNodes, nodes`nodeIndex
  {
    if e.parentNode != null then Nth(first, last, Position(e))
    else (first == 1 && last == 0) || (e.nodeIndex != 0 && Nth(first, last, e.nodeIndex))
  }

  /** An element with a place among children passes exactly if one more than the number of elements
      before it is first*n + last for some n. */
  lemma PassesByPlace(e: Node, k: nat, first: int, last: int, nodes: set<Node>)
    requires Tree(nodes) && e in nodes && e.nodeType == ELEMENT && e.parentNode != null
    requires k < |e.parentNode.childNodes| && e.parentNode.childNodes[k] == e
    ensures Passes(e, first, last, nodes) <==>
            exists n: nat :: first * n + last == 1 + |set j: nat | j < k && e.parentNode.childNodes[j].nodeType == ELEMENT|
  {
    PositionCounts(e, k, nodes);
    hide Tree, Position;
    NthMeans(first, last, 1 + |set j: nat | j < k && e.parentNode.childNodes[j].nodeType == ELEMENT|);
  }

  lemma PassesByPlaces(e: Node, first: int, last: int, nodes: set<Node>)
    requires Tree(nodes) && e in nodes && e.nodeType == ELEMENT
    ensures e.parentNode != null ==> (Passes(e, first, last, nodes) <==> Nth(first, last, Position(e)))
    ensures forall k | e.parentNode != null && 0 <= k < |e.parentNode.childNodes| && e.parentNode.childNodes[k] == e ::
              Passes(e, first, last, nodes) <==> exists n: nat ::
                first * n + last == 1 + |set j: nat | j < k && e.parentNode.childNodes[j].nodeType == ELEMENT|
  {
    forall k | e.parentNode != null && 0 <= k < |e.parentNode.childNodes| && e.parentNode.childNodes[k] == e
      ensures Passes(e, first, last, nodes) <==> exists n: nat ::
                first * n + last == 1 + |set j: nat | j < k && e.parentNode.childNodes[j].nodeType == ELEMENT|
    {
      PassesByPlace(e, k, first, last, nodes);
    }
  }

  /** An element without a parent passes by the index it carries, if any. */
  lemma PassesByIndex(e: Node, first: int, last: int, nodes: set<Node>)
    requires Tree(nodes) && e in nodes && e.parentNode == null
    ensures Passes(e, first, last, nodes) <==>
            (first == 1 && last == 0) || (e.nodeIndex != 0 && exists n: nat :: first * n + last == e.nodeIndex)
  {
    NthMeans(first, last, e.nodeIndex);
  }

  /** The elements that pass or, if negated, do not. */
  ghost function Kept(elems: seq<Node>, first: int, last: int, negated: bool, nodes: set<Node>): seq<Node>
    requires Tree(nodes) && forall e | e in elems :: e in nodes
    reads nodes`parentNode, nodes`childNodes, nodes`nodeIndex
    decreases |elems|
  {
    if elems == [] then []
    else
      var e := elems[|elems| - 1];
      Kept(elems[..|elems| - 1], first, last, negated, nodes) +
      if Passes(e, first, last, nodes) != negated then [e] else []
  }

  /** The list is filtered piece by piece, and each element by itself. */
  lemma {:induction false} KeptInOrder(xs: seq<Node>, ys: seq<Node>, first: int, last: int, negated: bool, nodes: set<Node>)
    requires Tree(nodes) && (forall e | e in xs :: e in nodes) && forall e | e in ys :: e in nodes
    ensures forall e | e in xs + ys :: e in nodes
    ensures Kept(xs + ys, first, last, negated, nodes) ==
            Kept(xs, first, last, negated, nodes) + Kept(ys, first, last, negated, nodes)
    decreases |ys|
  {
    hide Tree, Passes;
    if ys == [] {
      assert xs + ys == xs;
    } else {
      var front := ys[..|ys| - 1];
      KeptInOrder(xs, front, first, last, negated, nodes);
      assert (xs + ys)[..|xs + ys| - 1] == xs + front;
    }
  }

  /** An element that has a place among children is kept alone exactly if one more than the number
      of elements before it is first*n + last for some n, or is not if negated. */
  lemma KeptAlone(e: Node, k: nat, first: int, last: int, negated: bool, nodes: set<Node>)
    requires Tree(nodes) && e in nodes && e.nodeType == ELEMENT && e.parentNode != null
    requires k < |e.parentNode.childNodes| && e.parentNode.childNodes[k] == e
    ensures Kept([e], first, last, negated, nodes) == [e] || Kept([e], first, last, negated, nodes) == []
    ensures Kept([e], first, last, negated, nodes) == [e] <==>
            negated != exists n: nat ::
              first * n + last == 1 + |set j: nat | j < k && e.parentNode.childNodes[j].nodeType == ELEMENT|
  {
    PassesByPlace(e, k, first, last, nodes);
    hide Tree, Passes;
    assert [e][..0] == [];
  }

  /** Filters a list of elements by nth-child under a search number that is new, whatever indices
      and marks earlier searches have left. */
  method FilterNth(curLoop: seq<Node>, first: int, last: int, negated: bool, doneName: int, ghost nodes: set<Node>)
    returns (result: seq<Node>)
    requires Tree(nodes) && Below(nodes, doneName)
    requires forall e | e in curLoop :: e in nodes && e.nodeType == ELEMENT
    modifies nodes`nodeIndex, nodes`sizcache
    ensures Tree(nodes) && result == old(Kept(curLoop, first, last, negated, nodes))
    ensures forall n | n in nodes :: n.sizcache == old(n.sizcache) || n.sizcache == doneName
  {
    hide Tree, Position, Nth;
    result := [];
    var i := 0;
    while i < |curLoop|
      invariant 0 <= i <= |curLoop| && Tree(nodes) && Numbered(doneName, nodes)
      invariant forall n | n in nodes :: n.sizcache == old(n.sizcache) || n.sizcache == doneName
      invariant forall n | n in nodes && n.parentNode == null :: n.nodeIndex == old(n.nodeIndex)
      invariant result == old(Kept(curLoop[..i], first, last, negated, nodes))
    {
      var item := curLoop[i];
      var found := NthChild(item, first, last, doneName, nodes);
      assert curLoop[..i + 1][..i] == curLoop[..i];
      if found != negated {
        result := result + [item];
      }
      i := i + 1;
    }
    assert curLoop[..i] == curLoop;
  }

  // ----- one counter for all searches -------------------------------------------------------------

  /** What stands to the left of a combinator: a plain name, or anything else. */
  datatype Part = Name(name: string) | Other(target: Target)

  /** The selector engine numbers its searches; no node carries a number not yet given out. */
  class Engine {
    var done: int

    constructor ()
      ensures done == 0
    {
      done := 0;
    }

    /** The descendant combinator and the combinator for later siblings. The nested searches take
        the numbers after that of the search, and every mark it changes carries one of these. */
    method Combine(dir: Dir, checkSet: array<Slot>, part: Part, isXML: bool, noise: nat -> map<Node, Mark>,
                   nested: nat, ghost chain: Chain)
      requires Follows(chain, dir) && InTree(checkSet[..], chain) && Below(chain.next.Keys, done)
      requires forall c :: Foreign(noise(c), done, done + 1 + nested, chain)
      modifies this, checkSet, chain.next.Keys`sizcache, chain.next.Keys`sizset
      ensures done > old(done) && Below(chain.next.Keys, done)
      ensures forall n | n in chain.next :: n.sizcache == old(n.sizcache) || old(done) <= n.sizcache < done
      ensures dir.Parent? ==> forall k | 0 <= k < checkSet.Length ::
                checkSet[k] == SearchFor(dir, part, isXML, chain, old(checkSet[..])).Answer(k)
      ensures var s := SearchFor(dir, part, isXML, chain, old(checkSet[..]));
        (forall k | 0 <= k < checkSet.Length :: !s.Exposed(k)) ==>
          forall k | 0 <= k < checkSet.Length :: checkSet[k] == s.Answer(k)
      ensures var s := SearchFor(dir, part, isXML, chain, old(checkSet[..]));
        part.Name? || part.target.Is? ==>
          ((forall k | 0 <= k < checkSet.Length :: checkSet[k] == s.Answer(k)) <==>
            NoneBlind(s, checkSet.Length))
      ensures var s := SearchFor(dir, part, isXML, chain, old(checkSet[..]));
        part.Other? ==> s.InChain() && checkSet[..] == s.Rounds(checkSet.Length, Erased(part.target, noise)).slots
    {
      hide Exact, NoneBlind, Search.Exposed, Search.Answer, Search.Rounds, Foreign;
      var doneName := done;
      done := done + 1;
      ghost var s := SearchFor(dir, part, isXML, chain, checkSet[..]);
      if part.Name? {
        DirNodeCheck(dir, part.name, doneName, checkSet, isXML, chain);
      } else {
        DirCheck(dir, part.target, doneName, checkSet, isXML, noise, doneName + 1 + nested, chain);
        done := done + nested;
      }
      if dir.Parent? {
        forall k | 0 <= k < checkSet.Length ensures !s.Exposed(k) { ParentsAreExact(s, k); }
      }
      ClearIsNotBlind(s);
    }

    /** The nth-child filter. */
    method NthChildFilter(curLoop: seq<Node>, first: int, last: int, negated: bool, ghost nodes: set<Node>)
      returns (result: seq<Node>)
      requires Tree(nodes) && Below(nodes, done)
      requires forall e | e in curLoop :: e in nodes && e.nodeType == ELEMENT
      modifies this, nodes`nodeIndex, nodes`sizcache
      ensures done == old(done) + 1 && Below(nodes, done)
      ensures forall n | n in nodes :: n.sizcache == old(n.sizcache) || old(done) <= n.sizcache < done
      ensures Tree(nodes) && result == old(Kept(curLoop, first, last, negated, nodes))
    {
      var doneName := done;
      done := done + 1;
      result := FilterNth(curLoop, first, last, negated, doneName, nodes);
    }
  }

  ghost function SearchFor(dir: Dir, part: Part, isXML: bool, chain: Chain, starts: seq<Slot>): Search {
    if part.Name? then NameSearch(dir, part.name, isXML, chain, starts)
    else TargetSearch(dir, part.target, isXML, chain, starts)
  }
}
