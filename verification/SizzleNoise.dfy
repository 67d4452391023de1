/** What nested searches can do to the search they are nested in: if some slot is exposed, some
    pattern of overwritten marks makes some slot come out wrong. */
module SizzleNoise {
  import opened SizzleCache

  /** Nested searches with numbers of their own. */
  ghost predicate Allowed(noise: nat -> map<Node, Mark>, doneName: int, next: int, chain: Chain) {
    forall c :: Foreign(noise(c), doneName, next, chain)
  }

  /** Every slot gets its answer under this noise. */
  ghost predicate AllAnswered(s: Search, noise: nat -> map<Node, Mark>)
    requires s.InChain()
  {
    var slots := s.Rounds(|s.starts|, Overwriting(noise)).slots;
    forall k | 0 <= k < |s.starts| :: slots[k] == s.Answer(k)
  }

  ghost function Overwriting(noise: nat -> map<Node, Mark>): (er: Erasure)
    ensures forall c :: er(c) == noise(c).Keys
  {
    (c: nat) => noise(c).Keys
  }

  /** A search for a selector answers every slot under all noise exactly if no slot is exposed,
      given that there can be nested searches at all. */
  lemma ExactOverNoise(s: Search, doneName: int, next: int)
    requires s.InChain() && s.asNode && doneName + 1 < next
    ensures (forall noise | Allowed(noise, doneName, next, s.chain) :: AllAnswered(s, noise)) <==>
            forall k | 0 <= k < |s.starts| :: !s.Exposed(k)
  {
    hide Search.Exposed, Search.Rounds, Search.Answer;
    if forall k | 0 <= k < |s.starts| :: !s.Exposed(k) {
      forall noise | Allowed(noise, doneName, next, s.chain) ensures AllAnswered(s, noise) {
        RoundsAreRight(s, |s.starts|, Overwriting(noise));
      }
    } else {
      var k :| 0 <= k < |s.starts| && s.Exposed(k);
      var noise := SomeNoiseFools(s, k, doneName);
    }
  }

  /** The noise that makes a slot come out wrong. */
  lemma SomeNoiseFools(s: Search, k: nat, doneName: int) returns (noise: nat -> map<Node, Mark>)
    requires s.InChain() && s.asNode && k < |s.starts| && s.Exposed(k)
    ensures forall next | doneName + 1 < next :: Allowed(noise, doneName, next, s.chain)
    ensures !AllAnswered(s, noise)
  {
    hide Search.Exposed, Search.Rounds, Search.Answer;
    var i := FirstExposed(s, k);
    var er := Fooling(s, i);
    noise := (c: nat) => map n | n in s.chain.next && n in er(c) :: Mark(doneName + 1, 0);
    SlotStays(s, i, |s.starts|, er);
    SameRounds(s, |s.starts|, er, Overwriting(noise));
  }

  lemma {:induction false} FirstExposed(s: Search, k: nat) returns (i: nat)
    requires k < |s.starts| && s.Exposed(k)
    ensures i <= k && s.Exposed(i) && forall j | 0 <= j < i :: !s.Exposed(j)
  {
    hide Search.Exposed;
    if j :| 0 <= j < k && s.Exposed(j) {
      i := FirstExposed(s, j);
    } else {
      i := k;
    }
  }

  // ----- rounds under the same erasure ---------------------------------------------------------------

  lemma {:induction false} SameWalk(s: Search, m: Marks, slots: seq<Slot>, i: nat, n: Node?, calls: nat, er: Erasure, other: Erasure)
    requires n != null ==> n in s.chain.next
    requires forall c | calls <= c < s.Walk(m, slots, i, n, calls, er).calls :: er(c) == other(c)
    ensures s.Walk(m, slots, i, n, calls, other) == s.Walk(m, slots, i, n, calls, er)
    ensures s.Walk(m, slots, i, n, calls, er).calls >= calls
    decreases if n == null then 0 else s.chain.depth[n] + 1
  {
    CallsGrow(s, m, slots, i, n, calls, er);
    if n != null && n !in m {
      var now := if n.nodeType == ELEMENT then calls + 1 else calls;
      if n !in s.hits {
        CallsGrow(s, s.Visited(m, i, n, calls, er), slots, i, s.chain.next[n], now, er);
        assert n.nodeType == ELEMENT ==> er(calls) == other(calls);
        SameWalk(s, s.Visited(m, i, n, calls, er), slots, i, s.chain.next[n], now, er, other);
      }
    }
  }

  lemma {:induction false} CallsGrow(s: Search, m: Marks, slots: seq<Slot>, i: nat, n: Node?, calls: nat, er: Erasure)
    requires n != null ==> n in s.chain.next
    ensures s.Walk(m, slots, i, n, calls, er).calls >= calls
    decreases if n == null then 0 else s.chain.depth[n] + 1
  {
    if n != null && n !in m && n !in s.hits {
      CallsGrow(s, s.Visited(m, i, n, calls, er), slots, i, s.chain.next[n],
                if n.nodeType == ELEMENT then calls + 1 else calls, er);
    }
  }

  lemma TurnCalls(s: Search, m: Marks, slots: seq<Slot>, k: nat, calls: nat, er: Erasure)
    requires s.InChain() && k < |s.starts|
    ensures s.Turn(m, slots, k, calls, er).calls >= calls
  {
    if s.starts[k].Found? {
      CallsGrow(s, s.Opened(m, k), slots, k, s.chain.next[s.starts[k].node], calls, er);
    }
  }

  lemma SameTurn(s: Search, m: Marks, slots: seq<Slot>, k: nat, calls: nat, er: Erasure, other: Erasure)
    requires s.InChain() && k < |s.starts|
    requires forall c | calls <= c < s.Turn(m, slots, k, calls, er).calls :: er(c) == other(c)
    ensures s.Turn(m, slots, k, calls, other) == s.Turn(m, slots, k, calls, er)
  {
    if s.starts[k].Found? {
      SameWalk(s, s.Opened(m, k), slots, k, s.chain.next[s.starts[k].node], calls, er, other);
    }
  }

  /** The rounds depend on the erasure only for the calls that there are. */
  lemma {:induction false} SameRounds(s: Search, i: nat, er: Erasure, other: Erasure)
    requires s.InChain() && i <= |s.starts|
    requires forall c | 0 <= c < s.Rounds(i, er).calls :: er(c) == other(c)
    ensures s.Rounds(i, other) == s.Rounds(i, er)
  {
    if i > 0 {
      hide Search.Rounds, Search.Turn;
      RoundsStep(s, i, er);
      RoundsStep(s, i, other);
      var r := s.Rounds(i - 1, er);
      TurnCalls(s, r.marks, r.slots, i - 1, r.calls, er);
      SameRounds(s, i - 1, er, other);
      SameTurn(s, r.marks, r.slots, i - 1, r.calls, er, other);
    } else {
      RoundsStart(s, er);
      RoundsStart(s, other);
    }
  }

  /** A slot that was wrong after its turn stays wrong. */
  lemma {:induction false} SlotStays(s: Search, i: nat, n: nat, er: Erasure)
    requires s.InChain() && i < n <= |s.starts|
    ensures s.Rounds(n, er).slots[i] == s.Rounds(i + 1, er).slots[i]
    decreases n
  {
    if i + 1 < n {
      SlotStays(s, i, n - 1, er);
    }
  }

  // ----- while everything is overwritten ---------------------------------------------------------------

  ghost predicate Inside(s: Search, m: Marks) {
    forall x | x in m :: x in s.chain.next
  }

  /** A walk in which every call overwrites everything leaves the marks as they were, or none. */
  lemma {:induction false} ErasedWalk(s: Search, m: Marks, slots: seq<Slot>, i: nat, n: Node?, calls: nat, er: Erasure)
    requires (n != null ==> n in s.chain.next) && Inside(s, m) && forall c :: er(c) == s.chain.next.Keys
    ensures var o := s.Walk(m, slots, i, n, calls, er); o.marks == m || o.marks == map[]
    decreases if n == null then 0 else s.chain.depth[n] + 1
  {
    if n != null && n !in m {
      VisitErases(s, m, i, n, calls, er);
      if n !in s.hits {
        ErasedWalk(s, s.Visited(m, i, n, calls, er), slots, i, s.chain.next[n],
                   if n.nodeType == ELEMENT then calls + 1 else calls, er);
      }
    }
  }

  lemma VisitErases(s: Search, m: Marks, i: nat, n: Node, calls: nat, er: Erasure)
    requires n in s.chain.next && Inside(s, m) && er(calls) == s.chain.next.Keys
    ensures s.Visited(m, i, n, calls, er) == if n.nodeType == ELEMENT then map[] else m
  {
  }

  /** If it comes to a hit that is an element and meets no mark before, none is left. */
  lemma {:induction false} WalkErases(s: Search, m: Marks, slots: seq<Slot>, i: nat, n: Node?, calls: nat, er: Erasure, h: Node)
    requires (n != null ==> n in s.chain.next) && Inside(s, m) && forall c :: er(c) == s.chain.next.Keys
    requires Hit(n, s.hits, s.chain) == h && h.nodeType == ELEMENT
    requires forall x | x in m :: !OnWay(n, x, s.hits, s.chain)
    ensures s.Walk(m, slots, i, n, calls, er).marks == map[]
    decreases if n == null then 0 else s.chain.depth[n] + 1
  {
    assert OnWay(n, n, s.hits, s.chain);
    VisitErases(s, m, i, n, calls, er);
    if n != h {
      WalkErases(s, s.Visited(m, i, n, calls, er), slots, i, s.chain.next[n],
                 if n.nodeType == ELEMENT then calls + 1 else calls, er, h);
    }
  }

  /** No mark lies on a node from which h is the first hit. */
  ghost predicate Bare(s: Search, m: Marks, h: Node) {
    Inside(s, m) && forall x | x in m :: Hit(x, s.hits, s.chain) != h
  }

  lemma ErasedTurn(s: Search, m: Marks, slots: seq<Slot>, k: nat, calls: nat, er: Erasure, h: Node)
    requires s.InChain() && k < |s.starts| && Bare(s, m, h) && !s.Starts(k, h) && h in s.hits && h.nodeType == ELEMENT
    requires forall c :: er(c) == s.chain.next.Keys
    ensures Bare(s, s.Turn(m, slots, k, calls, er).marks, h)
  {
    if s.starts[k].Found? {
      var e := s.starts[k].node;
      var begun, first := s.Opened(m, k), s.chain.next[e];
      if begun != m && Hit(e, s.hits, s.chain) == h {
        forall x | x in begun ensures !OnWay(first, x, s.hits, s.chain) {
          if OnWay(first, x, s.hits, s.chain) { SameHitOnWay(first, x, s.hits, s.chain); }
        }
        WalkErases(s, begun, slots, k, first, calls, er, h);
      } else {
        ErasedWalk(s, begun, slots, k, first, calls, er);
      }
    }
  }

  lemma {:induction false} ErasedRounds(s: Search, j: nat, er: Erasure, h: Node)
    requires s.InChain() && j <= |s.starts| && h in s.hits && h.nodeType == ELEMENT
    requires (forall c :: er(c) == s.chain.next.Keys) && forall k | 0 <= k < j :: !s.Starts(k, h)
    ensures Bare(s, s.Rounds(j, er).marks, h)
  {
    if j > 0 {
      hide Search.Rounds, Search.Turn, Bare;
      RoundsStep(s, j, er);
      ErasedRounds(s, j - 1, er, h);
      var r := s.Rounds(j - 1, er);
      ErasedTurn(s, r.marks, r.slots, j - 1, r.calls, er, h);
    } else {
      RoundsStart(s, er);
    }
  }

  // ----- while nothing is overwritten --------------------------------------------------------------------

  ghost predicate Silent(er: Erasure, calls: nat) {
    forall c | c >= calls :: er(c) == {}
  }

  /** Two sets of marks agree on the nodes from which h is the first hit. */
  ghost predicate AgreeAt(s: Search, m: Marks, m': Marks, h: Node) {
    forall x | x in s.chain.next && Hit(x, s.hits, s.chain) == h ::
      (x in m <==> x in m') && (x in m ==> m'[x] == m[x])
  }

  /** A walk that does not lead to h leaves the marks at h alone. */
  lemma {:induction false} SilentWalk(s: Search, m: Marks, slots: seq<Slot>, i: nat, n: Node?, calls: nat, er: Erasure, h: Node)
    requires (n != null ==> n in s.chain.next) && Inside(s, m) && Silent(er, calls) && Hit(n, s.hits, s.chain) != h
    ensures var o := s.Walk(m, slots, i, n, calls, er);
      o.calls >= calls && Inside(s, o.marks) && AgreeAt(s, m, o.marks, h)
    decreases if n == null then 0 else s.chain.depth[n] + 1
  {
    if n != null && n !in m {
      var left := s.Visited(m, i, n, calls, er);
      assert AgreeAt(s, m, left, h);
      if n !in s.hits {
        SilentWalk(s, left, slots, i, s.chain.next[n], if n.nodeType == ELEMENT then calls + 1 else calls, er, h);
      }
    }
  }

  /** A walk that leads to h, and meets no mark before, stops at the mark of h. */
  lemma {:induction false} WalkStopsAt(s: Search, m: Marks, slots: seq<Slot>, i: nat, n: Node?, calls: nat, er: Erasure, h: Node)
    requires (n != null ==> n in s.chain.next) && Silent(er, calls) && Hit(n, s.hits, s.chain) == h
    requires h in m && m[h] < |slots| && forall x | x in m && OnWay(n, x, s.hits, s.chain) :: x == h
    ensures s.Walk(m, slots, i, n, calls, er).found == slots[m[h]]
    decreases if n == null then 0 else s.chain.depth[n] + 1
  {
    assert OnWay(n, n, s.hits, s.chain);
    if n != h {
      var left := s.Visited(m, i, n, calls, er);
      assert left == m + s.Trace({n}, i);
      WalkStopsAt(s, left, slots, i, s.chain.next[n], if n.nodeType == ELEMENT then calls + 1 else calls, er, h);
    }
  }

  /** h is marked as the node of a slot before k, and no other node from which it is the first hit is. */
  ghost predicate OnlyStart(s: Search, m: Marks, k: nat, h: Node) {
    && Inside(s, m) && h in m && s.Starts(m[h], h) && m[h] < k
    && forall x | x in m && Hit(x, s.hits, s.chain) == h :: x == h
  }

  /** The turn of the first slot of h. */
  lemma StartTurn(s: Search, m: Marks, slots: seq<Slot>, k: nat, calls: nat, er: Erasure, h: Node)
    requires s.InChain() && k < |s.starts| && s.Starts(k, h) && h in s.hits && h.nodeType == ELEMENT
    requires s.dir.Sibling? && s.marking && Silent(er, calls)
    requires Bare(s, m, h) || OnlyStart(s, m, k, h)
    ensures var t := s.Turn(m, slots, k, calls, er); t.calls >= calls && OnlyStart(s, t.marks, k + 1, h)
  {
    var begun := s.Opened(m, k);
    assert OnlyStart(s, begun, k + 1, h);
    SilentWalk(s, begun, slots, k, s.chain.next[h], calls, er, h);
  }

  /** The turn of a slot that does not lead to h. */
  lemma OtherTurn(s: Search, m: Marks, slots: seq<Slot>, k: nat, calls: nat, er: Erasure, h: Node)
    requires s.InChain() && k < |s.starts| && !s.Starts(k, h) && s.After(k) != h && h in s.hits
    requires Silent(er, calls) && OnlyStart(s, m, k, h)
    ensures var t := s.Turn(m, slots, k, calls, er); t.calls >= calls && OnlyStart(s, t.marks, k + 1, h)
  {
    if s.starts[k].Found? {
      var begun := s.Opened(m, k);
      assert OnlyStart(s, begun, k + 1, h);
      SilentWalk(s, begun, slots, k, s.chain.next[s.starts[k].node], calls, er, h);
    }
  }

  /** From the turn of the first slot of h to that of the first exposed one. */
  lemma {:induction false} SilentRounds(s: Search, j: nat, k: nat, er: Erasure, h: Node)
    requires s.InChain() && j < k <= |s.starts| && s.Starts(j, h) && h in s.hits && h.nodeType == ELEMENT
    requires s.dir.Sibling? && s.marking && forall i | 0 <= i < k :: !s.Exposed(i)
    requires Silent(er, s.Rounds(j, er).calls) && Bare(s, s.Rounds(j, er).marks, h)
    ensures s.Rounds(k, er).calls >= s.Rounds(j, er).calls && OnlyStart(s, s.Rounds(k, er).marks, k, h)
    decreases k
  {
    hide Search.Rounds, Search.Turn, Bare, OnlyStart;
    RoundsStep(s, k, er);
    var r := s.Rounds(k - 1, er);
    if k - 1 == j {
      StartTurn(s, r.marks, r.slots, j, r.calls, er, h);
    } else {
      SilentRounds(s, j, k - 1, er, h);
      if s.Starts(k - 1, h) {
        StartTurn(s, r.marks, r.slots, k - 1, r.calls, er, h);
      } else {
        assert s.Taken(h, k - 1) && !s.Exposed(k - 1);
        OtherTurn(s, r.marks, r.slots, k - 1, r.calls, er, h);
      }
    }
  }

  // ----- the erasure that fools a slot ---------------------------------------------------------------------

  /** Everything is overwritten until the turn of the first slot of h, and nothing after that. */
  lemma Fooling(s: Search, i: nat) returns (er: Erasure)
    requires s.InChain() && s.asNode && i < |s.starts| && s.Exposed(i) && forall k | 0 <= k < i :: !s.Exposed(k)
    ensures forall c :: er(c) <= s.chain.next.Keys
    ensures s.Rounds(i + 1, er).slots[i] != s.Answer(i)
  {
    var h := s.After(i);
    var j := FirstSlotOf(s, h, i);
    var all: Erasure := (c: nat) => s.chain.next.Keys;
    var calls := s.Rounds(j, all).calls;
    er := (c: nat) => if c < calls then s.chain.next.Keys else {};
    ErasedRounds(s, j, all, h);
    SameRounds(s, j, all, er);
    SilentRounds(s, j, i, er, h);
    RoundsAreRight(s, i, er);
    Fooled(s, i, er, h);
  }

  lemma {:induction false} FirstSlotOf(s: Search, h: Node, i: nat) returns (j: nat)
    requires s.Taken(h, i)
    ensures j < i && s.Starts(j, h) && forall k | 0 <= k < j :: !s.Starts(k, h)
  {
    var k :| 0 <= k < i && s.Starts(k, h);
    if s.Taken(h, k) {
      j := FirstSlotOf(s, h, k);
    } else {
      j := k;
    }
  }

  lemma Fooled(s: Search, i: nat, er: Erasure, h: Node)
    requires s.InChain() && s.asNode && i < |s.starts| && s.starts[i].Found? && s.After(i) == h
    requires var r := s.Rounds(i, er);
      OnlyStart(s, r.marks, i, h) && Silent(er, r.calls) && Answered(s, r.marks, r.slots, i)
    ensures s.Rounds(i + 1, er).slots[i] != s.Answer(i)
  {
    hide Search.Rounds, Search.Walk;
    RoundsStep(s, i + 1, er);
    var r, e := s.Rounds(i, er), s.starts[i].node;
    var begun, first := s.Opened(r.marks, i), s.chain.next[e];
    forall x | x in begun && OnWay(first, x, s.hits, s.chain) ensures x == h {
      SameHitOnWay(first, x, s.hits, s.chain);
    }
    WalkStopsAt(s, begun, r.slots, i, first, r.calls, er, h);
  }
}
