/** The order of the scene's lists: objects enter and leave them in the order in which a subtree is
    visited, new ones at the end, and what stays keeps its place among the others. */
module SceneLaws {
  import opened Common
  import opened SceneGraph

  // ----- the order of a visit ---------------------------------------------------------------

  /** x is below the child with number i of p, or is it. */
  ghost predicate InBranch(t: Tree, p: Object3D, i: int, x: Object3D)
    requires WellFormed(t) && x in t.up
  {
    p in t.up && 0 <= i < |t.down[p]| && Under(t, x, t.down[p][i])
  }

  /** x is visited before y: it is above y, or in an earlier branch of an object above both. */
  ghost predicate Precedes(t: Tree, x: Object3D, y: Object3D)
    requires WellFormed(t) && x in t.up && y in t.up
  {
    || (x != y && Under(t, y, x))
    || exists p, i, j :: p in t.up && i < j && InBranch(t, p, i, x) && InBranch(t, p, j, y)
  }

  lemma SiblingsApart(t: Tree, p: Object3D, i: int, j: int, o: Object3D)
    requires WellFormed(t) && o in t.up && InBranch(t, p, i, o) && InBranch(t, p, j, o)
    ensures i == j
  {
    var x, y := t.down[p][i], t.down[p][j];
    NestedOrApart(t, o, x, y);
    if x != y {
      NotUnderParent(t, p, x);
      NotUnderParent(t, p, y);
    }
  }

  lemma BranchOf(t: Tree, x: Object3D, p: Object3D) returns (i: int)
    requires WellFormed(t) && x in t.up && p in t.up && Under(t, x, p) && x != p
    ensures InBranch(t, p, i, x)
  {
    SubtreeIsBranches(t, p, x);
    i :| 0 <= i < |t.down[p]| && Under(t, x, t.down[p][i]);
  }

  lemma InBranchIsUnder(t: Tree, p: Object3D, i: int, x: Object3D)
    requires WellFormed(t) && x in t.up && InBranch(t, p, i, x)
    ensures Under(t, x, p) && x != p
  {
    assert x in Branches(t, p, |t.down[p]|);
    SubtreeIsBranches(t, p, x);
    if x == p { NotUnderParent(t, p, t.down[p][i]); }
  }

  lemma BranchAbove(t: Tree, x: Object3D, y: Object3D, p: Object3D, i: int)
    requires WellFormed(t) && x in t.up && y in t.up && Under(t, y, x) && InBranch(t, p, i, x)
    ensures InBranch(t, p, i, y)
  {
    UnderTransitive(t, y, x, t.down[p][i]);
  }

  /** Nothing is visited before itself, and no two objects before each other. */
  lemma PrecedesOneWay(t: Tree, x: Object3D, y: Object3D)
    requires WellFormed(t) && x in t.up && y in t.up && Precedes(t, x, y)
    ensures x != y && !Precedes(t, y, x)
  {
    hide Under, InBranch, WellFormed;
    if x != y && Under(t, y, x) {
      AboveIsFirst(t, x, y);
    } else {
      var p, i, j :| i < j && InBranch(t, p, i, x) && InBranch(t, p, j, y);
      if x == y { SiblingsApart(t, p, i, j, x); }
      if y != x && Under(t, x, y) { AboveIsFirst(t, y, x); }
      forall q, k, l | k < l && InBranch(t, q, k, y) && InBranch(t, q, l, x) ensures false {
        BranchesCross(t, x, y, p, i, j, q, k, l);
      }
    }
  }

  lemma AboveIsFirst(t: Tree, x: Object3D, y: Object3D)
    requires WellFormed(t) && x in t.up && y in t.up && x != y && Under(t, y, x)
    ensures !Under(t, x, y)
    ensures forall p, i, j | InBranch(t, p, i, x) && InBranch(t, p, j, y) :: i == j
  {
    if Under(t, x, y) {
      BelowIsHigher(t, x, y);
      BelowIsHigher(t, y, x);
    }
    forall p, i, j | InBranch(t, p, i, x) && InBranch(t, p, j, y) ensures i == j {
      BranchAbove(t, x, y, p, i);
      SiblingsApart(t, p, i, j, y);
    }
  }

  lemma BranchesCross(t: Tree, x: Object3D, y: Object3D, p: Object3D, i: int, j: int, q: Object3D, k: int, l: int)
    requires WellFormed(t) && x in t.up && y in t.up
    requires i < j && InBranch(t, p, i, x) && InBranch(t, p, j, y)
    requires InBranch(t, q, k, y) && InBranch(t, q, l, x)
    ensures k >= l
  {
    hide Under;
    InBranchIsUnder(t, p, i, x);
    InBranchIsUnder(t, q, l, x);
    NestedOrApart(t, x, p, q);
    if p == q {
      SiblingsApart(t, p, i, l, x);
      SiblingsApart(t, p, j, k, y);
    } else if Under(t, p, q) {
      SameBranch(t, x, y, p, i, j, q, k, l);
    } else {
      SameBranch(t, x, y, q, l, k, p, i, j);
    }
  }

  /** Seen from q, everything below p is in one branch. */
  lemma SameBranch(t: Tree, x: Object3D, y: Object3D, p: Object3D, i: int, j: int, q: Object3D, k: int, l: int)
    requires WellFormed(t) && x in t.up && y in t.up && p in t.up && p != q && q in t.up && Under(t, p, q)
    requires InBranch(t, p, i, x) && InBranch(t, p, j, y)
    requires (InBranch(t, q, k, y) && InBranch(t, q, l, x)) || (InBranch(t, q, l, y) && InBranch(t, q, k, x))
    ensures k == l
  {
    hide Under, InBranch;
    var m := BranchOf(t, p, q);
    InBranchIsUnder(t, p, i, x);
    InBranchIsUnder(t, p, j, y);
    BranchAbove(t, p, x, q, m);
    BranchAbove(t, p, y, q, m);
    if InBranch(t, q, k, y) && InBranch(t, q, l, x) {
      SiblingsApart(t, q, m, k, y);
      SiblingsApart(t, q, m, l, x);
    } else {
      SiblingsApart(t, q, m, l, y);
      SiblingsApart(t, q, m, k, x);
    }
  }

  ghost predicate Visits(t: Tree, s: seq<Object3D>)
    requires WellFormed(t) && forall o | o in s :: o in t.up
  {
    forall i, j | 0 <= i < j < |s| :: Precedes(t, s[i], s[j])
  }

  lemma PreorderInTree(t: Tree, a: Object3D)
    requires WellFormed(t) && a in t.up
    ensures forall o | o in Preorder(t, a) :: o in t.up && Under(t, o, a)
    ensures forall o | o in t.up && Under(t, o, a) :: o in Preorder(t, a)
  {
    PreorderIsSubtree(t, a);
    assert forall o :: o in Preorder(t, a) <==> o in Elements(Preorder(t, a));
    assert forall o :: o in Subtree(t, a) <==> o in t.up && Under(t, o, a);
  }

  lemma PreordersInTree(t: Tree, a: Object3D, n: nat)
    requires WellFormed(t) && a in t.up && n <= |t.down[a]|
    ensures forall o | o in Preorders(t, a, n) :: o in t.up && exists i :: i < n && InBranch(t, a, i, o)
  {
    PreordersAreBranches(t, a, n);
    forall o | o in Preorders(t, a, n) ensures o in t.up && exists i :: i < n && InBranch(t, a, i, o) {
      assert o in Elements(Preorders(t, a, n));
      assert o in Branches(t, a, n);
      var i :| 0 <= i < n && Under(t, o, t.down[a][i]);
      assert InBranch(t, a, i, o);
    }
  }

  lemma {:induction false} PreorderVisits(t: Tree, a: Object3D)
    requires WellFormed(t) && a in t.up
    ensures forall o | o in Preorder(t, a) :: o in t.up
    ensures Visits(t, Preorder(t, a))
    decreases |Subtree(t, a)|, |t.down[a]| + 1
  {
    var n := |t.down[a]|;
    PreorderInTree(t, a);
    PreordersInTree(t, a, n);
    PreordersVisit(t, a, n);
    var rest := Preorders(t, a, n);
    assert Preorder(t, a) == [a] + rest;
    hide Under, InBranch, Preorder, Preorders, Subtree, WellFormed, Precedes;
    forall j | 0 <= j < |rest| ensures Precedes(t, a, rest[j]) {
      assert rest[j] in rest;
      var i :| i < n && InBranch(t, a, i, rest[j]);
      InBranchIsUnder(t, a, i, rest[j]);
      FirstAbove(t, a, rest[j]);
    }
    VisitsTogether(t, [a], rest);
  }

  lemma FirstAbove(t: Tree, x: Object3D, y: Object3D)
    requires WellFormed(t) && x in t.up && y in t.up && x != y && Under(t, y, x)
    ensures Precedes(t, x, y)
  {
  }

  lemma EarlierBranch(t: Tree, p: Object3D, i: int, j: int, x: Object3D, y: Object3D)
    requires WellFormed(t) && x in t.up && y in t.up && p in t.up
    requires i < j && InBranch(t, p, i, x) && InBranch(t, p, j, y)
    ensures Precedes(t, x, y)
  {
  }

  lemma VisitsTogether(t: Tree, s: seq<Object3D>, r: seq<Object3D>)
    requires WellFormed(t) && (forall o | o in s :: o in t.up) && forall o | o in r :: o in t.up
    requires Visits(t, s) && Visits(t, r)
    requires forall i, j | 0 <= i < |s| && 0 <= j < |r| :: Precedes(t, s[i], r[j])
    ensures forall o | o in s + r :: o in t.up
    ensures Visits(t, s + r)
  {
    hide Precedes, WellFormed;
  }

  lemma {:induction false} PreordersVisit(t: Tree, a: Object3D, n: nat)
    requires WellFormed(t) && a in t.up && n <= |t.down[a]|
    ensures forall o | o in Preorders(t, a, n) :: o in t.up
    ensures Visits(t, Preorders(t, a, n))
    decreases |Subtree(t, a)|, n
  {
    hide Under, Subtree, Precedes, InBranch;
    PreordersInTree(t, a, n);
    if n > 0 {
      var c := t.down[a][n - 1];
      ChildSubtree(t, a, n - 1);
      PreordersVisit(t, a, n - 1);
      PreorderVisits(t, c);
      LastBranch(t, a, n);
      var s, r := Preorders(t, a, n - 1), Preorder(t, c);
      assert Preorders(t, a, n) == s + r;
      hide WellFormed, Visits, Preorder, Preorders;
      VisitsTogether(t, s, r);
    }
  }

  lemma LastBranch(t: Tree, a: Object3D, n: nat)
    requires WellFormed(t) && a in t.up && 0 < n <= |t.down[a]|
    ensures t.down[a][n - 1] in t.up
    ensures forall o | o in Preorders(t, a, n - 1) :: o in t.up
    ensures forall o | o in Preorder(t, t.down[a][n - 1]) :: o in t.up
    ensures var s, r := Preorders(t, a, n - 1), Preorder(t, t.down[a][n - 1]);
      forall i, j | 0 <= i < |s| && 0 <= j < |r| :: Precedes(t, s[i], r[j])
  {
    var c := t.down[a][n - 1];
    PreordersInTree(t, a, n - 1);
    PreorderInTree(t, c);
    var s, r := Preorders(t, a, n - 1), Preorder(t, c);
    hide Under, Preorder, Preorders, Precedes;
    forall i, j | 0 <= i < |s| && 0 <= j < |r| ensures Precedes(t, s[i], r[j]) {
      assert s[i] in s && r[j] in r;
      var k :| k < n - 1 && InBranch(t, a, k, s[i]);
      assert InBranch(t, a, n - 1, r[j]);
      EarlierBranch(t, a, k, n - 1, s[i], r[j]);
    }
  }

  lemma VisitsOnce(t: Tree, s: seq<Object3D>)
    requires WellFormed(t) && (forall o | o in s :: o in t.up) && Visits(t, s)
    ensures NoRepeats(s)
  {
    hide WellFormed, Precedes;
    forall i, j | 0 <= i < j < |s| ensures s[i] != s[j] {
      PrecedesOneWay(t, s[i], s[j]);
    }
  }

  /** Lists that visit the same objects are equal. */
  lemma {:induction false} SameVisits(t: Tree, s: seq<Object3D>, r: seq<Object3D>)
    requires WellFormed(t) && (forall o | o in s :: o in t.up) && forall o | o in r :: o in t.up
    requires Visits(t, s) && Visits(t, r) && forall o | o in t.up :: o in s <==> o in r
    ensures s == r
    decreases |s|
  {
    hide WellFormed, Precedes;
    if r != [] {
      assert r[0] in s;
    }
    if s != [] {
      assert s[0] in r && r != [] && r[0] in s;
      if s[0] != r[0] {
        var i :| 0 <= i < |r| && r[i] == s[0];
        var j :| 0 <= j < |s| && s[j] == r[0];
        PrecedesOneWay(t, s[0], r[0]);
        assert false;
      }
      VisitsOnce(t, s);
      VisitsOnce(t, r);
      forall o | o in t.up ensures o in s[1..] <==> o in r[1..] {
        WithoutHead(s, o);
        WithoutHead(r, o);
      }
      SameVisits(t, s[1..], r[1..]);
      assert s == [s[0]] + s[1..] && r == [r[0]] + r[1..];
    }
  }

  lemma WithoutHead(s: seq<Object3D>, o: Object3D)
    requires s != [] && NoRepeats(s)
    ensures o in s[1..] <==> o in s && o != s[0]
  {
    assert s == [s[0]] + s[1..];
  }

  /** A visit lists everything below a once, what is above before what is below, and an earlier
      branch before a later one; no other list does. */
  lemma PreorderExactly(t: Tree, a: Object3D, s: seq<Object3D>)
    requires WellFormed(t) && a in t.up
    ensures NoRepeats(Preorder(t, a))
    ensures s == Preorder(t, a) <==>
              && (forall o | o in s :: o in t.up && Under(t, o, a))
              && (forall o | o in t.up && Under(t, o, a) :: o in s)
              && forall i, j | 0 <= i < j < |s| :: Precedes(t, s[i], s[j])
  {
    PreorderInTree(t, a);
    PreorderVisits(t, a);
    hide WellFormed, Under, Precedes, Preorder;
    VisitsOnce(t, Preorder(t, a));
    if && (forall o | o in s :: o in t.up && Under(t, o, a))
       && (forall o | o in t.up && Under(t, o, a) :: o in s)
       && forall i, j | 0 <= i < j < |s| :: Precedes(t, s[i], s[j]) {
      SameVisits(t, s, Preorder(t, a));
    }
  }

  // ----- the order of the lists ---------------------------------------------------------------

  /** What a scene lists as an object: everything but lights, cameras and bones. */
  lemma IndexedExactly(o: Object3D)
    ensures Indexed(o) <==> o.kind in {Group, Drawable, Sprite, SceneRoot}
  {
  }

  /** At the end of the list have come exactly these, in the order of s; what was there is untouched. */
  ghost predicate Appended(was: seq<Object3D>, now: seq<Object3D>, s: seq<Object3D>, these: set<Object3D>) {
    && was <= now
    && (forall o | o in s :: o in now[|was|..] <==> o in these)
    && (forall o | o in now[|was|..] :: o in s)
    && NoRepeats<Object3D>(now[|was|..]) && SameOrder<Object3D>(s, now[|was|..])
  }

  lemma AppendedMore(was: seq<Object3D>, now: seq<Object3D>, front: seq<Object3D>, last: Object3D,
                     these: set<Object3D>, those: set<Object3D>)
    requires NoRepeats<Object3D>(front + [last]) && Appended(was, now, front, these)
    requires forall o | o in front :: o in these <==> o in those
    ensures last in those ==> Appended(was, now + [last], front + [last], those)
    ensures last !in those ==> Appended(was, now, front + [last], those)
  {
    var came := now[|was|..];
    assert (now + [last])[|was|..] == came + [last];
    NotInFront(front, last);
    OrderGrows<Object3D>(front, last, came);
    hide SameOrder;
  }

  lemma NotInFront(front: seq<Object3D>, last: Object3D)
    requires NoRepeats<Object3D>(front + [last])
    ensures last !in front && NoRepeats<Object3D>(front)
  {
    var s := front + [last];
    assert s[|front|] == last;
    assert forall i | 0 <= i < |front| :: s[i] == front[i];
  }

  lemma NothingAppended(was: seq<Object3D>)
    ensures Appended(was, was, [], {})
  {
  }

  /** The lists after the objects of s have come, one after the other. */
  ghost predicate CameInOrder(l: Lists, r: Lists, s: seq<Object3D>) {
    && Appended(l.objects, r.objects, s, set o | o in s && Indexed(o) && o !in l.objects)
    && Appended(l.added, r.added, s, set o | o in s && Indexed(o) && o !in l.objects)
    && Appended(l.lights, r.lights, s, set o | o in s && o.kind.Light? && o !in l.lights)
  }

  lemma OneMoreCame(l: Lists, r: Lists, front: seq<Object3D>, last: Object3D)
    requires NoRepeats<Object3D>(front + [last]) && CameInOrder(l, r, front)
    ensures CameInOrder(l, r.Add(last), front + [last])
  {
    var s := front + [last];
    var objects := set o | o in s && Indexed(o) && o !in l.objects;
    var lights := set o | o in s && o.kind.Light? && o !in l.lights;
    NotInFront(front, last);
    AppendedHas(l.objects, r.objects, front, last);
    AppendedHas(l.lights, r.lights, front, last);
    hide Appended, NoRepeats;
    assert last in s && forall o | o in front :: o in s;
    AppendedMore(l.objects, r.objects, front, last, (set o | o in front && Indexed(o) && o !in l.objects), objects);
    AppendedMore(l.added, r.added, front, last, (set o | o in front && Indexed(o) && o !in l.objects), objects);
    AppendedMore(l.lights, r.lights, front, last, (set o | o in front && o.kind.Light? && o !in l.lights), lights);
  }

  /** Adding a visited subtree: its objects and lights come to the ends of the lists in the order of
      the visit, and those that were there stay where they are. */
  lemma {:induction false} AddAllInOrder(l: Lists, s: seq<Object3D>)
    requires NoRepeats<Object3D>(s)
    ensures CameInOrder(l, l.AddAll(s), s)
    decreases |s|
  {
    if s == [] {
      NothingAppended(l.objects);
      NothingAppended(l.added);
      NothingAppended(l.lights);
    } else {
      var front, last := s[..|s| - 1], s[|s| - 1];
      assert s == front + [last];
      NotInFront(front, last);
      hide CameInOrder;
      AddAllInOrder(l, front);
      OneMoreCame(l, l.AddAll(front), front, last);
    }
  }

  lemma AppendedHas(was: seq<Object3D>, now: seq<Object3D>, front: seq<Object3D>, last: Object3D)
    requires was <= now && last !in front && forall o | o in now[|was|..] :: o in front
    ensures last in now <==> last in was
  {
    assert now == was + now[|was|..];
  }

  /** What is left of a list, in its order. */
  ghost predicate Thinned(was: seq<Object3D>, now: seq<Object3D>) {
    (forall o | o in now :: o in was) && SameOrder<Object3D>(was, now)
  }

  lemma ThinnedMore(was: seq<Object3D>, now: seq<Object3D>, x: Object3D)
    requires Thinned(was, now)
    ensures Thinned(was, WithoutFirst<Object3D>(now, x))
    ensures forall o | o in now && o != x :: o in WithoutFirst<Object3D>(now, x)
  {
    var k := IndexOf<Object3D>(now, x);
    if k >= 0 {
      var less := now[..k] + now[k + 1..];
      assert forall i | 0 <= i < |less| :: less[i] == if i < k then now[i] else now[i + 1];
      forall o | o in now && o != x ensures o in less {
        var i :| 0 <= i < |now| && now[i] == o;
        assert less[if i < k then i else i - 1] == o;
      }
    }
  }

  lemma ThinnedNothing(was: seq<Object3D>)
    requires NoRepeats<Object3D>(was)
    ensures Thinned(was, was)
  {
  }

  /** The lists after the objects of s have gone, one after the other. */
  ghost predicate WentInOrder(l: Lists, r: Lists, s: seq<Object3D>) {
    && Appended(l.removed, r.removed, s, set o | o in s && !o.kind.Light? && !o.kind.Camera? && o in l.objects)
    && Thinned(l.objects, r.objects) && Thinned(l.lights, r.lights) && Thinned(l.added, r.added)
    && forall o | o in l.objects && o !in s :: o in r.objects
  }

  lemma OneMoreWent(l: Lists, r: Lists, front: seq<Object3D>, last: Object3D)
    requires NoRepeats<Object3D>(front + [last]) && WentInOrder(l, r, front)
    ensures WentInOrder(l, r.Remove(last), front + [last])
  {
    ThinnedMore(l.objects, r.objects, last);
    ThinnedMore(l.lights, r.lights, last);
    ThinnedMore(l.added, r.added, last);
    OneMoreQueued(l, r, front, last);
    hide Appended, NoRepeats, SameOrder, WithoutFirst;
    assert last in front + [last] && forall o | o in front :: o in front + [last];
  }

  lemma OneMoreQueued(l: Lists, r: Lists, front: seq<Object3D>, last: Object3D)
    requires NoRepeats<Object3D>(front + [last]) && WentInOrder(l, r, front)
    ensures var s := front + [last];
      Appended(l.removed, r.Remove(last).removed, s, set o | o in s && !o.kind.Light? && !o.kind.Camera? && o in l.objects)
  {
    hide Appended, SameOrder, WithoutFirst;
    NotInFront(front, last);
    hide NoRepeats;
    var s := front + [last];
    var gone := set o | o in s && !o.kind.Light? && !o.kind.Camera? && o in l.objects;
    assert last in s && forall o | o in front :: o in s;
    assert last in r.objects <==> last in l.objects;
    AppendedMore(l.removed, r.removed, front, last,
                 (set o | o in front && !o.kind.Light? && !o.kind.Camera? && o in l.objects), gone);
  }

  /** Removing a visited subtree: its objects come to the end of the queue of removed ones in the
      order of the visit, and what is left of the other lists keeps its order. */
  lemma {:induction false} RemoveAllInOrder(l: Lists, s: seq<Object3D>)
    requires NoRepeats<Object3D>(s) && l.NoneTwice()
    ensures WentInOrder(l, l.RemoveAll(s), s)
    decreases |s|
  {
    if s == [] {
      NothingAppended(l.removed);
      ThinnedNothing(l.objects);
      ThinnedNothing(l.lights);
      ThinnedNothing(l.added);
    } else {
      var front, last := s[..|s| - 1], s[|s| - 1];
      assert s == front + [last];
      NotInFront(front, last);
      hide WentInOrder, Lists.NoneTwice;
      RemoveAllInOrder(l, front);
      OneMoreWent(l, l.RemoveAll(front), front, last);
    }
  }

  /** Coming back takes an object out of the queue of removed ones, and leaves that in order. */
  lemma {:induction false} AddAllThins(l: Lists, s: seq<Object3D>)
    requires NoRepeats<Object3D>(l.removed)
    ensures Thinned(l.removed, l.AddAll(s).removed)
    decreases |s|
  {
    if s == [] {
      ThinnedNothing(l.removed);
    } else {
      AddAllThins(l, s[..|s| - 1]);
      hide Thinned, Lists.AddAll, WithoutFirst;
      ThinnedMore(l.removed, l.AddAll(s[..|s| - 1]).removed, s[|s| - 1]);
    }
  }

  /** The whole of it for a subtree: when a is put below p in the scene, what lies below a comes to
      the ends of the lists in the order of a visit; when it is taken out, it is queued in that order. */
  lemma SubtreeInOrder(l: Lists, t: Tree, a: Object3D)
    requires WellFormed(t) && a in t.up && l.NoneTwice()
    ensures CameInOrder(l, l.AddAll(Preorder(t, a)), Preorder(t, a))
    ensures WentInOrder(l, l.RemoveAll(Preorder(t, a)), Preorder(t, a))
  {
    PreorderExactly(t, a, Preorder(t, a));
    hide Lists.NoneTwice, CameInOrder, WentInOrder, Precedes, Under, Preorder, WellFormed;
    AddAllInOrder(l, Preorder(t, a));
    RemoveAllInOrder(l, Preorder(t, a));
  }

  // ----- the order of the renderer's lists ------------------------------------------------------

  /** The last object of the queue is put at the end of its list, unless it is active or was queued
      before; the lists only grow. */
  lemma {:induction false} PutInOrder(d: Drawn, active: set<Object3D>, queue: seq<Object3D>, h: Object3D)
    ensures AllPut(d, active, queue + [h]) ==
            if h in active || h in queue then AllPut(d, active, queue) else AllPut(d, active, queue).Put(h)
    ensures var r := AllPut(d, active, queue);
      d.objects <= r.objects && d.immediate <= r.immediate && d.sprites <= r.sprites
    decreases |queue|
  {
    hide Drawn.Put;
    if queue == [] {
      assert queue + [h] == [h] && [h][1..] == [];
    } else {
      var first := queue[0];
      assert (queue + [h])[1..] == queue[1..] + [h] && queue == [first] + queue[1..];
      PutGrows(d, first);
      PutInOrder(if first in active then d else d.Put(first), active + {first}, queue[1..], h);
    }
  }

  lemma PutGrows(d: Drawn, h: Object3D)
    ensures d.objects <= d.Put(h).objects && d.immediate <= d.Put(h).immediate && d.sprites <= d.Put(h).sprites
  {
  }
}
