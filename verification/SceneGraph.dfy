/** The scene graph: objects with parents and children, the scene's lists of the objects and
    lights below it, and the queues from which the renderer updates its own list. */
module SceneGraph {
  import opened Common

  datatype Kind = Light | Camera | Bone | Group | Drawable | Sprite | SceneRoot

  /** What addObject puts into scene.objects. The scene itself is never a child. */
  predicate Indexed(o: Object3D) {
    !o.kind.Light? && !o.kind.Camera? && !o.kind.Bone?
  }

  // ----- trees as values ----------------------------------------------------------------

  /** Parent and children of every object, and a level that grows from parent to child. */
  datatype Tree = Tree(up: map<Object3D, Object3D?>, down: map<Object3D, seq<Object3D>>, level: map<Object3D, nat>)

  ghost predicate WellFormed(t: Tree) {
    && t.up.Keys == t.down.Keys == t.level.Keys
    && (forall o | o in t.up :: IsRoot(t, o) || IsChild(t, o, t.up[o]))
    && (forall p, i | p in t.up && 0 <= i < |t.down[p]| :: t.down[p][i] in t.up && t.up[t.down[p][i]] == p)
    && (forall p | p in t.up :: NoRepeats(t.down[p]))
  }

  ghost predicate IsRoot(t: Tree, o: Object3D)
    requires o in t.up
  {
    t.up[o] == null
  }

  ghost predicate IsChild(t: Tree, o: Object3D, p: Object3D)
    requires t.up.Keys == t.down.Keys == t.level.Keys && o in t.up
  {
    p in t.up && t.level[p] < t.level[o] && o in t.down[p]
  }

  function Elements<T>(s: seq<T>): set<T> {
    set x | x in s
  }

  /** Object o is a, or lies below it. */
  ghost predicate Under(t: Tree, o: Object3D, a: Object3D)
    requires WellFormed(t) && o in t.up
    decreases t.level[o]
  {
    o == a || (!IsRoot(t, o) && Under(t, t.up[o], a))
  }

  ghost function Subtree(t: Tree, a: Object3D): set<Object3D>
    requires WellFormed(t)
  {
    set o | o in t.up && Under(t, o, a)
  }

  /** The subtrees of the first n children of a. */
  ghost function Branches(t: Tree, a: Object3D, n: nat): set<Object3D>
    requires WellFormed(t) && a in t.up && n <= |t.down[a]|
  {
    set o | o in t.up && exists i :: 0 <= i < n && Under(t, o, t.down[a][i])
  }

  lemma {:induction false} SubtreeIsBranches(t: Tree, a: Object3D, o: Object3D)
    requires WellFormed(t) && a in t.up && o in t.up
    ensures o in Subtree(t, a) <==> o == a || o in Branches(t, a, |t.down[a]|)
    decreases t.level[o]
  {
    if o != a && !IsRoot(t, o) {
      var p := t.up[o];
      SubtreeIsBranches(t, a, p);
      assert IsChild(t, o, p);
      if p == a {
        var i :| 0 <= i < |t.down[a]| && t.down[a][i] == o;
        assert Under(t, o, t.down[a][i]);
      } else if p in Branches(t, a, |t.down[a]|) {
        var i :| 0 <= i < |t.down[a]| && Under(t, p, t.down[a][i]);
        assert Under(t, o, t.down[a][i]);
      }
      if o in Branches(t, a, |t.down[a]|) {
        var i :| 0 <= i < |t.down[a]| && Under(t, o, t.down[a][i]);
        if o != t.down[a][i] {
          assert Under(t, p, t.down[a][i]);
        }
      }
    }
  }

  lemma BranchesGrow(t: Tree, a: Object3D, n: nat)
    requires WellFormed(t) && a in t.up && n < |t.down[a]|
    ensures Branches(t, a, n + 1) == Branches(t, a, n) + Subtree(t, t.down[a][n])
  {
  }

  lemma SubtreeWhole(t: Tree, a: Object3D)
    requires WellFormed(t) && a in t.up
    ensures Subtree(t, a) == {a} + Branches(t, a, |t.down[a]|)
  {
    forall o | o in t.up ensures o in Subtree(t, a) <==> o == a || o in Branches(t, a, |t.down[a]|) {
      SubtreeIsBranches(t, a, o);
    }
  }

  // ----- detaching and attaching ----------------------------------------------------------

  /** The tree after a was taken from its parent p. */
  ghost function Detached(t: Tree, p: Object3D, a: Object3D): Tree
    requires a in t.up && p in t.down
  {
    t.(up := t.up[a := null], down := t.down[p := WithoutFirst(t.down[p], a)])
  }

  /** The tree after a root a became the last child of p; the levels in its subtree move up. */
  ghost function Attached(t: Tree, p: Object3D, a: Object3D): Tree
    requires WellFormed(t) && a in t.up && p in t.up
  {
    Tree(t.up[a := p], t.down[p := t.down[p] + [a]],
         map o | o in t.level :: if Under(t, o, a) then t.level[o] + t.level[p] + 1 else t.level[o])
  }

  function WithoutFirst<T(==)>(s: seq<T>, x: T): seq<T> {
    var i := IndexOf(s, x);
    if i == -1 then s else s[..i] + s[i + 1..]
  }

  lemma WithoutFirstElements<T>(s: seq<T>, x: T)
    requires NoRepeats(s)
    ensures NoRepeats(WithoutFirst(s, x)) && Elements(WithoutFirst(s, x)) == Elements(s) - {x}
  {
    var k := IndexOf(s, x);
    if k >= 0 {
      DroppedElements(s, k);
    }
  }

  lemma DroppedElements<T>(s: seq<T>, k: nat)
    requires NoRepeats(s) && k < |s|
    ensures var r := s[..k] + s[k + 1..]; NoRepeats(r) && Elements(r) == Elements(s) - {s[k]}
  {
  }

  lemma AppendedElements<T>(s: seq<T>, x: T)
    requires NoRepeats(s) && x !in s
    ensures NoRepeats(s + [x]) && Elements(s + [x]) == Elements(s) + {x}
  {
  }

  lemma DetachedShape(t: Tree, p: Object3D, a: Object3D)
    requires WellFormed(t) && a in t.up && p in t.up && t.up[a] == p
    ensures WellFormed(Detached(t, p, a))
  {
    var d := Detached(t, p, a);
    WithoutFirstElements(t.down[p], a);
    forall o | o in d.up ensures IsRoot(d, o) || IsChild(d, o, d.up[o]) {
      assert IsRoot(t, o) || IsChild(t, o, t.up[o]);
      if o != a && t.up[o] == p {
        assert o in Elements(t.down[p]) - {a};
      }
    }
    forall q, i | q in d.up && 0 <= i < |d.down[q]| ensures d.down[q][i] in d.up && d.up[d.down[q][i]] == q {
      if q == p {
        assert d.down[q][i] in Elements(t.down[p]) - {a};
      }
      assert d.down[q][i] in t.down[q];
    }
  }

  /** Detaching a takes exactly the subtree of a from below what is not below a itself. */
  lemma {:induction false} DetachedUnder(t: Tree, p: Object3D, a: Object3D, o: Object3D, x: Object3D)
    requires WellFormed(t) && a in t.up && p in t.up && t.up[a] == p && WellFormed(Detached(t, p, a))
    requires o in t.up && x in t.up
    ensures Under(Detached(t, p, a), o, a) == Under(t, o, a)
    ensures Under(Detached(t, p, a), o, x) == (Under(t, o, x) && (Under(t, x, a) || !Under(t, o, a)))
    decreases t.level[o]
  {
    if o == a {
      if Under(t, a, x) && Under(t, x, a) {
        UnderIsDeeper(t, a, x);
        UnderIsDeeper(t, x, a);
        BelowIsHigher(t, a, x);
      }
    } else if !IsRoot(t, o) {
      assert IsChild(t, o, t.up[o]);
      DetachedUnder(t, p, a, t.up[o], x);
    }
  }

  lemma BelowIsHigher(t: Tree, o: Object3D, x: Object3D)
    requires WellFormed(t) && o in t.up && x in t.up && Under(t, o, x)
    ensures o == x || t.level[x] < t.level[o]
  {
    if o != x {
      assert IsChild(t, o, t.up[o]);
      UnderIsDeeper(t, t.up[o], x);
    }
  }

  lemma AttachedShape(t: Tree, p: Object3D, a: Object3D)
    requires WellFormed(t) && a in t.up && p in t.up && IsRoot(t, a) && !Under(t, p, a)
    ensures WellFormed(Attached(t, p, a))
  {
    var d := Attached(t, p, a);
    assert d.down[p][|t.down[p]|] == a;
    forall o | o in d.up ensures IsRoot(d, o) || IsChild(d, o, d.up[o]) {
      if o == a {
        assert IsChild(d, a, p);
      } else if !IsRoot(t, o) {
        var q := t.up[o];
        assert IsChild(t, o, q);
        var i :| 0 <= i < |t.down[q]| && t.down[q][i] == o;
        assert d.down[q][i] == o;
        assert Under(t, o, a) == Under(t, q, a);
      }
    }
  }

  /** Attaching a below p puts the subtree of a, and nothing else, below whatever p is below. */
  lemma {:induction false} AttachedUnder(t: Tree, p: Object3D, a: Object3D, o: Object3D, x: Object3D)
    requires WellFormed(t) && a in t.up && p in t.up && IsRoot(t, a) && !Under(t, p, a)
    requires WellFormed(Attached(t, p, a)) && o in t.up && x in t.up
    ensures Under(Attached(t, p, a), o, x) == (Under(t, o, x) || (Under(t, o, a) && Under(t, p, x)))
    decreases Under(t, o, a), t.level[o]
  {
    if o == a {
      AttachedUnder(t, p, a, p, x);
    } else if !IsRoot(t, o) {
      assert IsChild(t, o, t.up[o]);
      AttachedUnder(t, p, a, t.up[o], x);
    }
  }

  lemma {:induction false} OneRootAbove(t: Tree, o: Object3D, x: Object3D, y: Object3D)
    requires WellFormed(t) && o in t.up && x in t.up && y in t.up && IsRoot(t, x) && IsRoot(t, y)
    requires Under(t, o, x) && Under(t, o, y)
    ensures x == y
    decreases t.level[o]
  {
    if o != x && o != y {
      assert IsChild(t, o, t.up[o]);
      OneRootAbove(t, t.up[o], x, y);
    }
  }

  lemma {:induction false} UnderIsDeeper(t: Tree, o: Object3D, a: Object3D)
    requires WellFormed(t) && o in t.up && a in t.up && Under(t, o, a)
    ensures t.level[a] <= t.level[o]
    decreases t.level[o]
  {
    if o != a {
      assert IsChild(t, o, t.up[o]);
      UnderIsDeeper(t, t.up[o], a);
    }
  }

  lemma ChildSubtree(t: Tree, a: Object3D, n: nat)
    requires WellFormed(t) && a in t.up && n < |t.down[a]|
    ensures |Subtree(t, t.down[a][n])| < |Subtree(t, a)|
  {
    var c := t.down[a][n];
    var below, all := Subtree(t, c), Subtree(t, a);
    assert IsChild(t, c, a);
    SubtreeWhole(t, a);
    assert forall o | o in below :: o in Branches(t, a, |t.down[a]|);
    if a in below { UnderIsDeeper(t, a, c); }
    assert all == below + (all - below);
    assert a in all - below;
  }

  // ----- the order in which a subtree is visited -----------------------------------------

  /** An object, then its subtrees from the first child to the last. */
  ghost function Preorder(t: Tree, a: Object3D): seq<Object3D>
    requires WellFormed(t) && a in t.up
    decreases |Subtree(t, a)|, |t.down[a]| + 1
  {
    [a] + Preorders(t, a, |t.down[a]|)
  }

  /** The subtrees of the first n children. */
  ghost function Preorders(t: Tree, a: Object3D, n: nat): seq<Object3D>
    requires WellFormed(t) && a in t.up && n <= |t.down[a]|
    decreases |Subtree(t, a)|, n
  {
    if n == 0 then []
    else
      ChildSubtree(t, a, n - 1);
      Preorders(t, a, n - 1) + Preorder(t, t.down[a][n - 1])
  }

  lemma {:induction false} PreorderIsSubtree(t: Tree, a: Object3D)
    requires WellFormed(t) && a in t.up
    ensures Elements(Preorder(t, a)) == Subtree(t, a)
    decreases |Subtree(t, a)|, |t.down[a]| + 1
  {
    PreordersAreBranches(t, a, |t.down[a]|);
    SubtreeWhole(t, a);
    JoinedElements([a], Preorders(t, a, |t.down[a]|));
  }

  lemma {:induction false} PreordersAreBranches(t: Tree, a: Object3D, n: nat)
    requires WellFormed(t) && a in t.up && n <= |t.down[a]|
    ensures Elements(Preorders(t, a, n)) == Branches(t, a, n)
    decreases |Subtree(t, a)|, n
  {
    if n == 0 {
      assert Preorders(t, a, n) == [];
    } else {
      hide Branches, Under, Elements, NoRepeats, Subtree;
      ChildSubtree(t, a, n - 1);
      PreordersAreBranches(t, a, n - 1);
      PreorderIsSubtree(t, t.down[a][n - 1]);
      BranchesGrow(t, a, n - 1);
      JoinedElements(Preorders(t, a, n - 1), Preorder(t, t.down[a][n - 1]));
    }
  }

  lemma JoinedElements<T>(s: seq<T>, r: seq<T>)
    ensures Elements(s + r) == Elements(s) + Elements(r)
  {
  }

  // ----- the index ----------------------------------------------------------------------

  /** The contents of the four lists of a scene. */
  datatype Index = Index(objects: set<Object3D>, lights: set<Object3D>, added: set<Object3D>, removed: set<Object3D>)

  function Lights(s: set<Object3D>): set<Object3D> {
    set o | o in s && o.kind.Light?
  }

  function IndexedIn(s: set<Object3D>): set<Object3D> {
    set o | o in s && Indexed(o)
  }

  function Enlisted(ix: Index, s: set<Object3D>): Index {
    var extra := IndexedIn(s) - ix.objects;
    Index(ix.objects + extra, ix.lights + Lights(s), ix.added + extra, ix.removed - extra)
  }

  function Delisted(ix: Index, s: set<Object3D>): Index {
    var gone := (set o | o in s && !o.kind.Light? && !o.kind.Camera?) * ix.objects;
    Index(ix.objects - gone, ix.lights - Lights(s), ix.added - gone, ix.removed + gone)
  }

  lemma EnlistedTwice(ix: Index, s: set<Object3D>, r: set<Object3D>)
    ensures Enlisted(Enlisted(ix, s), r) == Enlisted(ix, s + r)
  {
  }

  lemma DelistedTwice(ix: Index, s: set<Object3D>, r: set<Object3D>)
    ensures Delisted(Delisted(ix, s), r) == Delisted(ix, s + r)
  {
  }

  /** The lists hold exactly the objects and lights below the scene. */
  ghost predicate Accurate(ix: Index, t: Tree, root: Object3D)
    requires WellFormed(t)
  {
    && ix.objects == IndexedIn(Subtree(t, root) - {root})
    && ix.lights == Lights(Subtree(t, root) - {root})
    && ix.removed <= t.up.Keys
  }

  /** The queues hold what the renderer has not taken over yet. */
  predicate Pending(ix: Index, active: set<Object3D>) {
    && ix.added <= ix.objects && ix.removed !! ix.objects
    && ix.objects == (active + ix.added) - ix.removed
  }

  lemma EnlistedPending(ix: Index, s: set<Object3D>, active: set<Object3D>)
    requires Pending(ix, active)
    ensures Pending(Enlisted(ix, s), active)
  {
  }

  lemma DelistedPending(ix: Index, s: set<Object3D>, active: set<Object3D>)
    requires Pending(ix, active)
    ensures Pending(Delisted(ix, s), active)
  {
  }

  lemma DetachedAccurate(ix: Index, t: Tree, root: Object3D, p: Object3D, a: Object3D)
    requires WellFormed(t) && root in t.up && IsRoot(t, root) && Accurate(ix, t, root)
    requires a in t.up && p in t.up && t.up[a] == p
    ensures var d := Detached(t, p, a);
      && WellFormed(d) && Subtree(d, a) == Subtree(t, a)
      && Accurate(if Under(d, p, root) then Delisted(ix, Subtree(t, a)) else ix, d, root)
  {
    var d := Detached(t, p, a);
    DetachedShape(t, p, a);
    forall o | o in t.up
      ensures Under(d, o, a) == Under(t, o, a)
      ensures Under(d, o, root) == (Under(t, o, root) && !Under(t, o, a))
    {
      DetachedUnder(t, p, a, o, root);
    }
    NotUnderParent(t, p, a);
    if !Under(t, p, root) {
      forall o | o in t.up && Under(t, o, a) ensures !Under(t, o, root) {
        NotUnderWith(t, a, o, root);
      }
      assert Subtree(d, root) == Subtree(t, root);
    } else {
      assert Subtree(d, root) == Subtree(t, root) - Subtree(t, a);
      var r := Delisted(ix, Subtree(t, a));
      assert r.objects == IndexedIn(Subtree(d, root) - {root});
      assert r.lights == Lights(Subtree(d, root) - {root});
    }
  }

  lemma NotUnderParent(t: Tree, p: Object3D, a: Object3D)
    requires WellFormed(t) && a in t.up && p in t.up && t.up[a] == p
    ensures !Under(t, p, a)
  {
    assert IsChild(t, a, p);
    if Under(t, p, a) { UnderIsDeeper(t, p, a); }
  }

  /** What lies below a lies below the root x exactly if a does. */
  lemma {:induction false} NotUnderWith(t: Tree, a: Object3D, o: Object3D, x: Object3D)
    requires WellFormed(t) && o in t.up && a in t.up && x in t.up && IsRoot(t, x) && Under(t, o, a)
    ensures Under(t, o, x) == Under(t, a, x)
    decreases t.level[o]
  {
    if o != a {
      assert IsChild(t, o, t.up[o]);
      NotUnderWith(t, a, t.up[o], x);
    }
  }

  lemma AttachedAccurate(ix: Index, t: Tree, root: Object3D, p: Object3D, a: Object3D)
    requires WellFormed(t) && root in t.up && IsRoot(t, root) && Accurate(ix, t, root)
    requires a in t.up && p in t.up && IsRoot(t, a) && a != root && !Under(t, p, a)
    ensures var d := Attached(t, p, a);
      && WellFormed(d) && Subtree(d, a) == Subtree(t, a)
      && Accurate(if Under(d, p, root) then Enlisted(ix, Subtree(t, a)) else ix, d, root)
  {
    var d := Attached(t, p, a);
    AttachedShape(t, p, a);
    forall o | o in t.up
      ensures Under(d, o, root) == (Under(t, o, root) || (Under(t, o, a) && Under(t, p, root)))
      ensures Under(t, o, a) ==> !Under(t, o, root)
      ensures Under(d, o, a) == Under(t, o, a)
    {
      AttachedUnder(t, p, a, o, root);
      AttachedUnder(t, p, a, o, a);
      if Under(t, o, a) && Under(t, o, root) { OneRootAbove(t, o, a, root); }
    }
    if Under(t, p, root) {
      assert Subtree(d, root) == Subtree(t, root) + Subtree(t, a);
      var r := Enlisted(ix, Subtree(t, a));
      assert root !in Subtree(t, a);
      assert r.objects == IndexedIn(Subtree(d, root) - {root});
      assert r.lights == Lights(Subtree(d, root) - {root});
    } else {
      assert Subtree(d, root) == Subtree(t, root);
    }
  }

  /** The lists themselves. */
  datatype Lists = Lists(objects: seq<Object3D>, lights: seq<Object3D>, added: seq<Object3D>, removed: seq<Object3D>) {
    ghost function Contents(): Index {
      Index(Elements(objects), Elements(lights), Elements(added), Elements(removed))
    }

    ghost predicate NoneTwice() {
      && NoRepeats(objects) && NoRepeats(lights) && NoRepeats(added) && NoRepeats(removed)
      && Elements(added) <= Elements(objects) && Elements(removed) !! Elements(objects)
    }

    /** What removeObject does for one object. */
    function Remove(a: Object3D): Lists {
      if a.kind.Light? then this.(lights := WithoutFirst(lights, a))
      else if a.kind.Camera? || a !in objects then this
      else Lists(WithoutFirst(objects, a), lights, WithoutFirst(added, a), removed + [a])
    }

    function Add(a: Object3D): Lists {
      if a.kind.Light? then this.(lights := if a in lights then lights else lights + [a])
      else if !Indexed(a) || a in objects then this
      else Lists(objects + [a], lights, added + [a], WithoutFirst(removed, a))
    }

    /** One after the other. */
    function RemoveAll(s: seq<Object3D>): Lists {
      if s == [] then this else RemoveAll(s[..|s| - 1]).Remove(s[|s| - 1])
    }

    function AddAll(s: seq<Object3D>): Lists {
      if s == [] then this else AddAll(s[..|s| - 1]).Add(s[|s| - 1])
    }

    lemma {:induction false} InTwoParts(s: seq<Object3D>, r: seq<Object3D>)
      ensures AddAll(s + r) == AddAll(s).AddAll(r)
      ensures RemoveAll(s + r) == RemoveAll(s).RemoveAll(r)
      decreases |r|
    {
      if r == [] {
        assert s + r == s;
      } else {
        assert (s + r)[..|s + r| - 1] == s + r[..|r| - 1];
        InTwoParts(s, r[..|r| - 1]);
      }
    }

    lemma {:induction false} RemoveAllIsDelisted(s: seq<Object3D>)
      requires NoneTwice()
      ensures RemoveAll(s).NoneTwice() && RemoveAll(s).Contents() == Delisted(Contents(), Elements(s))
      decreases |s|
    {
      hide NoneTwice, Contents, Remove;
      if s == [] {
        NoChange(Contents());
      } else {
        var front, last := s[..|s| - 1], s[|s| - 1];
        RemoveAllIsDelisted(front);
        RemoveAll(front).RemoveIsDelisted(last);
        DelistedTwice(Contents(), Elements(front), {last});
        assert s == front + [last];
        JoinedElements(front, [last]);
      }
    }

    lemma {:induction false} AddAllIsEnlisted(s: seq<Object3D>)
      requires NoneTwice()
      ensures AddAll(s).NoneTwice() && AddAll(s).Contents() == Enlisted(Contents(), Elements(s))
      decreases |s|
    {
      hide NoneTwice, Contents, Add;
      if s == [] {
        NoChange(Contents());
      } else {
        var front, last := s[..|s| - 1], s[|s| - 1];
        AddAllIsEnlisted(front);
        AddAll(front).AddIsEnlisted(last);
        EnlistedTwice(Contents(), Elements(front), {last});
        assert s == front + [last];
        JoinedElements(front, [last]);
      }
    }

    lemma RemoveIsDelisted(a: Object3D)
      requires NoneTwice()
      ensures Remove(a).NoneTwice() && Remove(a).Contents() == Delisted(Contents(), {a})
    {
      hide NoRepeats, Elements, WithoutFirst;
      WithoutFirstElements(lights, a);
      WithoutFirstElements(objects, a);
      WithoutFirstElements(added, a);
      InElements(objects, a);
      InElements(removed, a);
      if a in objects {
        AppendedElements(removed, a);
      }
      SameIndex(Delisted(Contents(), {a}), Remove(a).Contents());
    }

    lemma AddIsEnlisted(a: Object3D)
      requires NoneTwice()
      ensures Add(a).NoneTwice() && Add(a).Contents() == Enlisted(Contents(), {a})
    {
      hide NoRepeats, Elements, WithoutFirst;
      WithoutFirstElements(removed, a);
      InElements(lights, a);
      InElements(objects, a);
      InElements(added, a);
      if a !in lights { AppendedElements(lights, a); }
      if a !in objects {
        AppendedElements(objects, a);
        AppendedElements(added, a);
      }
      SameIndex(Enlisted(Contents(), {a}), Add(a).Contents());
    }
  }

  lemma NoChange(ix: Index)
    ensures Delisted(ix, Elements([])) == ix && Enlisted(ix, Elements([])) == ix
  {
  }

  lemma InElements<T>(s: seq<T>, x: T)
    ensures x in Elements(s) <==> x in s
  {
  }

  lemma SameIndex(x: Index, y: Index)
    requires forall o :: o in x.objects <==> o in y.objects
    requires forall o :: o in x.lights <==> o in y.lights
    requires forall o :: o in x.added <==> o in y.added
    requires forall o :: o in x.removed <==> o in y.removed
    ensures x == y
  {
  }

  // ----- the objects --------------------------------------------------------------------

  /** The tree that the fields of the objects spell out, its scene, and the scene's root object. */
  datatype World = World(tree: Tree, root: Object3D, scene: Scene)

  ghost predicate Matches(t: Tree)
    requires t.up.Keys == t.down.Keys
    reads t.up.Keys`parent, t.up.Keys`children
  {
    forall o | o in t.up :: o.parent == t.up[o] && o.children == t.down[o]
  }

  ghost predicate Placed(w: World) {
    && WellFormed(w.tree) && w.root in w.tree.up && w.root.scene == w.scene
    && (forall o | o in w.tree.up && o != w.root :: o.scene == null)
  }

  ghost predicate Rooted(w: World) {
    Placed(w) && IsRoot(w.tree, w.root)
  }

  ghost function Active(t: Tree): set<Object3D>
    reads t.up.Keys`webglActive
  {
    set o | o in t.up && o.webglActive
  }

  lemma SameActive(t: Tree, u: Tree)
    requires t.up.Keys == u.up.Keys
    ensures Active(t) == Active(u)
  {
  }

  /** What every operation keeps. */
  ghost predicate Valid(w: World)
    reads w.tree.up.Keys, w.scene
  {
    Placed(w) && Matches(w.tree) && Sound(w, w.scene.Current(), w.scene.Drawing(), Active(w.tree))
  }

  /** The lists of the scene agree with the tree, and the list of the renderer with the active objects. */
  ghost predicate Sound(w: World, l: Lists, drawn: Drawn, active: set<Object3D>)
    requires WellFormed(w.tree)
  {
    && l.NoneTwice() && Accurate(l.Contents(), w.tree, w.root) && Pending(l.Contents(), active)
    && Draws(drawn, active)
  }

  /** The renderer's three lists: buffers to draw, by their objects; objects that draw themselves;
      and sprites. */
  datatype Drawn = Drawn(objects: seq<Object3D>, immediate: seq<Object3D>, sprites: seq<Object3D>) {

    /** An object becomes active. */
    function Put(h: Object3D): Drawn {
      if h.kind.Drawable? then this.(objects := objects + Copies(h, h.buffers))
      else if h.immediate then this.(immediate := immediate + [h])
      else if h.kind.Sprite? then this.(sprites := sprites + [h])
      else this
    }

    /** An object is dropped. Here sprites are told apart before objects that draw themselves. */
    function Drop(h: Object3D): Drawn {
      if h.kind.Drawable? then this.(objects := Without<Object3D>(objects, h))
      else if h.kind.Sprite? then this.(sprites := Without<Object3D>(sprites, h))
      else if h.immediate then this.(immediate := Without<Object3D>(immediate, h))
      else this
    }
  }

  /** The objects queued as added become active, unless they are. */
  function AllPut(d: Drawn, active: set<Object3D>, queue: seq<Object3D>): Drawn
    decreases |queue|
  {
    if queue == [] then d
    else AllPut(if queue[0] in active then d else d.Put(queue[0]), active + {queue[0]}, queue[1..])
  }

  /** The objects queued as removed are dropped. */
  function AllDropped(d: Drawn, queue: seq<Object3D>): Drawn
    decreases |queue|
  {
    if queue == [] then d else AllDropped(d.Drop(queue[0]), queue[1..])
  }

  function Copies(x: Object3D, n: nat): seq<Object3D> {
    seq(n, i => x)
  }

  lemma {:induction false} WithoutCounts(s: seq<Object3D>, x: Object3D)
    ensures multiset(Without<Object3D>(s, x)) == multiset(s)[x := 0]
  {
    if s != [] {
      WithoutCounts(s[1..], x);
      assert s == [s[0]] + s[1..];
    }
  }

  lemma CopiesCount(s: seq<Object3D>, x: Object3D, n: nat)
    ensures multiset(s + Copies(x, n)) == multiset(s)[x := multiset(s)[x] + n]
  {
    if n == 0 {
      assert s + Copies(x, n) == s;
    } else {
      CopiesCount(s, x, n - 1);
      assert s + Copies(x, n) == s + Copies(x, n - 1) + [x];
    }
  }

  predicate DrawsItself(o: Object3D) {
    o.immediate && !o.kind.Drawable?
  }

  predicate OnlySprite(o: Object3D) {
    o.kind.Sprite? && !o.immediate
  }

  /** Exactly the active objects of each sort are listed, once or with all their buffers; but a
      sprite that draws itself may be listed more often, and when it is no longer active. */
  ghost predicate Draws(d: Drawn, active: set<Object3D>) {
    DrawsBuffers(d.objects, active) && DrawsSprites(d.sprites, active) && DrawsThemselves(d.immediate, active)
  }

  ghost predicate DrawsBuffers(s: seq<Object3D>, active: set<Object3D>) {
    && (forall o | o in s :: o in active && o.kind.Drawable?)
    && (forall o | o in active && o.kind.Drawable? :: multiset(s)[o] == o.buffers)
  }

  ghost predicate DrawsSprites(s: seq<Object3D>, active: set<Object3D>) {
    && (forall o | o in s :: o in active && OnlySprite(o))
    && (forall o | o in active && OnlySprite(o) :: multiset(s)[o] == 1)
  }

  ghost predicate DrawsThemselves(s: seq<Object3D>, active: set<Object3D>) {
    && (forall o | o in s :: DrawsItself(o) && (o in active || o.kind.Sprite?))
    && (forall o | o in active && DrawsItself(o) ::
          if o.kind.Sprite? then multiset(s)[o] >= 1 else multiset(s)[o] == 1)
  }

  class Object3D {
    const kind: Kind
    const scene: Scene?
    /** How many entries the renderer's list has for this object while it is active. */
    const buffers: nat
    /** It draws itself: it is a marching-cubes object or has a callback for that. */
    const immediate: bool
    var parent: Object3D?
    var children: seq<Object3D>
    var webglActive: bool

    constructor (kind: Kind, scene: Scene?, buffers: nat, immediate: bool)
      ensures this.kind == kind && this.scene == scene && this.buffers == buffers && this.immediate == immediate
      ensures parent == null && children == [] && !webglActive
    {
      this.kind, this.scene, this.buffers, this.immediate := kind, scene, buffers, immediate;
      parent, children, webglActive := null, [], false;
    }

    /** The topmost object above this one. */
    method Top(ghost t: Tree) returns (c: Object3D)
      requires WellFormed(t) && Matches(t) && this in t.up
      ensures c in t.up && IsRoot(t, c) && Under(t, this, c)
    {
      c := this;
      while c.parent != null
        invariant c in t.up && Under(t, this, c)
        decreases t.level[c]
      {
        assert IsChild(t, c, t.up[c]);
        UnderTogether(t, this, c);
        c := c.parent;
      }
    }

    /** Takes a out if it is a child. What is below a then leaves the lists of the scene, in
        preorder, if this object is in the scene. */
    method Remove(a: Object3D, ghost w: World) returns (ghost v: World)
      requires Placed(w) && Matches(w.tree) && this in w.tree.up && a in w.tree.up
      modifies this`children, a`parent, w.scene
      ensures Placed(v) && Matches(v.tree)
      ensures v == if old(a.parent) == this then w.(tree := Detached(w.tree, this, a)) else w
      ensures w.scene.Current() == if old(a.parent) == this then AfterRemove(w, old(w.scene.Current()), this, a)
                                   else old(w.scene.Current())
      ensures w.scene.Drawing() == old(w.scene.Drawing())
      ensures if old(a.parent) == this then a.parent == null && TakenOut(old(children), a, children)
              else a.parent == old(a.parent) && children == old(children)
      ensures old(Valid(w)) ==> (Valid(v) <==> old(a.parent) == this ==> RemovalIsListed(w, a))
    {
      hide Sound, Subtree, Under, NoRepeats, WithoutFirst, AfterRemove, WellFormed, RemovalIsListed, Active, TakenOut;
      v := w;
      var c := IndexOf(children, a);
      InChildren(w.tree, this, a);
      if c != -1 {
        ghost var before, active, drawn := w.scene.Current(), Active(w.tree), w.scene.Drawing();
        v := w.(tree := Detached(w.tree, this, a));
        DetachedShape(w.tree, this, a);
        AfterRemoveIs(w, before, this, a);
        if Valid(w) { SoundAfterRemove(w, before, drawn, active, this, a); }
        Unlink(a, c, w.tree);
        LeaveScene(a, v);
        SameActive(w.tree, v.tree);
      }
    }

    /** a.parent = undefined; this.children.splice(c, 1) */
    method Unlink(a: Object3D, c: nat, ghost t: Tree)
      requires WellFormed(t) && Matches(t) && this in t.up && a in t.up && IndexOf(children, a) == c
      modifies this`children, a`parent
      ensures Matches(Detached(t, this, a))
      ensures a.parent == null && TakenOut(old(children), a, children)
    {
      assert t.up[t.down[this][c]] == this;
      a.parent := null;
      children := children[..c] + children[c + 1..];
    }

    /** Tells the scene this object is in, if any, that a has left. */
    method LeaveScene(a: Object3D, ghost w: World)
      requires Placed(w) && Matches(w.tree) && this in w.tree.up && a in w.tree.up
      modifies w.scene
      ensures w.scene.Drawing() == old(w.scene.Drawing())
      ensures w.scene.Current() == if InScene(w, this) then old(w.scene.Current()).RemoveAll(Preorder(w.tree, a))
                                   else old(w.scene.Current())
    {
      hide Lists.RemoveAll, Preorder, Under;
      var c := Top(w.tree);
      RootOfScene(w, this, c);
      if c.scene != null {
        c.scene.RemoveObject(a, w.tree);
      }
    }

    /** Makes a the last child of this object, taking it from its old parent; nothing happens if
        it is a child already. An object cannot go below itself. */
    method Add(a: Object3D, ghost w: World) returns (ghost v: World)
      requires Placed(w) && Matches(w.tree) && this in w.tree.up && a in w.tree.up && !Under(w.tree, this, a)
      modifies this`children, a`parent, (if a.parent == null then {} else {a.parent})`children, w.scene
      ensures Placed(v) && Matches(v.tree)
      ensures v == if w.tree.up[a] == this then w else w.(tree := Transferred(w.tree, this, a))
      ensures w.scene.Current() == if w.tree.up[a] == this then old(w.scene.Current())
                                   else AfterAdd(w, old(w.scene.Current()), this, a)
      ensures w.scene.Drawing() == old(w.scene.Drawing())
      ensures a.parent == this && children == old(children) + if old(a.parent) == this then [] else [a]
      ensures old(a.parent) != null && old(a.parent) != this ==>
                TakenOut(old(ChildrenOf(a.parent)), a, ChildrenOf(old(a.parent)))
      ensures old(Valid(w)) ==> (Valid(v) <==> w.tree.up[a] != this ==> MoveIsListed(w, this, a))
    {
      hide Sound, Subtree, Under, NoRepeats, WithoutFirst, Transferred, WellFormed, AfterAdd, MoveIsListed, Active, TakenOut;
      v := w;
      InChildren(w.tree, this, a);
      if IndexOf(children, a) == -1 {
        ghost var before, active, drawn := w.scene.Current(), Active(w.tree), w.scene.Drawing();
        TransferredShape(w.tree, this, a);
        if Valid(w) { SoundAfterAdd(w, before, drawn, active, this, a); }
        v := Move(a, w);
        SameActive(w.tree, v.tree);
      }
    }

    /** Takes a from its old parent, if it has one, and makes it a child here. */
    method Move(a: Object3D, ghost w: World) returns (ghost v: World)
      requires Placed(w) && Matches(w.tree) && this in w.tree.up && a in w.tree.up && !Under(w.tree, this, a)
      modifies this`children, a`parent, (if a.parent == null then {} else {a.parent})`children, w.scene
      ensures Placed(v) && Matches(v.tree) && v == w.(tree := Transferred(w.tree, this, a))
      ensures w.scene.Current() == AfterAdd(w, old(w.scene.Current()), this, a)
      ensures w.scene.Drawing() == old(w.scene.Drawing())
      ensures a.parent == this && (old(a.parent) != this ==> children == old(children) + [a])
      ensures old(a.parent) != null && old(a.parent) != this ==>
                TakenOut(old(ChildrenOf(a.parent)), a, ChildrenOf(old(a.parent)))
    {
      hide Subtree, Under, NoRepeats, WithoutFirst, Attached, Transferred, WellFormed, TakenOut;
      hide AfterRemove, AfterJoin, AfterAdd;
      v := w;
      AfterAddIs(w, w.scene.Current(), this, a);
      if a.parent != null {
        StillNotUnder(w.tree, this, a);
        v := a.parent.Remove(a, w);
      }
      v := Join(a, v);
    }

    /** a.parent = this; this.children.push(a); and the scene this object is in takes up a. */
    method Join(a: Object3D, ghost w: World) returns (ghost v: World)
      requires Placed(w) && Matches(w.tree) && this in w.tree.up && a in w.tree.up
      requires IsRoot(w.tree, a) && !Under(w.tree, this, a)
      modifies this`children, a`parent, w.scene
      ensures v == w.(tree := Attached(w.tree, this, a)) && Placed(v) && Matches(v.tree)
      ensures w.scene.Current() == AfterJoin(w, old(w.scene.Current()), this, a)
      ensures w.scene.Drawing() == old(w.scene.Drawing())
      ensures a.parent == this && children == old(children) + [a]
    {
      hide Subtree, Under, NoRepeats, AfterJoin, WellFormed;
      ghost var before := w.scene.Current();
      AttachedShape(w.tree, this, a);
      v := w.(tree := Attached(w.tree, this, a));
      Link(a, w.tree);
      EnterScene(a, v);
      AfterJoinIs(w, before, this, a);
    }

    method Link(a: Object3D, ghost t: Tree)
      requires WellFormed(t) && Matches(t) && this in t.up && a in t.up
      modifies this`children, a`parent
      ensures Matches(Attached(t, this, a))
      ensures a.parent == this && children == old(children) + [a]
    {
      a.parent := this;
      children := children + [a];
    }

    /** Tells the scene this object is in, if any, that a has come. */
    method EnterScene(a: Object3D, ghost w: World)
      requires Placed(w) && Matches(w.tree) && this in w.tree.up && a in w.tree.up
      modifies w.scene
      ensures w.scene.Drawing() == old(w.scene.Drawing())
      ensures w.scene.Current() == if InScene(w, this) then old(w.scene.Current()).AddAll(Preorder(w.tree, a))
                                   else old(w.scene.Current())
    {
      hide Lists.AddAll, Preorder, Under;
      var c := Top(w.tree);
      RootOfScene(w, this, c);
      if c.scene != null {
        c.scene.AddObject(a, w.tree);
      }
    }
  }

  /** The list is without its first x, and otherwise as it was. */
  ghost predicate TakenOut(was: seq<Object3D>, x: Object3D, now: seq<Object3D>) {
    exists i :: 0 <= i < |was| && was[i] == x && x !in was[..i] && now == was[..i] + was[i + 1..]
  }

  function ChildrenOf(o: Object3D?): seq<Object3D>
    reads o
  {
    if o == null then [] else o.children
  }

  /** The walk up from o ends at the scene. */
  ghost predicate InScene(w: World, o: Object3D)
    requires Placed(w) && o in w.tree.up
  {
    IsRoot(w.tree, w.root) && Under(w.tree, o, w.root)
  }

  /** The lists after a was taken from its parent p. */
  ghost function AfterRemove(w: World, l: Lists, p: Object3D, a: Object3D): Lists
    requires Placed(w) && a in w.tree.up && p in w.tree.up && w.tree.up[a] == p
  {
    DetachedShape(w.tree, p, a);
    var v := w.(tree := Detached(w.tree, p, a));
    if InScene(v, p) then l.RemoveAll(Preorder(v.tree, a)) else l
  }

  lemma AfterRemoveIs(w: World, l: Lists, p: Object3D, a: Object3D)
    requires Placed(w) && a in w.tree.up && p in w.tree.up && w.tree.up[a] == p
    ensures var v := w.(tree := Detached(w.tree, p, a));
      && Placed(v)
      && AfterRemove(w, l, p, a) == if InScene(v, p) then l.RemoveAll(Preorder(v.tree, a)) else l
  {
    DetachedShape(w.tree, p, a);
  }

  /** The lists after the root a was put below p. */
  ghost function AfterJoin(w: World, l: Lists, p: Object3D, a: Object3D): Lists
    requires Placed(w) && a in w.tree.up && p in w.tree.up && IsRoot(w.tree, a) && !Under(w.tree, p, a)
  {
    AttachedShape(w.tree, p, a);
    var v := w.(tree := Attached(w.tree, p, a));
    if InScene(v, p) then l.AddAll(Preorder(v.tree, a)) else l
  }

  lemma AfterJoinIs(w: World, l: Lists, p: Object3D, a: Object3D)
    requires Placed(w) && a in w.tree.up && p in w.tree.up && IsRoot(w.tree, a) && !Under(w.tree, p, a)
    ensures var v := w.(tree := Attached(w.tree, p, a));
      && Placed(v)
      && AfterJoin(w, l, p, a) == if InScene(v, p) then l.AddAll(Preorder(v.tree, a)) else l
  {
    AttachedShape(w.tree, p, a);
  }

  /** The lists after a was moved below p: it leaves where it was, and comes where it goes. */
  ghost function AfterAdd(w: World, l: Lists, p: Object3D, a: Object3D): Lists
    requires Placed(w) && a in w.tree.up && p in w.tree.up && !Under(w.tree, p, a)
  {
    var q := w.tree.up[a];
    if q == null then AfterJoin(w, l, p, a)
    else
      StillNotUnder(w.tree, p, a);
      AfterJoin(w.(tree := Detached(w.tree, q, a)), AfterRemove(w, l, q, a), p, a)
  }

  lemma AfterAddIs(w: World, l: Lists, p: Object3D, a: Object3D)
    requires Placed(w) && a in w.tree.up && p in w.tree.up && !Under(w.tree, p, a)
    ensures var q := w.tree.up[a];
      if q == null then
        AfterAdd(w, l, p, a) == AfterJoin(w, l, p, a) && Transferred(w.tree, p, a) == Attached(w.tree, p, a)
      else
        && q in w.tree.up
        && var u := w.(tree := Detached(w.tree, q, a));
        && Placed(u) && p in u.tree.up && a in u.tree.up && IsRoot(u.tree, a) && !Under(u.tree, p, a)
        && AfterAdd(w, l, p, a) == AfterJoin(u, AfterRemove(w, l, q, a), p, a)
        && Transferred(w.tree, p, a) == Attached(u.tree, p, a)
  {
    if w.tree.up[a] != null {
      StillNotUnder(w.tree, p, a);
    }
  }

  /** Nothing here is listed by a scene. */
  predicate Unlisted(s: set<Object3D>) {
    forall o | o in s :: !Indexed(o) && !o.kind.Light?
  }

  /** The lists are right after a was taken from its parent: the scene is no object's child, or is
      what is taken out, or has nothing to do with it, or does not list anything below a. */
  ghost predicate RemovalIsListed(w: World, a: Object3D)
    requires Placed(w) && a in w.tree.up
  {
    IsRoot(w.tree, w.root) || a == w.root || !Under(w.tree, a, w.root) || Unlisted(Subtree(w.tree, a))
  }

  /** The lists are right after a was moved below p: the scene was no object's child, or is what is
      moved, or a stays below it or outside, or it does not list anything below a. */
  ghost predicate MoveIsListed(w: World, p: Object3D, a: Object3D)
    requires Placed(w) && a in w.tree.up && p in w.tree.up
  {
    || IsRoot(w.tree, w.root) || a == w.root
    || (Under(w.tree, a, w.root) <==> Under(w.tree, p, w.root))
    || Unlisted(Subtree(w.tree, a))
  }

  /** After a removal the lists are right exactly if it is listed. */
  lemma SoundAfterRemove(w: World, l: Lists, drawn: Drawn, active: set<Object3D>, p: Object3D, a: Object3D)
    requires Placed(w) && Sound(w, l, drawn, active) && p in w.tree.up && a in w.tree.up && w.tree.up[a] == p
    ensures var v := w.(tree := Detached(w.tree, p, a));
      Placed(v) && (Sound(v, AfterRemove(w, l, p, a), drawn, active) <==> RemovalIsListed(w, a))
  {
    hide Lists.NoneTwice, Lists.Contents, Accurate, Pending, Subtree, Under, Preorder, AfterRemove;
    AfterRemoveIs(w, l, p, a);
    if IsRoot(w.tree, w.root) {
      SoundInScene(w, l, drawn, active, p, a);
    } else {
      UnchangedByRemove(w, l, p, a);
      UnsceneRemove(w, l, p, a);
    }
  }

  lemma SoundInScene(w: World, l: Lists, drawn: Drawn, active: set<Object3D>, p: Object3D, a: Object3D)
    requires Rooted(w) && Sound(w, l, drawn, active) && p in w.tree.up && a in w.tree.up && w.tree.up[a] == p
    ensures var v := w.(tree := Detached(w.tree, p, a));
      Placed(v) && Sound(v, AfterRemove(w, l, p, a), drawn, active)
  {
    hide Lists.NoneTwice, Lists.Contents, Lists.RemoveAll, Accurate, Pending, Delisted, Subtree, Under, Preorder, AfterRemove;
    var d := Detached(w.tree, p, a);
    DetachedAccurate(l.Contents(), w.tree, w.root, p, a);
    DelistedPending(l.Contents(), Subtree(d, a), active);
    AfterRemoveIs(w, l, p, a);
    PreorderIsSubtree(d, a);
    l.RemoveAllIsDelisted(Preorder(d, a));
  }

  /** Below a scene that is itself a child nothing is taken off the lists. */
  lemma UnchangedByRemove(w: World, l: Lists, p: Object3D, a: Object3D)
    requires Placed(w) && !IsRoot(w.tree, w.root) && p in w.tree.up && a in w.tree.up && w.tree.up[a] == p
    ensures AfterRemove(w, l, p, a) == l
  {
    DetachedShape(w.tree, p, a);
    if a == w.root {
      NotUnderParent(w.tree, p, a);
      DetachedUnder(w.tree, p, a, p, a);
    }
  }

  /** The subtree of x after a was taken out. */
  lemma DetachedSubtree(t: Tree, p: Object3D, a: Object3D, x: Object3D)
    requires WellFormed(t) && a in t.up && p in t.up && t.up[a] == p && x in t.up
    ensures WellFormed(Detached(t, p, a)) && Subtree(Detached(t, p, a), a) == Subtree(t, a)
    ensures Subtree(Detached(t, p, a), x) == if Under(t, x, a) then Subtree(t, x) else Subtree(t, x) - Subtree(t, a)
  {
    DetachedShape(t, p, a);
    forall o | o in t.up
      ensures Under(Detached(t, p, a), o, a) == Under(t, o, a)
      ensures Under(Detached(t, p, a), o, x) == (Under(t, o, x) && (Under(t, x, a) || !Under(t, o, a)))
    {
      DetachedUnder(t, p, a, o, x);
    }
  }

  /** The subtree of x after the root a was put below p. */
  lemma AttachedSubtree(t: Tree, p: Object3D, a: Object3D, x: Object3D)
    requires WellFormed(t) && a in t.up && p in t.up && IsRoot(t, a) && !Under(t, p, a) && x in t.up
    ensures WellFormed(Attached(t, p, a))
    ensures Subtree(Attached(t, p, a), x) == if Under(t, p, x) then Subtree(t, x) + Subtree(t, a) else Subtree(t, x)
  {
    AttachedShape(t, p, a);
    forall o | o in t.up
      ensures Under(Attached(t, p, a), o, x) == (Under(t, o, x) || (Under(t, o, a) && Under(t, p, x)))
    {
      AttachedUnder(t, p, a, o, x);
    }
  }

  /** Two subtrees are nested or apart. */
  lemma {:induction false} NestedOrApart(t: Tree, o: Object3D, a: Object3D, x: Object3D)
    requires WellFormed(t) && o in t.up && a in t.up && x in t.up && Under(t, o, a) && Under(t, o, x)
    ensures Under(t, a, x) || Under(t, x, a)
    decreases t.level[o]
  {
    if o != a && o != x {
      assert IsChild(t, o, t.up[o]);
      NestedOrApart(t, t.up[o], a, x);
    }
  }

  lemma {:induction false} UnderTransitive(t: Tree, o: Object3D, a: Object3D, x: Object3D)
    requires WellFormed(t) && o in t.up && a in t.up && x in t.up && Under(t, o, a) && Under(t, a, x)
    ensures Under(t, o, x)
    decreases t.level[o]
  {
    if o != a {
      assert IsChild(t, o, t.up[o]);
      UnderTransitive(t, t.up[o], a, x);
    }
  }

  /** How the subtree of a lies to that of the scene. */
  lemma SubtreesMeet(t: Tree, a: Object3D, x: Object3D)
    requires WellFormed(t) && a in t.up && x in t.up
    ensures Under(t, a, x) ==> Subtree(t, a) <= Subtree(t, x)
    ensures a != x && Under(t, a, x) ==> !Under(t, x, a)
    ensures !Under(t, a, x) && !Under(t, x, a) ==> Subtree(t, a) !! Subtree(t, x)
  {
    forall o | o in t.up && Under(t, o, a)
      ensures Under(t, a, x) ==> Under(t, o, x)
      ensures !Under(t, a, x) && !Under(t, x, a) ==> !Under(t, o, x)
    {
      if Under(t, a, x) { UnderTransitive(t, o, a, x); }
      if Under(t, o, x) { NestedOrApart(t, o, a, x); }
    }
    if a != x && Under(t, a, x) && Under(t, x, a) {
      BelowIsHigher(t, a, x);
      BelowIsHigher(t, x, a);
    }
  }

  /** Lists that stay as they are stay accurate exactly if what a scene lists stays below it. */
  lemma AccurateStill(ix: Index, t: Tree, d: Tree, root: Object3D)
    requires WellFormed(t) && WellFormed(d) && d.up.Keys == t.up.Keys && Accurate(ix, t, root)
    ensures Accurate(ix, d, root) <==>
              && IndexedIn(Subtree(d, root) - {root}) == IndexedIn(Subtree(t, root) - {root})
              && Lights(Subtree(d, root) - {root}) == Lights(Subtree(t, root) - {root})
  {
  }

  lemma UnsceneRemove(w: World, l: Lists, p: Object3D, a: Object3D)
    requires Placed(w) && !IsRoot(w.tree, w.root) && Accurate(l.Contents(), w.tree, w.root)
    requires p in w.tree.up && a in w.tree.up && w.tree.up[a] == p
    ensures var d := Detached(w.tree, p, a);
      WellFormed(d) && (Accurate(l.Contents(), d, w.root) <==> RemovalIsListed(w, a))
  {
    InChildren(w.tree, p, a);
    hide Accurate, Under, Subtree, WellFormed;
    var t, d, root := w.tree, Detached(w.tree, p, a), w.root;
    DetachedShape(t, p, a);
    DetachedSubtree(t, p, a, root);
    SubtreesMeet(t, a, root);
    SelfIn(t, a);
    AccurateStill(l.Contents(), t, d, root);
    if Under(t, root, a) {
    } else if Under(t, a, root) {
      LeftOut(Subtree(t, root), Subtree(t, a), root);
    } else {
      assert Subtree(t, root) - Subtree(t, a) == Subtree(t, root);
    }
  }

  lemma SelfIn(t: Tree, a: Object3D)
    requires WellFormed(t) && a in t.up
    ensures a in Subtree(t, a) && Under(t, a, a)
    ensures forall x | x in t.up :: x in Subtree(t, a) <==> Under(t, x, a)
  {
  }

  /** Taking a part away leaves what is listed exactly if nothing in the part is. */
  lemma LeftOut(all: set<Object3D>, part: set<Object3D>, root: Object3D)
    requires part <= all && root !in part
    ensures (&& IndexedIn(all - part - {root}) == IndexedIn(all - {root})
             && Lights(all - part - {root}) == Lights(all - {root})) <==> Unlisted(part)
  {
    if IndexedIn(all - part - {root}) == IndexedIn(all - {root}) && Lights(all - part - {root}) == Lights(all - {root}) {
      forall o | o in part ensures !Indexed(o) && !o.kind.Light? {
        assert o in all - {root} && o !in all - part - {root};
        assert o !in IndexedIn(all - part - {root}) && o !in Lights(all - part - {root});
      }
    }
  }

  /** After a move the lists are right exactly if it is listed. */
  lemma SoundAfterAdd(w: World, l: Lists, drawn: Drawn, active: set<Object3D>, p: Object3D, a: Object3D)
    requires Placed(w) && Sound(w, l, drawn, active) && p in w.tree.up && a in w.tree.up
    requires !Under(w.tree, p, a) && w.tree.up[a] != p
    ensures var v := w.(tree := Transferred(w.tree, p, a));
      Placed(v) && (Sound(v, AfterAdd(w, l, p, a), drawn, active) <==> MoveIsListed(w, p, a))
  {
    hide Lists.NoneTwice, Lists.Contents, Accurate, Pending, Subtree, Under, Preorder, AfterRemove, AfterJoin, AfterAdd;
    AfterAddIs(w, l, p, a);
    TransferredShape(w.tree, p, a);
    if IsRoot(w.tree, w.root) && a != w.root {
      if w.tree.up[a] == null {
        SoundAfterJoin(w, l, drawn, active, p, a);
      } else {
        var q := w.tree.up[a];
        SoundInScene(w, l, drawn, active, q, a);
        SoundAfterJoin(w.(tree := Detached(w.tree, q, a)), AfterRemove(w, l, q, a), drawn, active, p, a);
      }
    } else {
      UnchangedByAdd(w, l, p, a);
      UnsceneAdd(w, l, p, a);
    }
  }

  lemma SoundAfterJoin(w: World, l: Lists, drawn: Drawn, active: set<Object3D>, p: Object3D, a: Object3D)
    requires Rooted(w) && Sound(w, l, drawn, active) && p in w.tree.up && a in w.tree.up
    requires IsRoot(w.tree, a) && a != w.root && !Under(w.tree, p, a)
    ensures var v := w.(tree := Attached(w.tree, p, a));
      Placed(v) && Sound(v, AfterJoin(w, l, p, a), drawn, active)
  {
    hide Lists.NoneTwice, Lists.Contents, Lists.AddAll, Accurate, Pending, Enlisted, Subtree, Under, Preorder, AfterJoin;
    var d := Attached(w.tree, p, a);
    AttachedAccurate(l.Contents(), w.tree, w.root, p, a);
    EnlistedPending(l.Contents(), Subtree(d, a), active);
    AfterJoinIs(w, l, p, a);
    PreorderIsSubtree(d, a);
    l.AddAllIsEnlisted(Preorder(d, a));
  }

  /** A scene that is a child, before or after the move, is told of nothing. */
  lemma UnchangedByAdd(w: World, l: Lists, p: Object3D, a: Object3D)
    requires Placed(w) && p in w.tree.up && a in w.tree.up && !Under(w.tree, p, a)
    requires !IsRoot(w.tree, w.root) || a == w.root
    ensures AfterAdd(w, l, p, a) == l
  {
    hide Under;
    AfterAddIs(w, l, p, a);
    if w.tree.up[a] == null {
      AfterJoinIs(w, l, p, a);
    } else {
      var q := w.tree.up[a];
      UnchangedByRemove(w, l, q, a);
      AfterJoinIs(w.(tree := Detached(w.tree, q, a)), l, p, a);
    }
  }

  lemma UnsceneAdd(w: World, l: Lists, p: Object3D, a: Object3D)
    requires Placed(w) && Accurate(l.Contents(), w.tree, w.root)
    requires p in w.tree.up && a in w.tree.up && !Under(w.tree, p, a) && w.tree.up[a] != p
    requires !IsRoot(w.tree, w.root) || a == w.root
    ensures var d := Transferred(w.tree, p, a);
      WellFormed(d) && (Accurate(l.Contents(), d, w.root) <==> MoveIsListed(w, p, a))
  {
    hide Accurate, Under, Subtree, WellFormed;
    var t, d, root := w.tree, Transferred(w.tree, p, a), w.root;
    TransferredShape(t, p, a);
    TransferredSubtree(t, p, a, root);
    SubtreesMeet(t, a, root);
    SelfIn(t, a);
    SelfIn(t, root);
    AccurateStill(l.Contents(), t, d, root);
    if !Under(t, root, a) {
      var part, all := Subtree(t, a), Subtree(t, root);
      if Under(t, a, root) && Under(t, p, root) {
        assert all - part + part == all;
      } else if Under(t, a, root) {
        LeftOut(all, part, root);
      } else if Under(t, p, root) {
        assert all - part + part == all + part && all + part - part == all;
        LeftOut(all + part, part, root);
      } else {
        assert all - part == all;
      }
    } else if Under(t, p, root) {
      UnderTransitive(t, p, root, a);
    }
  }

  lemma TransferredShape(t: Tree, p: Object3D, a: Object3D)
    requires WellFormed(t) && a in t.up && p in t.up && !Under(t, p, a)
    ensures WellFormed(Transferred(t, p, a)) && Transferred(t, p, a).up == t.up[a := p]
    ensures t.up[a] != p ==> (t.up[a] != null ==> t.up[a] in t.down) && Transferred(t, p, a).down == Moved(t.down, t.up[a], p, a)
  {
    if t.up[a] == null {
      AttachedShape(t, p, a);
      MovedShape(t, t, p, a);
    } else {
      StillNotUnder(t, p, a);
      var u := Detached(t, t.up[a], a);
      AttachedShape(u, p, a);
      assert Attached(u, p, a).up == t.up[a := p];
      if t.up[a] != p { MovedShape(t, u, p, a); }
    }
  }

  lemma TransferredSubtree(t: Tree, p: Object3D, a: Object3D, x: Object3D)
    requires WellFormed(t) && a in t.up && p in t.up && !Under(t, p, a) && x in t.up
    ensures WellFormed(Transferred(t, p, a))
    ensures var rest := if Under(t, x, a) then Subtree(t, x) else Subtree(t, x) - Subtree(t, a);
      Subtree(Transferred(t, p, a), x) == if Under(t, p, x) then rest + Subtree(t, a) else rest
  {
    TransferredShape(t, p, a);
    if t.up[a] == null {
      AttachedSubtree(t, p, a, x);
      forall o | o in Subtree(t, x) && o in Subtree(t, a) && !Under(t, x, a) ensures x == a || Under(t, a, x) {
        NestedOrApart(t, o, a, x);
      }
    } else {
      StillNotUnder(t, p, a);
      var u := Detached(t, t.up[a], a);
      DetachedSubtree(t, t.up[a], a, x);
      DetachedUnder(t, t.up[a], a, p, x);
      AttachedSubtree(u, p, a, x);
    }
  }

  /** The tree after a was moved below p. */
  ghost function Transferred(t: Tree, p: Object3D, a: Object3D): Tree
    requires WellFormed(t) && a in t.up && p in t.up && !Under(t, p, a)
  {
    var q := t.up[a];
    if q == null then Attached(t, p, a)
    else
      StillNotUnder(t, p, a);
      Attached(Detached(t, q, a), p, a)
  }

  lemma MovedShape(t: Tree, u: Tree, p: Object3D, a: Object3D)
    requires WellFormed(t) && p in t.up && a in t.up && t.up[a] != p && (t.up[a] != null ==> t.up[a] in t.up)
    requires u == if t.up[a] == null then t else Detached(t, t.up[a], a)
    requires WellFormed(u)
    ensures var v := Attached(u, p, a);
      && v.up == t.up[a := p]
      && v.down == Moved(t.down, t.up[a], p, a)
  {
    assert Attached(u, p, a).up == t.up[a := p];
  }

  /** The children after a was moved from old parent q, if any, to p. */
  function Moved(down: map<Object3D, seq<Object3D>>, q: Object3D?, p: Object3D, a: Object3D)
    : map<Object3D, seq<Object3D>>
    requires p in down && (q != null ==> q in down)
  {
    var rest := if q == null then down else down[q := WithoutFirst(down[q], a)];
    rest[p := rest[p] + [a]]
  }

  lemma StillNotUnder(t: Tree, o: Object3D, a: Object3D)
    requires WellFormed(t) && o in t.up && a in t.up && t.up[a] != null && !Under(t, o, a)
    ensures t.up[a] in t.up
    ensures WellFormed(Detached(t, t.up[a], a)) && !Under(Detached(t, t.up[a], a), o, a)
  {
    assert IsChild(t, a, t.up[a]);
    DetachedShape(t, t.up[a], a);
    DetachedUnder(t, t.up[a], a, o, a);
  }

  lemma InChildren(t: Tree, p: Object3D, a: Object3D)
    requires WellFormed(t) && p in t.up && a in t.up
    ensures p in t.down && (a in t.down[p] <==> t.up[a] == p)
  {
  }

  lemma {:induction false} UnderTogether(t: Tree, o: Object3D, c: Object3D)
    requires WellFormed(t) && o in t.up && c in t.up && Under(t, o, c) && !IsRoot(t, c)
    ensures t.up[c] in t.up && Under(t, o, t.up[c])
    decreases t.level[o]
  {
    assert IsChild(t, c, t.up[c]);
    if o != c {
      assert IsChild(t, o, t.up[o]);
      UnderTogether(t, t.up[o], c);
    }
  }

  lemma RootOfScene(w: World, o: Object3D, top: Object3D)
    requires Placed(w) && o in w.tree.up && top in w.tree.up && IsRoot(w.tree, top) && Under(w.tree, o, top)
    ensures top.scene != null <==> InScene(w, o)
    ensures top.scene != null ==> top.scene == w.scene
  {
    if InScene(w, o) {
      OneRootAbove(w.tree, o, w.root, top);
    }
  }

  class Scene {
    var objects: seq<Object3D>
    var lights: seq<Object3D>
    var objectsAdded: seq<Object3D>
    var objectsRemoved: seq<Object3D>
    var webglObjects: seq<Object3D>
    var webglObjectsImmediate: seq<Object3D>
    var webglSprites: seq<Object3D>

    function Drawing(): Drawn
      reads this
    {
      Drawn(webglObjects, webglObjectsImmediate, webglSprites)
    }

    function Current(): Lists
      reads this
    {
      Lists(objects, lights, objectsAdded, objectsRemoved)
    }

    constructor ()
      ensures Current() == Lists([], [], [], []) && Drawing() == Drawn([], [], [])
    {
      objects, lights, objectsAdded, objectsRemoved := [], [], [], [];
      webglObjects, webglObjectsImmediate, webglSprites := [], [], [];
    }

    /** Brings the renderer's list up to date: afterwards exactly the objects of the scene are active. */
    method InitWebGLObjects(ghost w: World)
      requires Valid(w) && this == w.scene
      modifies this`objectsAdded, this`objectsRemoved, w.tree.up.Keys`webglActive
      modifies this`webglObjects, this`webglObjectsImmediate, this`webglSprites
      ensures Valid(w) && objectsAdded == objectsRemoved == []
      ensures objects == old(objects) && Active(w.tree) == Elements(objects)
      ensures Drawing() == AllDropped(AllPut(old(Drawing()), old(Active(w.tree)), old(objectsAdded)), old(objectsRemoved))
    {
      hide Valid, Active;
      while objectsAdded != []
        invariant Valid(w) && objectsRemoved == old(objectsRemoved)
        invariant AllPut(Drawing(), Active(w.tree), objectsAdded) ==
                  AllPut(old(Drawing()), old(Active(w.tree)), old(objectsAdded))
        decreases |objectsAdded|
      {
        TakeAdded(w);
      }
      while objectsRemoved != []
        invariant Valid(w) && objectsAdded == []
        invariant AllDropped(Drawing(), objectsRemoved) ==
                  AllDropped(AllPut(old(Drawing()), old(Active(w.tree)), old(objectsAdded)), old(objectsRemoved))
        decreases |objectsRemoved|
      {
        TakeRemoved(w);
      }
      AllTaken(w);
    }

    lemma AllTaken(w: World)
      requires Valid(w) && this == w.scene && objectsAdded == objectsRemoved == []
      ensures Active(w.tree) == Elements(objects)
    {
    }

    /** Takes one object off the queue and lists it, unless it is active already. */
    method TakeAdded(ghost w: World)
      requires Valid(w) && this == w.scene && objectsAdded != []
      modifies this`objectsAdded, w.tree.up.Keys`webglActive
      modifies this`webglObjects, this`webglObjectsImmediate, this`webglSprites
      ensures Valid(w) && objectsAdded == old(objectsAdded[1..]) && objectsRemoved == old(objectsRemoved)
      ensures Active(w.tree) == old(Active(w.tree)) + {old(objectsAdded[0])}
      ensures Drawing() == if old(objectsAdded[0]) in old(Active(w.tree)) then old(Drawing())
                           else old(Drawing()).Put(old(objectsAdded[0]))
    {
      hide WellFormed, Sound, Matches;
      var h := objectsAdded[0];
      ghost var before, drawn, active := Current(), Drawing(), Active(w.tree);
      FirstAdded(w, before, drawn, active);
      if !h.webglActive {
        if h.kind.Drawable? {
          AddBuffers(h);
        } else if h.immediate {
          webglObjectsImmediate := webglObjectsImmediate + [h];
        } else if h.kind.Sprite? {
          webglSprites := webglSprites + [h];
        }
        h.webglActive := true;
      }
      objectsAdded := objectsAdded[1..];
      SoundAfterTaking(w, before, drawn, active);
      assert Active(w.tree) == active + {h};
    }

    method AddBuffers(h: Object3D)
      modifies this`webglObjects
      ensures webglObjects == old(webglObjects) + Copies(h, h.buffers)
    {
      var m := 0;
      while m < h.buffers
        invariant m <= h.buffers && webglObjects == old(webglObjects) + Copies(h, m)
      {
        webglObjects := webglObjects + [h];
        m := m + 1;
      }
    }

    /** Takes one object off the queue and drops it from its list. */
    method TakeRemoved(ghost w: World)
      requires Valid(w) && this == w.scene && objectsRemoved != []
      modifies this`objectsRemoved, w.tree.up.Keys`webglActive
      modifies this`webglObjects, this`webglObjectsImmediate, this`webglSprites
      ensures Valid(w) && objectsRemoved == old(objectsRemoved[1..]) && objectsAdded == old(objectsAdded)
      ensures Active(w.tree) == old(Active(w.tree)) - {old(objectsRemoved[0])}
      ensures Drawing() == old(Drawing()).Drop(old(objectsRemoved[0]))
    {
      hide WellFormed, Sound, Matches;
      var h := objectsRemoved[0];
      ghost var before, drawn, active := Current(), Drawing(), Active(w.tree);
      FirstRemoved(w, before, drawn, active);
      if h.kind.Drawable? {
        webglObjects := RemoveInstances(webglObjects, h);
      } else if h.kind.Sprite? {
        webglSprites := RemoveInstances(webglSprites, h);
      } else if h.immediate {
        webglObjectsImmediate := RemoveInstances(webglObjectsImmediate, h);
      }
      h.webglActive := false;
      objectsRemoved := objectsRemoved[1..];
      SoundAfterDropping(w, before, drawn, active);
      assert Active(w.tree) == active - {h};
    }

    /** Splices every entry of h out of a list, from the end. */
    static method RemoveInstances(entries: seq<Object3D>, h: Object3D) returns (rest: seq<Object3D>)
      ensures rest == Without<Object3D>(entries, h)
    {
      rest := entries;
      var c := |rest| - 1;
      while c >= 0
        invariant -1 <= c < |entries| && c < |rest|
        invariant rest == entries[..c + 1] + Without<Object3D>(entries[c + 1..], h)
      {
        assert entries[..c + 1] == entries[..c] + [entries[c]];
        assert entries[c..][1..] == entries[c + 1..];
        if rest[c] == h {
          rest := rest[..c] + rest[c + 1..];
        }
        c := c - 1;
      }
    }

    method RemoveObject(a: Object3D, ghost t: Tree)
      requires WellFormed(t) && Matches(t) && a in t.up
      modifies this`objects, this`lights, this`objectsAdded, this`objectsRemoved
      ensures Current() == old(Current()).RemoveAll(Preorder(t, a))
      decreases |Subtree(t, a)|
    {
      hide *;
      ChildrenAre(t, a);
      ghost var before := Current();
      RemoveOne(a);
      FirstAlone(before, a);
      StartOfPreorder(t, a);
      var c := 0;
      while c < |a.children|
        invariant 0 <= c <= |a.children| && Current() == before.RemoveAll([a] + Preorders(t, a, c))
      {
        ghost var done, more := [a] + Preorders(t, a, c), Preorder(t, t.down[a][c]);
        ChildSubtree(t, a, c);
        NextInPreorder(t, a, c);
        before.InTwoParts(done, more);
        RemoveObject(a.children[c], t);
        assert Current() == before.RemoveAll(done + more);
        c := c + 1;
      }
    }

    method RemoveOne(a: Object3D)
      modifies this`objects, this`lights, this`objectsAdded, this`objectsRemoved
      ensures Current() == old(Current()).Remove(a)
    {
      if a.kind.Light? {
        var c := IndexOf(lights, a);
        if c != -1 { lights := lights[..c] + lights[c + 1..]; }
      } else if !a.kind.Camera? {
        var c := IndexOf(objects, a);
        if c != -1 {
          objects := objects[..c] + objects[c + 1..];
          objectsRemoved := objectsRemoved + [a];
          c := IndexOf(objectsAdded, a);
          if c != -1 { objectsAdded := objectsAdded[..c] + objectsAdded[c + 1..]; }
        }
      }
    }

    method AddObject(a: Object3D, ghost t: Tree)
      requires WellFormed(t) && Matches(t) && a in t.up
      modifies this`objects, this`lights, this`objectsAdded, this`objectsRemoved
      ensures Current() == old(Current()).AddAll(Preorder(t, a))
      decreases |Subtree(t, a)|
    {
      hide *;
      ChildrenAre(t, a);
      ghost var before := Current();
      AddOne(a);
      FirstAlone(before, a);
      StartOfPreorder(t, a);
      var c := 0;
      while c < |a.children|
        invariant 0 <= c <= |a.children| && Current() == before.AddAll([a] + Preorders(t, a, c))
      {
        ghost var done, more := [a] + Preorders(t, a, c), Preorder(t, t.down[a][c]);
        ChildSubtree(t, a, c);
        NextInPreorder(t, a, c);
        before.InTwoParts(done, more);
        AddObject(a.children[c], t);
        assert Current() == before.AddAll(done + more);
        c := c + 1;
      }
    }

    method AddOne(a: Object3D)
      modifies this`objects, this`lights, this`objectsAdded, this`objectsRemoved
      ensures Current() == old(Current()).Add(a)
    {
      if a.kind.Light? {
        if IndexOf(lights, a) == -1 { lights := lights + [a]; }
      } else if !(a.kind.Camera? || a.kind.Bone?) && IndexOf(objects, a) == -1 {
        objects := objects + [a];
        objectsAdded := objectsAdded + [a];
        var c := IndexOf(objectsRemoved, a);
        if c != -1 { objectsRemoved := objectsRemoved[..c] + objectsRemoved[c + 1..]; }
      }
    }
  }

  /** Taking the first object off a queue. */
  lemma FirstAdded(w: World, l: Lists, drawn: Drawn, active: set<Object3D>)
    requires Placed(w) && Sound(w, l, drawn, active) && l.added != []
    ensures l.added[0] in w.tree.up && l.added[0] in Elements(l.added)
  {
    assert l.added[0] in Elements(l.added);
  }

  lemma SoundAfterTaking(w: World, l: Lists, drawn: Drawn, active: set<Object3D>)
    requires Placed(w) && Sound(w, l, drawn, active) && l.added != []
    ensures Sound(w, l.(added := l.added[1..]), if l.added[0] in active then drawn else drawn.Put(l.added[0]),
                  active + {l.added[0]})
  {
    var h, r := l.added[0], l.(added := l.added[1..]);
    DroppedElements(l.added, 0);
    assert l.added[..0] + l.added[1..] == l.added[1..];
    assert h in Elements(l.added);
    DrawsOneMore(drawn, active, h);
    assert Pending(r.Contents(), active + {h});
  }

  lemma DrawsOneMore(drawn: Drawn, active: set<Object3D>, h: Object3D)
    requires Draws(drawn, active)
    ensures Draws(if h in active then drawn else drawn.Put(h), active + {h})
  {
    hide DrawsBuffers, DrawsSprites, DrawsThemselves;
    if h in active {
      assert active + {h} == active;
    } else {
      BuffersPut(drawn.objects, active, h);
      SpritesPut(drawn.sprites, active, h);
      ThemselvesPut(drawn.immediate, active, h);
    }
  }

  lemma BuffersPut(s: seq<Object3D>, active: set<Object3D>, h: Object3D)
    requires DrawsBuffers(s, active) && h !in active
    ensures DrawsBuffers(if h.kind.Drawable? then s + Copies(h, h.buffers) else s, active + {h})
  {
    CopiesCount(s, h, h.buffers);
    assert multiset(s)[h] == 0;
  }

  lemma SpritesPut(s: seq<Object3D>, active: set<Object3D>, h: Object3D)
    requires DrawsSprites(s, active) && h !in active
    ensures DrawsSprites(if OnlySprite(h) then s + [h] else s, active + {h})
  {
    assert multiset(s)[h] == 0;
  }

  lemma ThemselvesPut(s: seq<Object3D>, active: set<Object3D>, h: Object3D)
    requires DrawsThemselves(s, active) && h !in active
    ensures DrawsThemselves(if DrawsItself(h) then s + [h] else s, active + {h})
  {
    assert !h.kind.Sprite? ==> multiset(s)[h] == 0;
  }

  lemma FirstRemoved(w: World, l: Lists, drawn: Drawn, active: set<Object3D>)
    requires Placed(w) && Sound(w, l, drawn, active) && l.removed != []
    ensures l.removed[0] in w.tree.up && l.removed[0] in Elements(l.removed)
  {
  }

  lemma SoundAfterDropping(w: World, l: Lists, drawn: Drawn, active: set<Object3D>)
    requires Placed(w) && Sound(w, l, drawn, active) && l.removed != []
    ensures Sound(w, l.(removed := l.removed[1..]), drawn.Drop(l.removed[0]), active - {l.removed[0]})
  {
    var h, r := l.removed[0], l.(removed := l.removed[1..]);
    DroppedElements(l.removed, 0);
    assert l.removed[..0] + l.removed[1..] == l.removed[1..];
    assert h in Elements(l.removed);
    DrawsOneLess(drawn, active, h);
    assert Pending(r.Contents(), active - {h});
  }

  lemma DrawsOneLess(drawn: Drawn, active: set<Object3D>, h: Object3D)
    requires Draws(drawn, active)
    ensures Draws(drawn.Drop(h), active - {h})
  {
    hide DrawsBuffers, DrawsSprites, DrawsThemselves, Without;
    BuffersDropped(drawn.objects, active, h);
    SpritesDropped(drawn.sprites, active, h);
    ThemselvesDropped(drawn.immediate, active, h);
  }

  lemma BuffersDropped(s: seq<Object3D>, active: set<Object3D>, h: Object3D)
    requires DrawsBuffers(s, active)
    ensures DrawsBuffers(if h.kind.Drawable? then Without<Object3D>(s, h) else s, active - {h})
  {
    WithoutKeeps(s, h);
  }

  lemma SpritesDropped(s: seq<Object3D>, active: set<Object3D>, h: Object3D)
    requires DrawsSprites(s, active)
    ensures DrawsSprites(if h.kind.Sprite? then Without<Object3D>(s, h) else s, active - {h})
  {
    WithoutKeeps(s, h);
  }

  lemma ThemselvesDropped(s: seq<Object3D>, active: set<Object3D>, h: Object3D)
    requires DrawsThemselves(s, active)
    ensures DrawsThemselves(if DrawsItself(h) && !h.kind.Sprite? then Without<Object3D>(s, h) else s, active - {h})
  {
    WithoutKeeps(s, h);
  }

  lemma WithoutKeeps(s: seq<Object3D>, h: Object3D)
    ensures multiset(Without<Object3D>(s, h)) == multiset(s)[h := 0]
    ensures forall o | o in Without<Object3D>(s, h) :: o in s && o != h
    ensures forall o | o in s && o != h :: o in Without<Object3D>(s, h)
  {
    WithoutCounts(s, h);
    forall o | o in Without<Object3D>(s, h) ensures o in s && o != h {
      assert multiset(Without<Object3D>(s, h))[o] > 0;
      assert multiset(s)[o] > 0;
    }
    forall o | o in s && o != h ensures o in Without<Object3D>(s, h) {
      assert multiset(s)[o] > 0;
      assert multiset(Without<Object3D>(s, h))[o] > 0;
    }
  }

  /** An active object is still listed after it was dropped exactly if it is a sprite that draws itself. */
  lemma LeftBehind(drawn: Drawn, active: set<Object3D>, h: Object3D)
    requires Draws(drawn, active) && h in active
    ensures var d := drawn.Drop(h);
      (h in d.objects || h in d.sprites || h in d.immediate) <==> h.kind.Sprite? && h.immediate
  {
    hide Without;
    WithoutKeeps(drawn.objects, h);
    WithoutKeeps(drawn.sprites, h);
    WithoutKeeps(drawn.immediate, h);
    assert multiset(drawn.immediate)[h] > 0 <==> h in drawn.immediate;
  }

  lemma ChildrenAre(t: Tree, o: Object3D)
    requires WellFormed(t) && Matches(t) && o in t.up
    ensures o in t.down && o.children == t.down[o]
  {
  }

  lemma StartOfPreorder(t: Tree, a: Object3D)
    requires WellFormed(t) && a in t.up
    ensures [a] + Preorders(t, a, 0) == [a]
    ensures forall i | 0 <= i < |t.down[a]| :: t.down[a][i] in t.up
    ensures Preorder(t, a) == [a] + Preorders(t, a, |t.down[a]|)
  {
  }

  lemma FirstAlone(l: Lists, a: Object3D)
    ensures l.AddAll([a]) == l.Add(a) && l.RemoveAll([a]) == l.Remove(a)
  {
    assert [a][..0] == [];
    assert l.AddAll([]) == l && l.RemoveAll([]) == l;
  }

  lemma NextInPreorder(t: Tree, a: Object3D, c: nat)
    requires WellFormed(t) && a in t.up && c < |t.down[a]|
    ensures [a] + Preorders(t, a, c + 1) == [a] + Preorders(t, a, c) + Preorder(t, t.down[a][c])
  {
  }

  // ----- where runs begin and grow ---------------------------------------------------------

  lemma InitiallyValid(w: World)
    requires w.tree == Tree(map[w.root := null], map[w.root := []], map[w.root := 0])
    requires w.root.scene == w.scene && w.root.parent == null && w.root.children == [] && !w.root.webglActive
    requires w.scene.Current() == Lists([], [], [], []) && w.scene.Drawing() == Drawn([], [], [])
    ensures Valid(w)
  {
    assert Subtree(w.tree, w.root) == {w.root};
    assert Active(w.tree) == {};
    assert w.scene.Current().Contents() == Index({}, {}, {}, {});
  }

  ghost function Extended(t: Tree, o: Object3D): Tree {
    Tree(t.up[o := null], t.down[o := []], t.level[o := 0])
  }

  lemma {:induction false} ExtendedUnder(t: Tree, o: Object3D, x: Object3D, root: Object3D)
    requires WellFormed(t) && o !in t.up && x in t.up && root in t.up && WellFormed(Extended(t, o))
    ensures Under(Extended(t, o), x, root) == Under(t, x, root)
    decreases t.level[x]
  {
    if x != root && !IsRoot(t, x) {
      assert IsChild(t, x, t.up[x]);
      ExtendedUnder(t, o, t.up[x], root);
    }
  }

  /** An object made during a run is no part of the scene yet. */
  lemma NewObjectValid(w: World, o: Object3D)
    requires Valid(w) && o !in w.tree.up
    requires o.parent == null && o.children == [] && o.scene == null && !o.webglActive
    ensures Valid(w.(tree := Extended(w.tree, o)))
  {
    hide Sound, WellFormed, Active;
    var v := w.(tree := Extended(w.tree, o));
    ExtendedShape(w, o);
    ExtendedActive(w.tree, o);
    ExtendedSound(w, o, w.scene.Current(), w.scene.Drawing(), Active(w.tree));
  }

  lemma ExtendedActive(t: Tree, o: Object3D)
    requires !o.webglActive
    ensures Active(Extended(t, o)) == Active(t)
  {
  }

  lemma ExtendedShape(w: World, o: Object3D)
    requires Placed(w) && o !in w.tree.up && o.scene == null
    ensures Placed(w.(tree := Extended(w.tree, o)))
  {
    var t, e := w.tree, Extended(w.tree, o);
    forall x | x in e.up ensures IsRoot(e, x) || IsChild(e, x, e.up[x]) {
      if x != o { assert IsRoot(t, x) || IsChild(t, x, t.up[x]); }
    }
  }

  lemma ExtendedSound(w: World, o: Object3D, l: Lists, drawn: Drawn, active: set<Object3D>)
    requires Placed(w) && o !in w.tree.up && Placed(w.(tree := Extended(w.tree, o)))
    requires Sound(w, l, drawn, active)
    ensures Sound(w.(tree := Extended(w.tree, o)), l, drawn, active)
  {
    hide Lists.NoneTwice, Lists.Contents, Pending, Draws, Under, Subtree;
    ExtendedSubtree(w.tree, o, w.root);
  }

  lemma ExtendedSubtree(t: Tree, o: Object3D, root: Object3D)
    requires WellFormed(t) && o !in t.up && root in t.up && WellFormed(Extended(t, o))
    ensures Subtree(Extended(t, o), root) == Subtree(t, root)
  {
    forall x | x in t.up ensures Under(Extended(t, o), x, root) == Under(t, x, root) {
      ExtendedUnder(t, o, x, root);
    }
  }

  // ----- what goes wrong -----------------------------------------------------------------------

  /** What is below the scene and can be listed is listed, in a world that is in agreement. */
  lemma ListedIfBelow(w: World, o: Object3D)
    requires Valid(w) && o in w.tree.up && o != w.root && Indexed(o)
    ensures o in Elements(w.scene.objects) <==> Under(w.tree, o, w.root)
  {
  }

  lemma ListedItself(w: World, o: Object3D)
    requires Valid(w) && w.root in w.tree.up && o in w.tree.up && o != w.root && Indexed(o)
    requires w.tree.up[o] == w.root || w.tree.up[o] == null
    ensures o in Elements(w.scene.objects) <==> w.tree.up[o] == w.root
  {
    ListedIfBelow(w, o);
  }

  /** An active sprite that draws itself is listed among those that do. */
  lemma SpriteIsListed(w: World, o: Object3D)
    requires Valid(w) && o in Active(w.tree) && o.kind.Sprite? && o.immediate
    ensures o in w.scene.webglObjectsImmediate
  {
    assert multiset(w.scene.webglObjectsImmediate)[o] >= 1;
  }

  /** No sprite leaves the list of those that draw themselves. */
  lemma {:induction false} SpritesStay(d: Drawn, queue: seq<Object3D>, o: Object3D)
    requires o.kind.Sprite? && o in d.immediate
    ensures o in AllDropped(d, queue).immediate
    decreases |queue|
  {
    if queue != [] {
      WithoutKeeps(d.immediate, queue[0]);
      SpritesStay(d.Drop(queue[0]), queue[1..], o);
    }
  }

  lemma {:induction false} PutKeeps(d: Drawn, active: set<Object3D>, queue: seq<Object3D>, o: Object3D)
    requires o in d.immediate
    ensures o in AllPut(d, active, queue).immediate
    decreases |queue|
  {
    if queue != [] {
      PutKeeps(if queue[0] in active then d else d.Put(queue[0]), active + {queue[0]}, queue[1..], o);
    }
  }

  /** A world with an empty scene and one other object. */
  method NewScene(kind: Kind, immediate: bool) returns (scene: Scene, root: Object3D, o: Object3D, ghost w: World)
    ensures fresh(scene) && fresh(root) && fresh(o) && o.kind == kind && o.immediate == immediate && o != root
    ensures Valid(w) && w.scene == scene && w.root == root && scene.objects == []
    ensures w.tree.up == map[root := null, o := null]
    ensures w.tree.down == map[root := [], o := []]
  {
    scene := new Scene();
    root := new Object3D(SceneRoot, scene, 0, false);
    o := new Object3D(kind, null, 0, immediate);
    ghost var v := World(Tree(map[root := null], map[root := []], map[root := 0]), root, scene);
    InitiallyValid(v);
    w := v.(tree := Extended(v.tree, o));
    NewObjectValid(v, o);
  }

  lemma ApartAtFirst(w: World, x: Object3D, y: Object3D)
    requires Placed(w) && x in w.tree.up && y in w.tree.up && x != y && w.tree.up[x] == null
    ensures !Under(w.tree, x, y)
    ensures IsRoot(w.tree, w.root) ==> MoveIsListed(w, x, y) && RemovalIsListed(w, y)
  {
  }

  /** The sprite is added below the scene and drawn. */
  method AddAndDraw(scene: Scene, root: Object3D, sprite: Object3D, ghost w: World) returns (ghost v: World)
    requires Valid(w) && w.scene == scene && w.root == root && root != sprite && w.tree.up == map[root := null, sprite := null]
    requires sprite.kind.Sprite? && sprite.immediate
    modifies root`children, sprite`parent, root`webglActive, sprite`webglActive, scene
    ensures Valid(v) && v.root == root && v.scene == scene && v.tree.up == map[root := null, sprite := root]
    ensures sprite in scene.webglObjectsImmediate
  {
    hide Sound, AllPut, AllDropped, Transferred, AfterAdd, Under, WellFormed;
    ApartAtFirst(w, root, sprite);
    TransferredShape(w.tree, root, sprite);
    v := root.Add(sprite, w);
    assert v.tree.up == map[root := null, sprite := root];
    scene.InitWebGLObjects(v);
    ListedItself(v, sprite);
    SpriteIsListed(v, sprite);
  }

  lemma DetachedUp(t: Tree, p: Object3D, a: Object3D)
    requires a in t.up && p in t.down
    ensures Detached(t, p, a).up == t.up[a := null]
  {
  }

  /** The sprite is taken from the scene, and the renderer drops what was removed. */
  method RemoveAndDraw(scene: Scene, root: Object3D, sprite: Object3D, ghost w: World) returns (ghost v: World)
    requires Valid(w) && w.scene == scene && w.root == root && root != sprite && w.tree.up == map[root := null, sprite := root]
    requires sprite.kind.Sprite? && sprite.immediate && sprite in scene.webglObjectsImmediate
    modifies root`children, sprite`parent, root`webglActive, sprite`webglActive, scene
    ensures sprite.parent == null && sprite !in scene.objects && !sprite.webglActive
    ensures sprite in scene.webglObjectsImmediate
  {
    hide Sound, AllPut, AllDropped, AfterRemove, Under, WellFormed;
    ApartAtFirst(w, root, sprite);
    InChildren(w.tree, root, sprite);
    DetachedUp(w.tree, root, sprite);
    hide Detached;
    assert sprite.parent == root;
    v := root.Remove(sprite, w);
    assert v.tree.up == map[root := null, sprite := null];
    ghost var d, active, q, r := scene.Drawing(), Active(v.tree), scene.objectsAdded, scene.objectsRemoved;
    scene.InitWebGLObjects(v);
    PutKeeps(d, active, q, sprite);
    SpritesStay(AllPut(d, active, q), r, sprite);
    ListedItself(v, sprite);
  }

  /** A sprite that draws itself is added, drawn, and removed. The renderer goes on listing it. */
  method SpriteStaysListed() returns (scene: Scene, sprite: Object3D)
    ensures sprite.parent == null && sprite !in scene.objects && !sprite.webglActive
    ensures sprite in scene.webglObjectsImmediate
  {
    hide Valid;
    var root;
    ghost var w;
    scene, root, sprite, w := NewScene(Sprite, true);
    w := AddAndDraw(scene, root, sprite, w);
    w := RemoveAndDraw(scene, root, sprite, w);
  }

  /** A scene is put below a group, and then a drawable object below the scene: it is not listed. */
  method SceneBelowGroup() returns (scene: Scene, root: Object3D, mesh: Object3D)
    ensures root.scene == scene && mesh.parent == root && Indexed(mesh) && scene.objects == []
  {
    hide Sound, Under, WellFormed;
    var group;
    ghost var w;
    scene, root, group, w := NewScene(Group, false);
    mesh := new Object3D(Drawable, null, 1, false);
    NewObjectValid(w, mesh);
    w := PutBelow(scene, group, root, mesh, w.(tree := Extended(w.tree, mesh)));
    w := AddUnlisted(scene, group, root, mesh, w);
  }

  method PutBelow(scene: Scene, group: Object3D, root: Object3D, mesh: Object3D, ghost w: World) returns (ghost v: World)
    requires Placed(w) && Matches(w.tree) && w.root == root && w.scene == scene && group != root && mesh != root
    requires w.tree.up == map[root := null, group := null, mesh := null]
    modifies group`children, root`parent, scene
    ensures Placed(v) && Matches(v.tree) && v.root == root && v.scene == scene
    ensures v.tree.up == map[root := group, group := null, mesh := null]
    ensures scene.objects == old(scene.objects)
  {
    hide Transferred, Under, WellFormed, AfterAdd;
    ApartAtFirst(w, group, root);
    TransferredShape(w.tree, group, root);
    UnchangedByAdd(w, scene.Current(), group, root);
    v := group.Add(root, w);
  }

  method AddUnlisted(scene: Scene, group: Object3D, root: Object3D, mesh: Object3D, ghost w: World) returns (ghost v: World)
    requires Placed(w) && Matches(w.tree) && w.root == root && w.scene == scene
    requires group != root && mesh != root && mesh != group
    requires w.tree.up == map[root := group, group := null, mesh := null]
    modifies root`children, mesh`parent, scene
    ensures mesh.parent == root && scene.objects == old(scene.objects)
  {
    hide Transferred, Under, WellFormed, AfterAdd;
    ApartBelow(w, group, root, mesh);
    TransferredShape(w.tree, root, mesh);
    UnchangedByAdd(w, scene.Current(), root, mesh);
    v := root.Add(mesh, w);
  }

  lemma ApartBelow(w: World, group: Object3D, x: Object3D, y: Object3D)
    requires Placed(w) && x in w.tree.up && group in w.tree.up && y in w.tree.up && x != y && group != y
    requires w.tree.up[x] == group && w.tree.up[group] == null
    ensures !Under(w.tree, x, y)
  {
  }
}
