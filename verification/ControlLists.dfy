/** Control lists: controls are told when a hand-point session starts and ends, lists can be
    nested, and controls can be added and removed while a session is on. */
module ControlLists {
  import opened Common

  datatype Call = Start(focus: int) | End

  /** An application control; calls records the callbacks it has received. */
  class AppControl {
    var calls: seq<Call>

    constructor ()
      ensures calls == []
    {
      calls := [];
    }
  }

  /** What a list can hold. Wait is the control by which the engagement manager watches the
      session of a tracked user; it occurs in the lists of users only. */
  datatype Control = App(app: AppControl) | Nested(list: ControlList) | Wait(userid: nat)

  // ----- the shape of a forest of lists, as a value -----------------------------------

  /** For every list of the forest, its listeners in order. */
  type Shape = map<ControlList, seq<Control>>
  type Rank = map<ControlList, nat>

  /** Nesting strictly lowers the rank, no control occurs twice, none is a Wait. */
  ghost predicate Forest(c: Shape, rank: Rank) {
    && c.Keys <= rank.Keys
    && (forall l, i | l in c && 0 <= i < |c[l]| :: Placed(c, rank, l, c[l][i]))
    && (forall l, m, i, j | l in c && m in c && 0 <= i < |c[l]| && 0 <= j < |c[m]| && c[l][i] == c[m][j] ::
          l == m && i == j)
  }

  ghost predicate Placed(c: Shape, rank: Rank, l: ControlList, x: Control)
    requires l in c && c.Keys <= rank.Keys
  {
    !x.Wait? && (x.Nested? ==> x.list in c && rank[x.list] < rank[l])
  }

  /** The lists nested, at any depth, in the first n listeners of l. */
  ghost function Lists(c: Shape, rank: Rank, l: ControlList, n: nat): set<ControlList>
    requires Forest(c, rank) && l in c && n <= |c[l]|
    decreases rank[l], n
  {
    if n == 0 then {}
    else
      assert Placed(c, rank, l, c[l][n - 1]);
      Lists(c, rank, l, n - 1) + ListsIn(c, rank, l, c[l][n - 1])
  }

  ghost function ListsIn(c: Shape, rank: Rank, l: ControlList, x: Control): set<ControlList>
    requires Forest(c, rank) && l in c && Placed(c, rank, l, x)
    decreases rank[l], 0
  {
    if x.Nested? then {x.list} + Lists(c, rank, x.list, |c[x.list]|) else {}
  }

  /** The application controls reached from the first n listeners of l. */
  ghost function Apps(c: Shape, rank: Rank, l: ControlList, n: nat): set<AppControl>
    requires Forest(c, rank) && l in c && n <= |c[l]|
    decreases rank[l], n
  {
    if n == 0 then {}
    else
      assert Placed(c, rank, l, c[l][n - 1]);
      Apps(c, rank, l, n - 1) + AppsIn(c, rank, l, c[l][n - 1])
  }

  ghost function AppsIn(c: Shape, rank: Rank, l: ControlList, x: Control): set<AppControl>
    requires Forest(c, rank) && l in c && Placed(c, rank, l, x)
    decreases rank[l], 0
  {
    match x
    case App(a) => {a}
    case Nested(m) => Apps(c, rank, m, |c[m]|)
    case Wait(_) => {}
  }

  /** Everything told about a session of l: l itself and all lists nested in it. */
  ghost function Below(c: Shape, rank: Rank, l: ControlList): (s: set<ControlList>)
    requires Forest(c, rank) && l in c
    ensures s <= c.Keys
  {
    ListsLower(c, rank, l, |c[l]|);
    {l} + Lists(c, rank, l, |c[l]|)
  }

  ghost function AppsBelow(c: Shape, rank: Rank, l: ControlList): set<AppControl>
    requires Forest(c, rank) && l in c
  {
    Apps(c, rank, l, |c[l]|)
  }

  ghost predicate Holds(c: Shape, l: ControlList, x: Control) {
    l in c && x in c[l]
  }

  lemma {:induction false} ListsLower(c: Shape, rank: Rank, l: ControlList, n: nat)
    requires Forest(c, rank) && l in c && n <= |c[l]|
    ensures forall m | m in Lists(c, rank, l, n) :: m in c && rank[m] < rank[l]
    decreases rank[l], n
  {
    if n > 0 {
      ListsLower(c, rank, l, n - 1);
      assert Placed(c, rank, l, c[l][n - 1]);
      if c[l][n - 1].Nested? {
        var m := c[l][n - 1].list;
        ListsLower(c, rank, m, |c[m]|);
      }
    }
  }

  /** A list nested below l sits in l or in another list below l, at a listener before n. */
  lemma {:induction false} ListsHaveParents(c: Shape, rank: Rank, l: ControlList, n: nat, m: ControlList)
    requires Forest(c, rank) && l in c && n <= |c[l]| && m in Lists(c, rank, l, n)
    ensures Nested(m) in c[l][..n] || exists p :: p in Lists(c, rank, l, n) && Holds(c, p, Nested(m))
    decreases rank[l], n
  {
    var x := c[l][n - 1];
    assert Placed(c, rank, l, x);
    if m in Lists(c, rank, l, n - 1) {
      ListsHaveParents(c, rank, l, n - 1, m);
    } else if m != x.list {
      ListsHaveParents(c, rank, x.list, |c[x.list]|, m);
      assert Nested(m) in c[x.list] ==> Holds(c, x.list, Nested(m));
    } else {
      assert c[l][..n][n - 1] == Nested(m);
    }
  }

  lemma {:induction false} AppsHaveParents(c: Shape, rank: Rank, l: ControlList, n: nat, a: AppControl)
    requires Forest(c, rank) && l in c && n <= |c[l]| && a in Apps(c, rank, l, n)
    ensures App(a) in c[l][..n] || exists p :: p in Lists(c, rank, l, n) && Holds(c, p, App(a))
    decreases rank[l], n
  {
    var x := c[l][n - 1];
    assert Placed(c, rank, l, x);
    if a in Apps(c, rank, l, n - 1) {
      AppsHaveParents(c, rank, l, n - 1, a);
    } else if x.Nested? {
      AppsHaveParents(c, rank, x.list, |c[x.list]|, a);
      assert App(a) in c[x.list] ==> Holds(c, x.list, App(a));
    } else {
      assert c[l][..n][n - 1] == App(a);
    }
  }

  /** Conversely, what sits in a list below l is below l. */
  lemma {:induction false} ListsClosed(c: Shape, rank: Rank, l: ControlList, n: nat, p: ControlList, i: nat)
    requires Forest(c, rank) && l in c && n <= |c[l]| && p in c && i < |c[p]|
    requires (p == l && i < n) || p in Lists(c, rank, l, n)
    ensures c[p][i].Nested? ==> c[p][i].list in Lists(c, rank, l, n)
    ensures c[p][i].App? ==> c[p][i].app in Apps(c, rank, l, n)
    decreases rank[l], n
  {
    if n > 0 {
      var x := c[l][n - 1];
      assert Placed(c, rank, l, x);
      if (p == l && i < n - 1) || p in Lists(c, rank, l, n - 1) {
        ListsClosed(c, rank, l, n - 1, p, i);
      } else if p != l {
        ListsClosed(c, rank, x.list, |c[x.list]|, p, i);
      } else {
        ListsLower(c, rank, l, n);
      }
    }
  }

  /** The parent of a list that lies strictly below l lies at or below l: parents are unique. */
  lemma ParentBelow(c: Shape, rank: Rank, l: ControlList, n: nat, m: ControlList, p: ControlList)
    requires Forest(c, rank) && l in c && n <= |c[l]| && m in Lists(c, rank, l, n) && Holds(c, p, Nested(m))
    ensures (p == l && Nested(m) in c[l][..n]) || p in Lists(c, rank, l, n)
  {
    ListsHaveParents(c, rank, l, n, m);
    var j :| 0 <= j < |c[p]| && c[p][j] == Nested(m);
    if Nested(m) in c[l][..n] {
      var i :| 0 <= i < n && c[l][..n][i] == Nested(m);
      assert c[l][i] == c[p][j];
    } else {
      var q :| q in Lists(c, rank, l, n) && Holds(c, q, Nested(m));
      var i :| 0 <= i < |c[q]| && c[q][i] == Nested(m);
    }
  }

  lemma AppParentBelow(c: Shape, rank: Rank, l: ControlList, n: nat, a: AppControl, p: ControlList)
    requires Forest(c, rank) && l in c && n <= |c[l]| && a in Apps(c, rank, l, n) && Holds(c, p, App(a))
    ensures (p == l && App(a) in c[l][..n]) || p in Lists(c, rank, l, n)
  {
    AppsHaveParents(c, rank, l, n, a);
    var j :| 0 <= j < |c[p]| && c[p][j] == App(a);
    if App(a) in c[l][..n] {
      var i :| 0 <= i < n && c[l][..n][i] == App(a);
      assert c[l][i] == c[p][j];
    } else {
      var q :| q in Lists(c, rank, l, n) && Holds(c, q, App(a));
      var i :| 0 <= i < |c[q]| && c[q][i] == App(a);
    }
  }

  /** The subtree of listener n is disjoint from the subtrees of the listeners before it. */
  lemma {:induction false} ListsDisjoint(c: Shape, rank: Rank, l: ControlList, n: nat, m: ControlList)
    requires Forest(c, rank) && l in c && n < |c[l]| && Placed(c, rank, l, c[l][n])
    requires m in Lists(c, rank, l, n)
    ensures m !in ListsIn(c, rank, l, c[l][n])
    decreases if m in rank && rank[m] <= rank[l] then rank[l] - rank[m] else 0
  {
    var x := c[l][n];
    ListsLower(c, rank, l, n);
    if m in ListsIn(c, rank, l, x) {
      ListsLower(c, rank, x.list, |c[x.list]|);
      if m == x.list {
        ParentBelow(c, rank, l, n, m, l);
      } else {
        ListsHaveParents(c, rank, x.list, |c[x.list]|, m);
        var p: ControlList;
        if Nested(m) in c[x.list] {
          p := x.list;
        } else {
          p :| p in Lists(c, rank, x.list, |c[x.list]|) && Holds(c, p, Nested(m));
        }
        ParentBelow(c, rank, l, n, m, p);
        HolderRanksHigher(c, rank, p, m);
        ListsDisjoint(c, rank, l, n, p);
      }
    }
  }

  lemma HolderRanksHigher(c: Shape, rank: Rank, p: ControlList, m: ControlList)
    requires Forest(c, rank) && Holds(c, p, Nested(m))
    ensures m in c && rank[m] < rank[p]
  {
  }

  lemma AppsDisjoint(c: Shape, rank: Rank, l: ControlList, n: nat, a: AppControl)
    requires Forest(c, rank) && l in c && n < |c[l]| && Placed(c, rank, l, c[l][n])
    requires a in Apps(c, rank, l, n)
    ensures a !in AppsIn(c, rank, l, c[l][n])
  {
    var x := c[l][n];
    if a in AppsIn(c, rank, l, x) {
      if x == App(a) {
        AppParentBelow(c, rank, l, n, a, l);
        ListsLower(c, rank, l, n);
      } else {
        AppsHaveParents(c, rank, x.list, |c[x.list]|, a);
        var p: ControlList;
        if App(a) in c[x.list] {
          p := x.list;
        } else {
          p :| p in Lists(c, rank, x.list, |c[x.list]|) && Holds(c, p, App(a));
        }
        AppParentBelow(c, rank, l, n, a, p);
        ListsLower(c, rank, x.list, |c[x.list]|);
        ListsDisjoint(c, rank, l, n, p);
      }
    }
  }

  lemma {:induction false} ListsGrow(c: Shape, rank: Rank, l: ControlList, n: nat, k: nat)
    requires Forest(c, rank) && l in c && n <= k <= |c[l]|
    ensures Lists(c, rank, l, n) <= Lists(c, rank, l, k) && Apps(c, rank, l, n) <= Apps(c, rank, l, k)
    decreases k
  {
    if n < k {
      ListsGrow(c, rank, l, n, k - 1);
      assert Placed(c, rank, l, c[l][k - 1]);
    }
  }

  /** What telling listener n of a list amounts to: its subtree is new and lies below l. */
  lemma ListenerSubtree(c: Shape, rank: Rank, l: ControlList, n: nat)
    requires Forest(c, rank) && l in c && n < |c[l]|
    ensures var x := c[l][n];
      && !x.Wait? && (x.Nested? ==> x.list in c && rank[x.list] < rank[l])
      && Lists(c, rank, l, n + 1) == Lists(c, rank, l, n) + ToldLists(c, rank, x)
      && Apps(c, rank, l, n + 1) == Apps(c, rank, l, n) + ToldApps(c, rank, x)
      && Apps(c, rank, l, n) !! ToldApps(c, rank, x)
      && ToldLists(c, rank, x) <= Below(c, rank, l) - {l}
      && ToldApps(c, rank, x) <= AppsBelow(c, rank, l)
  {
    assert Placed(c, rank, l, c[l][n]);
    ListsGrow(c, rank, l, n + 1, |c[l]|);
    ListsLower(c, rank, l, n + 1);
    forall a | a in Apps(c, rank, l, n) ensures a !in AppsIn(c, rank, l, c[l][n]) {
      AppsDisjoint(c, rank, l, n, a);
    }
  }

  lemma WholeSubtree(c: Shape, rank: Rank, l: ControlList)
    requires Forest(c, rank) && l in c
    ensures l in rank && Below(c, rank, l) == {l} + Lists(c, rank, l, |c[l]|) && AppsBelow(c, rank, l) == Apps(c, rank, l, |c[l]|)
    ensures l !in Lists(c, rank, l, |c[l]|) && Lists(c, rank, l, 0) == {} && Apps(c, rank, l, 0) == {}
  {
    ListsLower(c, rank, l, |c[l]|);
  }

  /** The shape is what these lists actually hold. */
  ghost predicate Matches(c: Shape, lists: set<ControlList>)
    requires lists <= c.Keys
    reads lists`listeners
  {
    forall l | l in lists :: l.listeners == c[l]
  }

  // ----- whom a control passes a session on to ------------------------------------------

  /** The lists and application controls told when control x is told. */
  ghost function ToldLists(c: Shape, rank: Rank, x: Control): (s: set<ControlList>)
    requires Forest(c, rank) && (x.Nested? ==> x.list in c)
    ensures s <= c.Keys
  {
    if x.Nested? then Below(c, rank, x.list) else {}
  }

  ghost function ToldApps(c: Shape, rank: Rank, x: Control): set<AppControl>
    requires Forest(c, rank) && (x.Nested? ==> x.list in c)
  {
    match x
    case App(a) => {a}
    case Nested(m) => AppsBelow(c, rank, m)
    case Wait(_) => {}
  }

  ghost function ListsOf(c: Shape, rank: Rank, x: Option<Control>): (s: set<ControlList>)
    requires Forest(c, rank)
    ensures s <= c.Keys
  {
    if x.Some? && (x.value.Nested? ==> x.value.list in c) then ToldLists(c, rank, x.value) else {}
  }

  ghost function AppsOf(c: Shape, rank: Rank, x: Option<Control>): set<AppControl>
    requires Forest(c, rank)
  {
    if x.Some? && (x.value.Nested? ==> x.value.list in c) then ToldApps(c, rank, x.value) else {}
  }

  /** The control, if there is one, can be told: what it passes the call on to is known. */
  ghost predicate Tellable(c: Shape, rank: Rank, apps: set<AppControl>, x: Option<Control>)
    requires Forest(c, rank)
    reads c.Keys`listeners
  {
    && (x.Some? && x.value.Nested? ==> x.value.list in c)
    && AppsOf(c, rank, x) <= apps
    && Matches(c, ListsOf(c, rank, x))
  }

  /** Calls onSessionStart on a control. */
  method TellStart(x: Control, focus: int, ghost c: Shape, ghost rank: Rank, ghost apps: set<AppControl>)
    requires Forest(c, rank) && (x.Nested? ==> x.list in c)
    requires ToldApps(c, rank, x) <= apps && Matches(c, ToldLists(c, rank, x))
    modifies ToldLists(c, rank, x)`isInHandpointSession, ToldLists(c, rank, x)`focusPoint
    modifies ToldApps(c, rank, x)`calls
    ensures forall m | m in c && m in ToldLists(c, rank, x) :: m.isInHandpointSession && m.focusPoint == focus
    ensures forall a | a in apps && a in ToldApps(c, rank, x) :: a.calls == old(a.calls) + [Start(focus)]
    decreases if x.Nested? then rank[x.list] + 1 else 0, 1
  {
    match x {
      case App(a) => a.calls := a.calls + [Start(focus)];
      case Nested(m) => m.OnSessionStart(focus, c, rank, apps);
      case Wait(_) =>
    }
  }

  /** Calls onSessionEnd on a control. */
  method TellEnd(x: Control, ghost c: Shape, ghost rank: Rank, ghost apps: set<AppControl>)
    requires Forest(c, rank) && (x.Nested? ==> x.list in c)
    requires ToldApps(c, rank, x) <= apps && Matches(c, ToldLists(c, rank, x))
    modifies ToldLists(c, rank, x)`isInHandpointSession
    modifies ToldApps(c, rank, x)`calls
    ensures forall m | m in c && m in ToldLists(c, rank, x) :: !m.isInHandpointSession
    ensures forall a | a in apps && a in ToldApps(c, rank, x) :: a.calls == old(a.calls) + [End]
    decreases if x.Nested? then rank[x.list] + 1 else 0, 1
  {
    match x {
      case App(a) => a.calls := a.calls + [End];
      case Nested(m) => m.OnSessionEnd(c, rank, apps);
      case Wait(_) =>
    }
  }

  class ControlList {
    var listeners: seq<Control>
    var focusedControl: Option<Control>
    var isInHandpointSession: bool
    var focusPoint: int

    constructor ()
      ensures listeners == [] && focusedControl == None && !isInHandpointSession && focusPoint == 0
    {
      listeners, focusedControl, isInHandpointSession, focusPoint := [], None, false, 0;
    }

    /** Every list at or below this one enters the session, and every application control
        below is told exactly once; nothing else changes. */
    method OnSessionStart(focus: int, ghost c: Shape, ghost rank: Rank, ghost apps: set<AppControl>)
      requires Forest(c, rank) && this in c && AppsBelow(c, rank, this) <= apps
      requires Matches(c, Below(c, rank, this))
      modifies Below(c, rank, this)`isInHandpointSession, Below(c, rank, this)`focusPoint
      modifies AppsBelow(c, rank, this)`calls
      ensures forall m | m in c && m in Below(c, rank, this) :: m.isInHandpointSession && m.focusPoint == focus
      ensures forall a | a in apps && a in AppsBelow(c, rank, this) :: a.calls == old(a.calls) + [Start(focus)]
      decreases rank[this] + 1, 0
    {
      hide Forest, Below, AppsBelow, Lists, Apps, ToldLists, ToldApps;
      WholeSubtree(c, rank, this);
      isInHandpointSession := true;
      focusPoint := focus;
      var i := 0;
      while i < |listeners|
        invariant 0 <= i <= |listeners| && listeners == c[this] && isInHandpointSession && focusPoint == focus
        invariant forall m | m in c && m in Lists(c, rank, this, i) :: m.isInHandpointSession && m.focusPoint == focus
        invariant forall a | a in apps && a in AppsBelow(c, rank, this) ::
                    a.calls == if a in Apps(c, rank, this, i) then old(a.calls) + [Start(focus)] else old(a.calls)
      {
        ListenerSubtree(c, rank, this, i);
        TellStart(listeners[i], focus, c, rank, apps);
        i := i + 1;
      }
    }

    method OnSessionEnd(ghost c: Shape, ghost rank: Rank, ghost apps: set<AppControl>)
      requires Forest(c, rank) && this in c && AppsBelow(c, rank, this) <= apps
      requires Matches(c, Below(c, rank, this))
      modifies Below(c, rank, this)`isInHandpointSession
      modifies AppsBelow(c, rank, this)`calls
      ensures forall m | m in c && m in Below(c, rank, this) :: !m.isInHandpointSession
      ensures forall a | a in apps && a in AppsBelow(c, rank, this) :: a.calls == old(a.calls) + [End]
      decreases rank[this] + 1, 0
    {
      hide Forest, Below, AppsBelow, Lists, Apps, ToldLists, ToldApps;
      WholeSubtree(c, rank, this);
      var i := 0;
      while i < |listeners|
        invariant 0 <= i <= |listeners| && listeners == c[this]
        invariant forall m | m in c && m in Lists(c, rank, this, i) :: !m.isInHandpointSession
        invariant forall a | a in apps && a in AppsBelow(c, rank, this) ::
                    a.calls == if a in Apps(c, rank, this, i) then old(a.calls) + [End] else old(a.calls)
      {
        ListenerSubtree(c, rank, this, i);
        TellEnd(listeners[i], c, rank, apps);
        i := i + 1;
      }
      isInHandpointSession := false;
    }

    /** Appends a control; during a session the control is told at once. An undefined
        control is ignored. */
    method AddControl(control: Option<Control>, ghost c: Shape, ghost rank: Rank, ghost apps: set<AppControl>)
      requires Forest(c, rank) && Tellable(c, rank, apps, control) && this !in ListsOf(c, rank, control)
      modifies this`listeners, AppsOf(c, rank, control)`calls
      modifies ListsOf(c, rank, control)`isInHandpointSession, ListsOf(c, rank, control)`focusPoint
      ensures listeners == if control.Some? then old(listeners) + [control.value] else old(listeners)
      ensures isInHandpointSession == old(isInHandpointSession)
      ensures forall m | m in c && m in ListsOf(c, rank, control) ::
                && m.isInHandpointSession == (isInHandpointSession || old(m.isInHandpointSession))
                && m.focusPoint == if isInHandpointSession then focusPoint else old(m.focusPoint)
      ensures forall a | a in apps && a in AppsOf(c, rank, control) ::
                a.calls == if isInHandpointSession then old(a.calls) + [Start(focusPoint)] else old(a.calls)
    {
      if control == None { return; }
      listeners := listeners + [control.value];
      if isInHandpointSession {
        TellStart(control.value, focusPoint, c, rank, apps);
      }
    }

    /** Splices the control out; during a session whatever was spliced out is told. With an
        absent control the index is -1 and the last listener goes instead; with no listener at
        all during a session, calling the missing one raises. */
    method RemoveControl(control: Option<Control>, ghost c: Shape, ghost rank: Rank, ghost apps: set<AppControl>)
      returns (threw: bool)
      requires Forest(c, rank) && Tellable(c, rank, apps, Evicted(listeners, control))
      requires this !in ListsOf(c, rank, Evicted(listeners, control))
      modifies this`listeners, AppsOf(c, rank, Evicted(listeners, control))`calls
      modifies ListsOf(c, rank, Evicted(listeners, control))`isInHandpointSession
      ensures listeners == AfterRemoval(old(listeners), control)
      ensures isInHandpointSession == old(isInHandpointSession)
      ensures threw <==> control.Some? && old(listeners) == [] && isInHandpointSession
      ensures forall m | m in c && m in ListsOf(c, rank, old(Evicted(listeners, control))) ::
                m.isInHandpointSession == (!isInHandpointSession && old(m.isInHandpointSession))
      ensures forall a | a in apps && a in AppsOf(c, rank, old(Evicted(listeners, control))) ::
                a.calls == if isInHandpointSession then old(a.calls) + [End] else old(a.calls)
    {
      if control == None { return false; }
      var removed := Evicted(listeners, control);
      listeners := AfterRemoval(listeners, control);
      if isInHandpointSession {
        if removed == None { return true; }
        TellEnd(removed.value, c, rank, apps);
      }
      return false;
    }
  }

  /** The element taken out by splice(indexOf(x), 1). */
  function Evicted(s: seq<Control>, control: Option<Control>): Option<Control> {
    if control == None || s == [] then None
    else
      var i := IndexOf(s, control.value);
      Some(s[if i == -1 then |s| - 1 else i])
  }

  function AfterRemoval(s: seq<Control>, control: Option<Control>): seq<Control> {
    if control == None || s == [] then s
    else
      var i := IndexOf(s, control.value);
      if i == -1 then s[..|s| - 1] else s[..i] + s[i + 1..]
  }

  lemma {:induction false} WithoutAbsent(s: seq<Control>, x: Control)
    requires x !in s
    ensures Without(s, x) == s
  {
    if s != [] {
      WithoutAbsent(s[1..], x);
    }
  }

  lemma {:induction false} WithoutConcat(s: seq<Control>, t: seq<Control>, x: Control)
    ensures Without(s + t, x) == Without(s, x) + Without(t, x)
  {
    if s == [] {
      assert s + t == t;
    } else {
      var head := if s[0] == x then [] else [s[0]];
      assert (s + t)[1..] == s[1..] + t && (s + t)[0] == s[0];
      WithoutConcat(s[1..], t, x);
      assert head + (Without(s[1..], x) + Without(t, x)) == head + Without(s[1..], x) + Without(t, x);
    }
  }

  lemma RemovalWhenPresent(s: seq<Control>, x: Control, i: nat)
    requires i < |s| && s[i] == x && x !in s[..i] && x !in s[i + 1..]
    ensures Without(s, x) == s[..i] + s[i + 1..]
  {
    var front, back := s[..i], s[i + 1..];
    assert s == front + s[i..];
    assert s[i..][1..] == back && s[i..][0] == x;
    assert Without(s[i..], x) == [] + Without(back, x);
    WithoutConcat(front, s[i..], x);
    WithoutAbsent(front, x);
    WithoutAbsent(back, x);
  }

  /** Removing takes out that control and nothing else exactly when the control is in the list
      or the list is empty. */
  lemma RemovalIsExact(s: seq<Control>, x: Control)
    requires forall i, j | 0 <= i < j < |s| :: s[i] != s[j]
    ensures AfterRemoval(s, Some(x)) == Without(s, x) <==> x in s || s == []
  {
    hide Without, IndexOf;
    if x in s {
      RemovalWhenPresent(s, x, IndexOf(s, x));
    } else {
      WithoutAbsent(s, x);
      assert s != [] ==> |AfterRemoval(s, Some(x))| == |s| - 1;
    }
  }

  /** What is taken out of front + [y] + back: y, if the control is y and not in front; the last
      element, if the control is not in the list at all. */
  lemma EvictionExactly(front: seq<Control>, y: Control, back: seq<Control>, x: Control)
    requires y !in front && (x != y ==> back == [] && x !in front)
    ensures Evicted(front + [y] + back, Some(x)) == Some(y)
    ensures AfterRemoval(front + [y] + back, Some(x)) == front + back
    ensures Evicted([], Some(x)) == None && AfterRemoval([], Some(x)) == []
  {
    FirstAfter(front, y, back);
    hide IndexOf;
    var s := front + [y] + back;
    assert s[|front|] == y && s[..|front|] == front && s[|front| + 1..] == back;
  }

  lemma {:induction false} FirstAfter(front: seq<Control>, y: Control, back: seq<Control>)
    requires y !in front
    ensures IndexOf(front + [y] + back, y) == |front|
    decreases |front|
  {
    var s := front + [y] + back;
    if front != [] {
      assert s[1..] == front[1..] + [y] + back && s[0] == front[0];
      FirstAfter(front[1..], y, back);
    }
  }

  // ----- every control hears alternating starts and ends -----------------------------------

  predicate Alternating(calls: seq<Call>) {
    forall i | 0 <= i < |calls| :: calls[i].Start? <==> i % 2 == 0
  }

  predicate Ongoing(calls: seq<Call>) {
    calls != [] && calls[|calls| - 1].Start?
  }

  predicate Started(x: Control)
    reads (if x.App? then {x.app} else {})`calls, (if x.Nested? then {x.list} else {})`isInHandpointSession
  {
    match x
    case App(a) => Ongoing(a.calls)
    case Nested(l) => l.isInHandpointSession
    case Wait(_) => false
  }

  /** Control x, sitting in list l, is started exactly when l is in a session. */
  ghost predicate Agrees(lists: set<ControlList>, apps: set<AppControl>, l: ControlList, x: Control)
    requires l in lists
    reads lists`isInHandpointSession, apps`calls
  {
    && (x.App? ==> x.app in apps)
    && (x.Nested? ==> x.list in lists)
    && Started(x) == l.isInHandpointSession
  }

  ghost predicate AllAgree(c: Shape, apps: set<AppControl>)
    reads c.Keys`isInHandpointSession, apps`calls
  {
    forall l, i | l in c && 0 <= i < |c[l]| :: Agrees(c.Keys, apps, l, c[l][i])
  }

  ghost predicate AllAlternate(apps: set<AppControl>)
    reads apps`calls
  {
    forall a | a in apps :: Alternating(a.calls)
  }

  ghost predicate AllOngoing(apps: set<AppControl>, on: bool)
    reads apps`calls
  {
    forall a | a in apps :: Ongoing(a.calls) == on
  }

  /** The state of a forest between callbacks: a control is started exactly when the list it
      sits in is in a session, and application controls that sit nowhere are not started. */
  ghost predicate Steady(c: Shape, rank: Rank, apps: set<AppControl>)
    reads c.Keys`listeners, c.Keys`isInHandpointSession, apps`calls
  {
    && Forest(c, rank) && Matches(c, c.Keys)
    && AllAgree(c, apps)
    && (forall a | a in apps && Ongoing(a.calls) :: Held(c, a))
  }

  /** Steady, and the starts and ends each application control has heard alternate. */
  ghost predicate Sound(c: Shape, rank: Rank, apps: set<AppControl>)
    reads c.Keys`listeners, c.Keys`isInHandpointSession, apps`calls
  {
    Steady(c, rank, apps) && AllAlternate(apps)
  }

  ghost predicate Held(c: Shape, a: AppControl) {
    exists p | p in c :: App(a) in c[p]
  }

  /** The control sits in no list of the forest. */
  ghost predicate Detached(c: Shape, x: Control) {
    forall p | p in c :: x !in c[p]
  }

  /** Children of told lists are told. */
  lemma ToldClosed(c: Shape, rank: Rank, x: Control, p: ControlList, i: nat)
    requires Forest(c, rank) && (x.Nested? ==> x.list in c)
    requires p in ToldLists(c, rank, x) && i < |c[p]|
    ensures c[p][i].Nested? ==> c[p][i].list in ToldLists(c, rank, x)
    ensures c[p][i].App? ==> c[p][i].app in ToldApps(c, rank, x)
  {
    ListsClosed(c, rank, x.list, |c[x.list]|, p, i);
  }

  /** Children of other lists are not told, when the control itself sits in no list. */
  lemma ToldIsolated(c: Shape, rank: Rank, x: Control, p: ControlList, i: nat)
    requires Forest(c, rank) && (x.Nested? ==> x.list in c) && Detached(c, x)
    requires p in c && p !in ToldLists(c, rank, x) && i < |c[p]|
    ensures c[p][i].Nested? ==> c[p][i].list !in ToldLists(c, rank, x)
    ensures c[p][i].App? ==> c[p][i].app !in ToldApps(c, rank, x)
  {
    var y := c[p][i];
    if x.Nested? && y.Nested? && y.list in ToldLists(c, rank, x) {
      ParentBelow(c, rank, x.list, |c[x.list]|, y.list, p);
    }
    if x.Nested? && y.App? && y.app in ToldApps(c, rank, x) {
      AppParentBelow(c, rank, x.list, |c[x.list]|, y.app, p);
    }
  }

  /** An application control told through a list sits in one of the told lists. */
  lemma ToldAppsHeld(c: Shape, rank: Rank, x: Control, a: AppControl)
    requires Forest(c, rank) && x.Nested? && x.list in c && a in ToldApps(c, rank, x)
    ensures exists p :: p in ToldLists(c, rank, x) && Holds(c, p, App(a))
  {
    AppsHaveParents(c, rank, x.list, |c[x.list]|, a);
    if App(a) in c[x.list] {
      assert Holds(c, x.list, App(a));
    }
  }

  /** Telling a control that sits in no list splits the forest: told lists have told children,
      other lists have other children, and every told application control sits in a told list. */
  lemma ToldSplit(c: Shape, rank: Rank, x: Control)
    requires Forest(c, rank) && (x.Nested? ==> x.list in c) && Detached(c, x)
    ensures forall p, i | p in c && 0 <= i < |c[p]| && c[p][i].Nested? ::
              p in ToldLists(c, rank, x) <==> c[p][i].list in ToldLists(c, rank, x)
    ensures forall p, i | p in c && 0 <= i < |c[p]| && c[p][i].App? ::
              p in ToldLists(c, rank, x) <==> c[p][i].app in ToldApps(c, rank, x)
    ensures forall a | a in ToldApps(c, rank, x) :: x == App(a) || Held(c, a)
  {
    forall p, i | p in c && 0 <= i < |c[p]|
      ensures c[p][i].Nested? ==> (p in ToldLists(c, rank, x) <==> c[p][i].list in ToldLists(c, rank, x))
      ensures c[p][i].App? ==> (p in ToldLists(c, rank, x) <==> c[p][i].app in ToldApps(c, rank, x))
    {
      if p in ToldLists(c, rank, x) { ToldClosed(c, rank, x, p, i); } else { ToldIsolated(c, rank, x, p, i); }
    }
    forall a | a in ToldApps(c, rank, x) && x != App(a) ensures Held(c, a) {
      ToldAppsHeld(c, rank, x, a);
    }
  }

  // Snapshots of the session flags and of the callbacks heard.
  type Flags = map<ControlList, bool>
  type Heard = map<AppControl, seq<Call>>

  ghost function FlagsOf(c: Shape): Flags
    reads c.Keys`isInHandpointSession
  {
    map l | l in c :: l.isInHandpointSession
  }

  ghost function HeardBy(apps: set<AppControl>): Heard
    reads apps`calls
  {
    map a | a in apps :: a.calls
  }

  /** Exactly what is told by x has entered, or left, the session. */
  ghost predicate Told(c: Shape, rank: Rank, apps: set<AppControl>, x: Control, call: Call, flags: Flags, heard: Heard)
    requires Forest(c, rank) && (x.Nested? ==> x.list in c)
    requires c.Keys == flags.Keys && apps == heard.Keys
    reads c.Keys`listeners, c.Keys`isInHandpointSession, apps`calls
  {
    && (forall m | m in c ::
          m.isInHandpointSession == if m in ToldLists(c, rank, x) then call.Start? else flags[m])
    && (forall a | a in apps ::
          a.calls == if a in ToldApps(c, rank, x) then heard[a] + [call] else heard[a])
  }

  /** Telling a control that sits in no list keeps every placed control in agreement with its list. */
  lemma AgreeAfterTelling(c: Shape, rank: Rank, apps: set<AppControl>, x: Control, call: Call,
                          flags: Flags, heard: Heard)
    requires Forest(c, rank) && (x.Nested? ==> x.list in c) && Detached(c, x)
    requires c.Keys == flags.Keys && apps == heard.Keys
    requires AgreeMaps(c, apps, flags, heard) && Told(c, rank, apps, x, call, flags, heard)
    ensures AllAgree(c, apps)
    ensures AllOngoing(apps * ToldApps(c, rank, x), call.Start?)
  {
    ToldSplit(c, rank, x);
    forall p, i | p in c && 0 <= i < |c[p]| ensures Agrees(c.Keys, apps, p, c[p][i]) {
      assert Placed(c, rank, p, c[p][i]);
    }
  }

  /** ... and keeps starts and ends alternating when nothing told was on already, or off already. */
  lemma AlternateAfterTelling(c: Shape, rank: Rank, apps: set<AppControl>, x: Control, call: Call,
                              flags: Flags, heard: Heard)
    requires Forest(c, rank) && (x.Nested? ==> x.list in c)
    requires c.Keys == flags.Keys && apps == heard.Keys && Told(c, rank, apps, x, call, flags, heard)
    requires forall a | a in apps :: Alternating(heard[a])
    requires forall a | a in apps && a in ToldApps(c, rank, x) :: Ongoing(heard[a]) == call.End?
    ensures AllAlternate(apps)
  {
  }

  /** Agreement, read off snapshots. */
  ghost predicate AgreeMaps(c: Shape, apps: set<AppControl>, flags: Flags, heard: Heard)
    requires c.Keys == flags.Keys && apps == heard.Keys
  {
    && (forall l, i | l in c && 0 <= i < |c[l]| && c[l][i].App? ::
          c[l][i].app in apps && Ongoing(heard[c[l][i].app]) == flags[l])
    && (forall l, i | l in c && 0 <= i < |c[l]| && c[l][i].Nested? ::
          c[l][i].list in c && flags[c[l][i].list] == flags[l])
  }

  lemma AgreeAsMaps(c: Shape, apps: set<AppControl>)
    requires AllAgree(c, apps)
    ensures AgreeMaps(c, apps, FlagsOf(c), HeardBy(apps))
  {
  }

  /** A session starts on a list that is nested in no other. */
  method StartSession(l: ControlList, focus: int, ghost c: Shape, ghost rank: Rank, ghost apps: set<AppControl>)
    requires Sound(c, rank, apps) && l in c && Detached(c, Nested(l)) && !l.isInHandpointSession
    modifies c.Keys`listeners, c.Keys`isInHandpointSession, c.Keys`focusPoint, apps`calls
    ensures Sound(c, rank, apps) && l.isInHandpointSession
    ensures forall p | p in c && p !in Below(c, rank, l) :: p.isInHandpointSession == old(p.isInHandpointSession)
  {
    ToldSplit(c, rank, Nested(l));
    BelowAgrees(c, rank, apps, l);
    ghost var flags, heard := FlagsOf(c), HeardBy(apps);
    AgreeAsMaps(c, apps);
    l.OnSessionStart(focus, c, rank, apps);
    AgreeAfterTelling(c, rank, apps, Nested(l), Start(focus), flags, heard);
    AlternateAfterTelling(c, rank, apps, Nested(l), Start(focus), flags, heard);
  }

  method EndSession(l: ControlList, ghost c: Shape, ghost rank: Rank, ghost apps: set<AppControl>)
    requires Sound(c, rank, apps) && l in c && Detached(c, Nested(l)) && l.isInHandpointSession
    modifies c.Keys`listeners, c.Keys`isInHandpointSession, c.Keys`focusPoint, apps`calls
    ensures Sound(c, rank, apps) && !l.isInHandpointSession
    ensures forall p | p in c && p !in Below(c, rank, l) :: p.isInHandpointSession == old(p.isInHandpointSession)
  {
    ToldSplit(c, rank, Nested(l));
    BelowAgrees(c, rank, apps, l);
    ghost var flags, heard := FlagsOf(c), HeardBy(apps);
    AgreeAsMaps(c, apps);
    l.OnSessionEnd(c, rank, apps);
    AgreeAfterTelling(c, rank, apps, Nested(l), End, flags, heard);
    AlternateAfterTelling(c, rank, apps, Nested(l), End, flags, heard);
  }

  ghost function AfterAdd(c: Shape, l: ControlList, x: Option<Control>): Shape
    requires l in c
  {
    if x.Some? then c[l := c[l] + [x.value]] else c
  }

  /** x sits in no list, is not started, and adding it to l closes no cycle. */
  ghost predicate Addable(c: Shape, rank: Rank, apps: set<AppControl>, l: ControlList, x: Option<Control>)
    requires l in c
    reads c.Keys`listeners, c.Keys`isInHandpointSession, apps`calls
  {
    && Forest(AfterAdd(c, l, x), rank)
    && (x.Some? ==> Detached(c, x.value))
    && (x.Some? && x.value.App? ==> x.value.app in apps)
    && (x.Some? && x.value.Nested? ==> x.value.list in c)
    && (x.Some? ==> !Started(x.value))
  }

  /** The callbacks an application control hears when control x is told. */
  ghost function CallsTo(c: Shape, rank: Rank, x: Option<Control>, a: AppControl, told: bool, call: Call): seq<Call>
    requires Forest(c, rank)
  {
    if told && a in AppsOf(c, rank, x) then [call] else []
  }

  /** A control that sits in no list and is not started is added to a list. Only what it passes
      calls on to hears anything, and only during a session. */
  method AddStep(l: ControlList, x: Option<Control>, ghost c: Shape, ghost rank: Rank, ghost apps: set<AppControl>)
    requires Steady(c, rank, apps) && l in c && Addable(c, rank, apps, l, x)
    modifies l`listeners, c.Keys`isInHandpointSession, c.Keys`focusPoint, apps`calls
    ensures Steady(AfterAdd(c, l, x), rank, apps)
    ensures old(AllAlternate(apps)) ==> AllAlternate(apps)
    ensures l.isInHandpointSession == old(l.isInHandpointSession)
    ensures forall m | m in c ::
              m.isInHandpointSession == old(if m in ListsOf(c, rank, x) then l.isInHandpointSession else m.isInHandpointSession)
    ensures forall a | a in apps ::
              a.calls == old(a.calls) + CallsTo(c, rank, x, a, l.isInHandpointSession, Start(old(l.focusPoint)))
  {
    if x == None {
      l.AddControl(x, c, rank, apps);
    } else {
      PutStep(l, x.value, c, rank, apps);
      SteadyAfterAdd(c, rank, apps, l, x.value);
    }
  }

  method PutStep(l: ControlList, y: Control, ghost c: Shape, ghost rank: Rank, ghost apps: set<AppControl>)
    requires Steady(c, rank, apps) && l in c && Addable(c, rank, apps, l, Some(y))
    modifies l`listeners, c.Keys`isInHandpointSession, c.Keys`focusPoint, apps`calls
    ensures Matches(AfterAdd(c, l, Some(y)), c.Keys) && AllAgree(c, apps) && Agrees(c.Keys, apps, l, y)
    ensures forall a | a in apps && Ongoing(a.calls) :: y == App(a) || Held(c, a)
    ensures old(AllAlternate(apps)) ==> AllAlternate(apps)
    ensures l.isInHandpointSession == old(l.isInHandpointSession)
    ensures forall m | m in c ::
              m.isInHandpointSession ==
              old(if m in ListsOf(c, rank, Some(y)) then l.isInHandpointSession else m.isInHandpointSession)
    ensures forall a | a in apps ::
              a.calls == old(a.calls) + CallsTo(c, rank, Some(y), a, l.isInHandpointSession, Start(old(l.focusPoint)))
  {
    hide Forest, ToldLists, ToldApps, Alternating;
    AdditionReady(c, rank, apps, l, y);
    ToldItself(c, rank, y);
    ghost var flags, heard := FlagsOf(c), HeardBy(apps);
    l.AddControl(Some(y), c, rank, apps);
    if l.isInHandpointSession {
      AgreeAfterTelling(c, rank, apps, y, Start(l.focusPoint), flags, heard);
      if old(AllAlternate(apps)) {
        AlternateAfterTelling(c, rank, apps, y, Start(l.focusPoint), flags, heard);
      }
    }
  }

  lemma ToldItself(c: Shape, rank: Rank, x: Control)
    requires Forest(c, rank) && (x.Nested? ==> x.list in c)
    ensures x.App? ==> ToldApps(c, rank, x) == {x.app}
    ensures x.Nested? ==> x.list in ToldLists(c, rank, x)
  {
  }

  lemma AdditionReady(c: Shape, rank: Rank, apps: set<AppControl>, l: ControlList, y: Control)
    requires Steady(c, rank, apps) && l in c && Addable(c, rank, apps, l, Some(y))
    ensures Tellable(c, rank, apps, Some(y)) && l !in ToldLists(c, rank, y) && !y.Wait?
    ensures AllOngoing(ToldApps(c, rank, y), false)
    ensures forall m | m in ToldLists(c, rank, y) :: !m.isInHandpointSession
    ensures forall a | a in ToldApps(c, rank, y) :: y == App(a) || Held(c, a)
    ensures AgreeMaps(c, apps, FlagsOf(c), HeardBy(apps))
  {
    AddedIsNotAbove(c, rank, l, y);
    ToldSplit(c, rank, y);
    if y.Nested? { BelowAgrees(c, rank, apps, y.list); }
    AgreeAsMaps(c, apps);
  }

  lemma SteadyAfterAdd(c: Shape, rank: Rank, apps: set<AppControl>, l: ControlList, x: Control)
    requires l in c && Forest(AfterAdd(c, l, Some(x)), rank) && Matches(AfterAdd(c, l, Some(x)), c.Keys)
    requires AllAgree(c, apps)
    requires Agrees(c.Keys, apps, l, x)
    requires forall a | a in apps && Ongoing(a.calls) :: x == App(a) || Held(c, a)
    ensures Steady(AfterAdd(c, l, Some(x)), rank, apps)
  {
  }

  lemma AddedIsNotAbove(c: Shape, rank: Rank, l: ControlList, x: Control)
    requires Forest(c, rank) && l in c && Forest(AfterAdd(c, l, Some(x)), rank)
    ensures !x.Wait? && (x.Nested? ==> x.list in c) && l !in ToldLists(c, rank, x)
  {
    var d := AfterAdd(c, l, Some(x));
    assert d[l][|c[l]|] == x;
    assert Placed(d, rank, l, d[l][|c[l]|]);
    if x.Nested? {
      ListsLower(c, rank, x.list, |c[x.list]|);
    }
  }

  lemma AddedShape(c: Shape, rank: Rank, l: ControlList, x: Control)
    requires Forest(c, rank) && l in c && Forest(AfterAdd(c, l, Some(x)), rank)
    ensures !x.Wait? && (x.Nested? ==> x.list in c) && l !in ToldLists(c, rank, x)
    ensures OneMore(AfterAdd(c, l, Some(x)), c, l, x)
  {
    var d := AfterAdd(c, l, Some(x));
    AddedIsNotAbove(c, rank, l, x);
    assert d[l][|c[l]|] == x;
    forall p, z | p in c && z in c[p] ensures z in d[p] {
      var i :| 0 <= i < |c[p]| && c[p][i] == z;
      assert d[p][i] == z;
    }
  }

  /** Everything below a list is started exactly when the list is in a session. */
  lemma BelowAgrees(c: Shape, rank: Rank, apps: set<AppControl>, l: ControlList)
    requires Forest(c, rank) && AllAgree(c, apps) && l in c
    ensures forall p | p in Below(c, rank, l) :: p.isInHandpointSession == l.isInHandpointSession
    ensures forall a | a in AppsBelow(c, rank, l) :: a in apps && Ongoing(a.calls) == l.isInHandpointSession
  {
    forall p | p in Below(c, rank, l) ensures p.isInHandpointSession == l.isInHandpointSession {
      ListBelowAgrees(c, rank, apps, l, p);
    }
    forall a | a in AppsBelow(c, rank, l) ensures a in apps && Ongoing(a.calls) == l.isInHandpointSession {
      ToldAppsHeld(c, rank, Nested(l), a);
      var p :| p in Below(c, rank, l) && Holds(c, p, App(a));
      var i :| 0 <= i < |c[p]| && c[p][i] == App(a);
      assert Agrees(c.Keys, apps, p, c[p][i]);
    }
  }

  lemma {:induction false} ListBelowAgrees(c: Shape, rank: Rank, apps: set<AppControl>, l: ControlList, p: ControlList)
    requires Forest(c, rank) && AllAgree(c, apps) && l in c && p in Below(c, rank, l)
    ensures p.isInHandpointSession == l.isInHandpointSession
    decreases if rank[p] <= rank[l] then rank[l] - rank[p] else 0
  {
    if p != l {
      ListsLower(c, rank, l, |c[l]|);
      ListsHaveParents(c, rank, l, |c[l]|, p);
      assert Nested(p) in c[l] ==> Holds(c, l, Nested(p));
      var q :| q in Below(c, rank, l) && Holds(c, q, Nested(p));
      HolderRanksHigher(c, rank, q, p);
      ListBelowAgrees(c, rank, apps, l, q);
      var i :| 0 <= i < |c[q]| && c[q][i] == Nested(p);
      assert Agrees(c.Keys, apps, q, c[q][i]);
    }
  }

  ghost function AfterRemove(c: Shape, l: ControlList, x: Option<Control>): Shape
    requires l in c
  {
    c[l := AfterRemoval(c[l], x)]
  }

  /** Any removal, whether the control is present or not, keeps the forest steady. Only what the
      control that is taken out passes calls on to hears anything, and only during a session. */
  method RemoveStep(l: ControlList, x: Option<Control>, ghost c: Shape, ghost rank: Rank, ghost apps: set<AppControl>)
    returns (threw: bool)
    requires Steady(c, rank, apps) && l in c
    modifies l`listeners, c.Keys`isInHandpointSession, apps`calls
    ensures Steady(AfterRemove(c, l, x), rank, apps)
    ensures old(AllAlternate(apps)) ==> AllAlternate(apps)
    ensures l.isInHandpointSession == old(l.isInHandpointSession)
    ensures forall m | m in c ::
              m.isInHandpointSession == (old(m.isInHandpointSession) && m !in ListsOf(c, rank, Evicted(c[l], x)))
    ensures forall a | a in apps ::
              a.calls == old(a.calls) + CallsTo(c, rank, Evicted(c[l], x), a, l.isInHandpointSession, End)
    ensures threw <==> x.Some? && c[l] == [] && l.isInHandpointSession
  {
    if x == None || l.listeners == [] {
      threw := l.RemoveControl(x, c, rank, apps);
      assert AfterRemove(c, l, x) == c;
    } else {
      EvictStep(l, x, c, rank, apps);
      threw := false;
    }
  }

  /** A removal that takes a control out: the given one, or else the last. */
  method EvictStep(l: ControlList, x: Option<Control>, ghost c: Shape, ghost rank: Rank, ghost apps: set<AppControl>)
    requires Steady(c, rank, apps) && l in c && x.Some? && c[l] != []
    modifies l`listeners, c.Keys`isInHandpointSession, apps`calls
    ensures Steady(AfterRemove(c, l, x), rank, apps)
    ensures old(AllAlternate(apps)) ==> AllAlternate(apps)
    ensures l.isInHandpointSession == old(l.isInHandpointSession)
    ensures forall m | m in c ::
              m.isInHandpointSession == (old(m.isInHandpointSession) && m !in ListsOf(c, rank, Evicted(c[l], x)))
    ensures forall a | a in apps ::
              a.calls == old(a.calls) + CallsTo(c, rank, Evicted(c[l], x), a, l.isInHandpointSession, End)
  {
    hide Forest, ToldLists, ToldApps, Alternating, Evicted, AfterRemoval;
    ghost var d := AfterRemove(c, l, x);
    RemovalReady(c, rank, apps, l, x);
    ghost var y := Evicted(c[l], x).value;
    ToldItself(d, rank, y);
    ghost var flags, heard := FlagsOf(d), HeardBy(apps);
    var threw := l.RemoveControl(x, d, rank, apps);
    if l.isInHandpointSession {
      AgreeAfterTelling(d, rank, apps, y, End, flags, heard);
      if old(AllAlternate(apps)) {
        AlternateAfterTelling(d, rank, apps, y, End, flags, heard);
      }
    }
    StillHeld(c, rank, apps, l, x);
  }

  /** Before a removal: the shape it leads to, and the state of what will be told. */
  lemma RemovalReady(c: Shape, rank: Rank, apps: set<AppControl>, l: ControlList, x: Option<Control>)
    requires Steady(c, rank, apps) && l in c && x.Some? && c[l] != []
    ensures Evicted(c[l], x).Some?
    ensures var d := AfterRemove(c, l, x);
      var y := Evicted(c[l], x).value;
      && d.Keys == c.Keys && Forest(d, rank) && Detached(d, y)
      && Tellable(d, rank, apps, Some(y)) && l !in ToldLists(d, rank, y)
      && AllAgree(d, apps) && Started(y) == l.isInHandpointSession && !y.Wait?
      && (y.App? ==> y.app in apps)
      && AllOngoing(ToldApps(d, rank, y), l.isInHandpointSession)
      && (forall m | m in ToldLists(d, rank, y) :: m.isInHandpointSession == l.isInHandpointSession)
      && ToldLists(c, rank, y) == ToldLists(d, rank, y) && ToldApps(c, rank, y) == ToldApps(d, rank, y)
      && AgreeMaps(d, apps, FlagsOf(d), HeardBy(apps))
  {
    var d := AfterRemove(c, l, x);
    var y := Evicted(c[l], x).value;
    RemovedShape(c, rank, l, x);
    ToldSplit(d, rank, y);
    StatusAfterRemove(c, rank, apps, l, x);
    if y.Nested? {
      BelowAgrees(d, rank, apps, y.list);
      BelowWithOneMore(c, d, rank, l, y, y.list);
    }
    AgreeAsMaps(d, apps);
  }

  lemma StillHeld(c: Shape, rank: Rank, apps: set<AppControl>, l: ControlList, x: Option<Control>)
    requires Forest(c, rank) && l in c && x.Some? && c[l] != [] && !Started(Evicted(c[l], x).value)
    requires forall a | a in apps && Ongoing(a.calls) :: Held(c, a)
    ensures forall a | a in apps && Ongoing(a.calls) :: Held(AfterRemove(c, l, x), a)
  {
    RemovedShape(c, rank, l, x);
    var d := AfterRemove(c, l, x);
    forall a | a in apps && Ongoing(a.calls) ensures Held(d, a) {
      var p :| p in c && App(a) in c[p];
      assert App(a) != Evicted(c[l], x).value;
      assert App(a) in d[p];
    }
  }

  // ----- the lists below a list, with one control more or less ------------------------------

  /** Shape c holds what d holds, and control y in list l besides. */
  ghost predicate OneMore(c: Shape, d: Shape, l: ControlList, y: Control) {
    && c.Keys == d.Keys && l in c
    && (forall p, z | p in c && z in c[p] :: z in d[p] || (p == l && z == y))
    && (forall p, z | p in d && z in d[p] :: z in c[p])
    && y in c[l]
  }

  /** What is below a list lies in every set that contains it and is closed under nesting. */
  lemma {:induction false} BelowWithin(c: Shape, rank: Rank, m: ControlList, s: set<ControlList>, p: ControlList)
    requires Forest(c, rank) && m in c && m in s && p in Below(c, rank, m)
    requires forall q, z | q in c && q in s && z in c[q] && z.Nested? :: z.list in s
    ensures p in s
    decreases if rank[p] <= rank[m] then rank[m] - rank[p] else 0
  {
    if p != m {
      ListsLower(c, rank, m, |c[m]|);
      ListsHaveParents(c, rank, m, |c[m]|, p);
      assert Nested(p) in c[m] ==> Holds(c, m, Nested(p));
      var q :| q in Below(c, rank, m) && Holds(c, q, Nested(p));
      HolderRanksHigher(c, rank, q, p);
      BelowWithin(c, rank, m, s, q);
    }
  }

  /** What sits in a list below m is below m. */
  lemma BelowClosed(c: Shape, rank: Rank, m: ControlList, q: ControlList, z: Control)
    requires Forest(c, rank) && m in c && q in Below(c, rank, m) && z in c[q]
    ensures z.Nested? ==> z.list in Below(c, rank, m)
    ensures z.App? ==> z.app in AppsBelow(c, rank, m)
  {
    var i :| 0 <= i < |c[q]| && c[q][i] == z;
    ListsClosed(c, rank, m, |c[m]|, q, i);
  }

  lemma AppsBelowHeld(c: Shape, rank: Rank, m: ControlList, a: AppControl)
    requires Forest(c, rank) && m in c
    ensures a in AppsBelow(c, rank, m) <==> exists q | q in Below(c, rank, m) :: App(a) in c[q]
  {
    if a in AppsBelow(c, rank, m) {
      ToldAppsHeld(c, rank, Nested(m), a);
      var q :| q in Below(c, rank, m) && Holds(c, q, App(a));
      assert App(a) in c[q];
    }
    if q :| q in Below(c, rank, m) && App(a) in c[q] {
      BelowClosed(c, rank, m, q, App(a));
    }
  }

  /** A control that is put into list l comes to be below every list that l is below, with all
      that is below it; nothing else changes. */
  lemma BelowWithOneMore(c: Shape, d: Shape, rank: Rank, l: ControlList, y: Control, m: ControlList)
    requires Forest(c, rank) && Forest(d, rank) && OneMore(c, d, l, y) && Detached(d, y) && m in c
    requires (y.Nested? ==> y.list in d) && l !in ToldLists(d, rank, y)
    ensures Below(c, rank, m) == Below(d, rank, m) + if l in Below(d, rank, m) then ToldLists(d, rank, y) else {}
    ensures AppsBelow(c, rank, m) == AppsBelow(d, rank, m) + if l in Below(d, rank, m) then ToldApps(d, rank, y) else {}
  {
    ListsWithOneMore(c, d, rank, l, y, m);
    var both := AppsBelow(d, rank, m) + if l in Below(d, rank, m) then ToldApps(d, rank, y) else {};
    forall a | a in AppsBelow(c, rank, m) ensures a in both { AppsWithOneMore(c, d, rank, l, y, m, a); }
    forall a | a in both ensures a in AppsBelow(c, rank, m) { AppsWithOneMore(c, d, rank, l, y, m, a); }
  }

  lemma AppsWithOneMore(c: Shape, d: Shape, rank: Rank, l: ControlList, y: Control, m: ControlList, a: AppControl)
    requires Forest(c, rank) && Forest(d, rank) && OneMore(c, d, l, y) && m in c && (y.Nested? ==> y.list in d)
    requires Below(c, rank, m) == Below(d, rank, m) + if l in Below(d, rank, m) then ToldLists(d, rank, y) else {}
    ensures a in AppsBelow(c, rank, m) <==>
              a in AppsBelow(d, rank, m) || (l in Below(d, rank, m) && a in ToldApps(d, rank, y))
  {
    AppsBelowHeld(c, rank, m, a);
    AppsBelowHeld(d, rank, m, a);
    if y.Nested? { AppsBelowHeld(d, rank, y.list, a); }
    if a in AppsBelow(c, rank, m) {
      var q :| q in Below(c, rank, m) && App(a) in c[q];
      if y != App(a) || q != l { assert App(a) in d[q]; }
    }
  }

  lemma ListsWithOneMore(c: Shape, d: Shape, rank: Rank, l: ControlList, y: Control, m: ControlList)
    requires Forest(c, rank) && Forest(d, rank) && OneMore(c, d, l, y) && Detached(d, y) && m in c
    requires (y.Nested? ==> y.list in d) && l !in ToldLists(d, rank, y)
    ensures Below(c, rank, m) == Below(d, rank, m) + if l in Below(d, rank, m) then ToldLists(d, rank, y) else {}
  {
    LessIsBelow(c, d, rank, l, y, m);
    var told := ToldLists(d, rank, y);
    var s := Below(d, rank, m) + if l in Below(d, rank, m) then told else {};
    forall q, z | q in c && q in s && z in c[q] && z.Nested? ensures z.list in s {
      if q == l && z == y {
        assert l in Below(d, rank, m);
      } else if q in Below(d, rank, m) {
        BelowClosed(d, rank, m, q, z);
      } else {
        BelowClosed(d, rank, y.list, q, z);
      }
    }
    forall p | p in Below(c, rank, m) ensures p in s {
      BelowWithin(c, rank, m, s, p);
    }
    if l in Below(d, rank, m) && y.Nested? {
      BelowClosed(c, rank, m, l, y);
      LessIsBelow(c, d, rank, l, y, y.list);
      forall p | p in Below(c, rank, y.list) ensures p in Below(c, rank, m) {
        BelowIsTransitive(c, rank, m, y.list, p);
      }
    }
  }

  lemma LessIsBelow(c: Shape, d: Shape, rank: Rank, l: ControlList, y: Control, m: ControlList)
    requires Forest(c, rank) && Forest(d, rank) && OneMore(c, d, l, y) && m in c
    ensures Below(d, rank, m) <= Below(c, rank, m)
  {
    var s := Below(c, rank, m);
    forall q, z | q in d && q in s && z in d[q] && z.Nested? ensures z.list in s {
      BelowClosed(c, rank, m, q, z);
    }
    forall p | p in Below(d, rank, m) ensures p in s {
      BelowWithin(d, rank, m, s, p);
    }
  }

  lemma BelowIsTransitive(c: Shape, rank: Rank, m: ControlList, k: ControlList, p: ControlList)
    requires Forest(c, rank) && m in c && k in Below(c, rank, m) && p in Below(c, rank, k)
    ensures p in Below(c, rank, m)
  {
    var s := Below(c, rank, m);
    forall q, z | q in c && q in s && z in c[q] && z.Nested? ensures z.list in s {
      BelowClosed(c, rank, m, q, z);
    }
    BelowWithin(c, rank, k, s, p);
  }

  /** What is below an outermost list is not reached by another control that sits in no list. */
  lemma OutermostApart(c: Shape, rank: Rank, m: ControlList, y: Control)
    requires Forest(c, rank) && m in c && Detached(c, Nested(m)) && Detached(c, y) && y != Nested(m)
    requires y.Nested? ==> y.list in c
    ensures Below(c, rank, m) !! ToldLists(c, rank, y) && AppsBelow(c, rank, m) !! ToldApps(c, rank, y)
  {
    ToldSplit(c, rank, y);
    if y.Nested? && m in Below(c, rank, y.list) {
      ListsHaveParents(c, rank, y.list, |c[y.list]|, m);
    }
    var s := c.Keys - ToldLists(c, rank, y);
    forall q, z | q in c && q in s && z in c[q] && z.Nested? ensures z.list in s {
      var i :| 0 <= i < |c[q]| && c[q][i] == z;
      assert Placed(c, rank, q, c[q][i]);
    }
    forall p | p in Below(c, rank, m) ensures p in s {
      BelowWithin(c, rank, m, s, p);
    }
    forall a | a in AppsBelow(c, rank, m) ensures a !in ToldApps(c, rank, y) {
      AppsBelowHeld(c, rank, m, a);
      var q :| q in Below(c, rank, m) && App(a) in c[q];
      var i :| 0 <= i < |c[q]| && c[q][i] == App(a);
    }
  }

  /** What is left after a removal: the evicted control sits nowhere any more. */
  lemma RemovedShape(c: Shape, rank: Rank, l: ControlList, x: Option<Control>)
    requires Forest(c, rank) && l in c && x.Some? && c[l] != []
    ensures var d := AfterRemove(c, l, x);
      var y := Evicted(c[l], x).value;
      && y in c[l] && !y.Wait? && (y.Nested? ==> y.list in c && rank[y.list] < rank[l])
      && Forest(d, rank) && Detached(d, y) && l !in ToldLists(d, rank, y)
      && (forall p, z | p in c && z in c[p] && z != y :: z in d[p])
      && (forall p, z | p in d && z in d[p] :: z in c[p])
      && OneMore(c, d, l, y)
  {
    var j := IndexOf(c[l], x.value);
    var k := if j == -1 then |c[l]| - 1 else j;
    var d := AfterRemove(c, l, x);
    assert d[l] == c[l][..k] + c[l][k + 1..];
    assert Placed(c, rank, l, c[l][k]);
    DroppedElements(c, rank, l, k, d);
    if c[l][k].Nested? {
      var m := c[l][k].list;
      ListsLower(d, rank, m, |d[m]|);
    }
  }

  lemma DroppedElements(c: Shape, rank: Rank, l: ControlList, k: nat, d: Shape)
    requires Forest(c, rank) && l in c && k < |c[l]| && d == c[l := c[l][..k] + c[l][k + 1..]]
    ensures Forest(d, rank) && Detached(d, c[l][k])
    ensures forall p, z | p in c && z in c[p] && z != c[l][k] :: z in d[p]
    ensures forall p, z | p in d && z in d[p] :: z in c[p]
  {
    forall p, i | p in d && 0 <= i < |d[p]|
      ensures d[p][i] == c[p][Back(l, k, p, i)] && d[p][i] != c[l][k] && Placed(d, rank, p, d[p][i])
    {
      assert Placed(c, rank, p, c[p][Back(l, k, p, i)]);
    }
    forall p, z | p in c && z in c[p] && z != c[l][k] ensures z in d[p] {
      var i :| 0 <= i < |c[p]| && c[p][i] == z;
      assert z == d[p][if p == l && i > k then i - 1 else i];
    }
  }

  /** Where element i of list p stood before element k of list l was dropped. */
  ghost function Back(l: ControlList, k: nat, p: ControlList, i: nat): nat {
    if p == l && i >= k then i + 1 else i
  }

  lemma StatusAfterRemove(c: Shape, rank: Rank, apps: set<AppControl>, l: ControlList, x: Option<Control>)
    requires Steady(c, rank, apps) && l in c && x.Some? && c[l] != []
    ensures AllAgree(AfterRemove(c, l, x), apps)
    ensures Agrees(c.Keys, apps, l, Evicted(c[l], x).value)
  {
    RemovedShape(c, rank, l, x);
    var d := AfterRemove(c, l, x);
    forall p, z | p in c && z in c[p] ensures Agrees(c.Keys, apps, p, z) {
      var i :| 0 <= i < |c[p]| && c[p][i] == z;
    }
    assert d.Keys == c.Keys;
    forall p, i | p in d && 0 <= i < |d[p]| ensures Agrees(d.Keys, apps, p, d[p][i]) {
      assert d[p][i] in d[p];
    }
  }

  lemma SteadyIsForest(c: Shape, rank: Rank, apps: set<AppControl>)
    requires Steady(c, rank, apps)
    ensures Forest(c, rank)
  {
  }

  lemma RemovalKeepsLists(c: Shape, l: ControlList, x: Option<Control>)
    requires l in c
    ensures AfterRemove(c, l, x).Keys == c.Keys && (c[l] == [] || x == None ==> AfterRemove(c, l, x) == c)
  {
  }

  /** Moves the focus to another control: the old one is removed, the new one added. When the
      removal raises, the focus stays. */
  method FocusStep(l: ControlList, x: Option<Control>, ghost c: Shape, ghost rank: Rank, ghost apps: set<AppControl>)
    returns (threw: bool, ghost d: Shape)
    requires Steady(c, rank, apps) && l in c
    requires x != l.focusedControl ==> Addable(AfterRemove(c, l, l.focusedControl), rank, apps, l, x)
    modifies l`listeners, l`focusedControl, c.Keys`isInHandpointSession, c.Keys`focusPoint, apps`calls
    ensures Steady(d, rank, apps) && (old(AllAlternate(apps)) ==> AllAlternate(apps))
    ensures l.isInHandpointSession == old(l.isInHandpointSession)
    ensures threw <==> x != old(l.focusedControl) && old(l.focusedControl).Some? && c[l] == [] && l.isInHandpointSession
    ensures l.focusedControl == if threw then old(l.focusedControl) else x
    ensures d == if threw || x == old(l.focusedControl) then c
                 else AfterAdd(AfterRemove(c, l, old(l.focusedControl)), l, x)
    ensures threw || x == old(l.focusedControl) ==> forall a | a in apps :: a.calls == old(a.calls)
    ensures !threw && x != old(l.focusedControl) ==>
              Forest(AfterRemove(c, l, old(l.focusedControl)), rank)
    ensures !threw && x != old(l.focusedControl) ==>
              forall a | a in apps ::
                a.calls == old(a.calls)
                           + CallsTo(c, rank, Evicted(c[l], old(l.focusedControl)), a, l.isInHandpointSession, End)
                           + CallsTo(AfterRemove(c, l, old(l.focusedControl)), rank, x, a, l.isInHandpointSession,
                                     Start(old(l.focusPoint)))
  {
    hide Steady, AfterAdd, AfterRemove, AllAlternate, Forest;
    d := c;
    if x == l.focusedControl { return false, c; }
    threw := RemoveStep(l, l.focusedControl, c, rank, apps);
    d := AfterRemove(c, l, l.focusedControl);
    SteadyIsForest(d, rank, apps);
    RemovalKeepsLists(c, l, l.focusedControl);
    if threw { return; }
    l.focusedControl := x;
    AddStep(l, x, d, rank, apps);
    d := AfterAdd(d, l, x);
  }
}
