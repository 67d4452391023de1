/** Single-user engagement: the manager hands its shared controls to the first tracked user
    whose hand-point session starts, and takes them back when that session ends. */
module Engagement {
  import opened Common
  import opened ControlLists

  datatype Hand = Hand(id: nat, userid: int, position: int)

  class TrackedUser {
    const userid: nat
    const controls: ControlList
    var hands: seq<Hand>
    var isInHandpointSession: bool
    var engaged: bool

    constructor (userid: nat)
      ensures this.userid == userid && fresh(controls) && controls.listeners == []
      ensures hands == [] && !isInHandpointSession && !engaged && !controls.isInHandpointSession
    {
      this.userid := userid;
      controls := new ControlList();
      hands, isInHandpointSession, engaged := [], false, false;
    }

    /** Starts or ends the hand-point session of this user to match whether it has hands. */
    method NotifyListeners(m: EngageSingleSession, ghost users: set<TrackedUser>, ghost w: World)
      requires m.Valid(users, w) && InStep(users) && this in users
      modifies this`isInHandpointSession, this`engaged, m`userid, m`history, OwnApps(controls.listeners)`calls
      modifies controls`listeners, controls`isInHandpointSession, controls`focusPoint
      modifies m.SharedLists(w)`isInHandpointSession, m.SharedLists(w)`focusPoint, m.SharedApps(w)`calls
      ensures m.Valid(users, w) && InStep(users)
      ensures isInHandpointSession <==> hands != []
      ensures m.history == old(m.history) + Happenings(old(isInHandpointSession), hands, userid, old(m.userid))
      ensures forall a | a in m.SharedApps(w) ::
                a.calls == old(a.calls) +
                           SharedCalls(Happenings(old(isInHandpointSession), hands, userid, old(m.userid)), 0)
      ensures m.userid == if !old(isInHandpointSession) && hands != [] && old(m.userid) == 0 then userid
                          else if old(isInHandpointSession) && hands == [] && old(m.userid) == userid then 0
                          else old(m.userid)
      ensures OwnApps(controls.listeners) == old(OwnApps(controls.listeners))
      ensures forall a | a in old(OwnApps(controls.listeners)) ::
                a.calls == old(a.calls) + SessionCalls(old(isInHandpointSession), hands)
      ensures m.history == old(m.history) +
                if !old(isInHandpointSession) && hands != [] && old(m.userid) == 0 then [Engaged(userid, hands[0].position)]
                else if old(isInHandpointSession) && hands == [] && old(m.userid) == userid then [Disengaged(userid)]
                else []
      ensures forall a | a in old(OwnApps(controls.listeners)) ::
                a.calls == old(a.calls) + if !old(isInHandpointSession) && hands != [] then [Start(hands[0].position)]
                                          else if old(isInHandpointSession) && hands == [] then [End]
                                          else []
    {
      hide EngageSingleSession.Valid, EngageSingleSession.SharedOk, SharedCalls, OwnApps;
      SharedCallsOfOne();
      if !isInHandpointSession && |hands| > 0 {
        isInHandpointSession := true;
        var focusPoint := hands[0].position;
        m.BeginUserSession(this, focusPoint, users, w);
      }
      if isInHandpointSession && |hands| == 0 {
        m.EndUserSession(this, users, w);
        isInHandpointSession := false;
      }
    }

    /** The same for a user whose waiting control was evicted. Its own controls follow its hands as
        before, but it takes no part in engagement any more: whoever is engaged stays engaged, and
        the shared controls hear nothing. */
    method NotifyDeaf(m: EngageSingleSession)
      requires Deaf(controls.listeners) && isInHandpointSession == controls.isInHandpointSession
      modifies this`isInHandpointSession, controls`isInHandpointSession, controls`focusPoint
      modifies OwnApps(controls.listeners)`calls
      ensures isInHandpointSession == controls.isInHandpointSession == (hands != [])
      ensures m.userid == old(m.userid) && m.history == old(m.history)
      ensures forall a | a in OwnApps(controls.listeners) ::
                a.calls == old(a.calls) + SessionCalls(old(isInHandpointSession), hands)
      ensures forall a | a in OwnApps(controls.listeners) ::
                a.calls == old(a.calls) + if !old(isInHandpointSession) && hands != [] then [Start(hands[0].position)]
                                          else if old(isInHandpointSession) && hands == [] then [End]
                                          else []
    {
      ghost var c: Shape, rank: Rank := map[controls := controls.listeners], map[controls := 0];
      DeafForest(controls, controls.listeners);
      hide Forest, Below, AppsBelow, OwnApps, Deaf;
      if !isInHandpointSession && |hands| > 0 {
        isInHandpointSession := true;
        controls.OnSessionStart(hands[0].position, c, rank, OwnApps(controls.listeners));
      }
      if isInHandpointSession && |hands| == 0 {
        controls.OnSessionEnd(c, rank, OwnApps(controls.listeners));
        isInHandpointSession := false;
      }
    }
  }

  /** A list of application controls alone is a forest of its own. */
  lemma DeafForest(l: ControlList, ls: seq<Control>)
    requires Deaf(ls)
    ensures var c, rank: Rank := map[l := ls], map[l := 0];
      Forest(c, rank) && Below(c, rank, l) == {l} && AppsBelow(c, rank, l) == OwnApps(ls)
  {
    DeafLists(l, ls, |ls|);
    assert ls[..|ls|] == ls;
  }

  lemma {:induction false} DeafLists(l: ControlList, ls: seq<Control>, n: nat)
    requires Deaf(ls) && n <= |ls|
    ensures var c, rank: Rank := map[l := ls], map[l := 0];
      Forest(c, rank) && Lists(c, rank, l, n) == {} && Apps(c, rank, l, n) == OwnApps(ls[..n])
  {
    if n > 0 {
      DeafLists(l, ls, n - 1);
      assert ls[..n] == ls[..n - 1] + [ls[n - 1]];
      assert OwnApps(ls[..n]) == OwnApps(ls[..n - 1]) + {ls[n - 1].app};
    }
  }

  /** What a change of a user's session does to engagement. */
  function Happenings(wasIn: bool, hands: seq<Hand>, user: nat, engagedId: nat): seq<Event> {
    if !wasIn && hands != [] && engagedId == 0 then [Engaged(user, hands[0].position)]
    else if wasIn && hands == [] && engagedId == user then [Disengaged(user)]
    else []
  }

  /** What the controls of a user hear when its session follows its hands. */
  function SessionCalls(wasIn: bool, hands: seq<Hand>): seq<Call> {
    if !wasIn && hands != [] then [Start(hands[0].position)]
    else if wasIn && hands == [] then [End]
    else []
  }

  ghost predicate InStep(users: set<TrackedUser>)
    reads users`isInHandpointSession, (set u | u in users :: u.controls)`isInHandpointSession
  {
    forall u | u in users :: u.isInHandpointSession == u.controls.isInHandpointSession
  }

  /** What happens to engagement: a user is engaged at a focus point, is disengaged, or is lost
      while engaged. */
  datatype Event = Engaged(user: nat, focus: int) | Disengaged(user: nat) | LostEngaged(user: nat)

  /** The forest below the shared controls, as ghost context. */
  datatype World = World(c: Shape, rank: Rank, apps: set<AppControl>)

  // ----- histories of engagement ------------------------------------------------------------

  /** One user at a time: every engagement is closed by the same user before the next, and now
      is the user engaged at the end, or 0. */
  ghost predicate Exclusive(h: seq<Event>, now: nat)
    decreases |h|
  {
    if h == [] then now == 0
    else match h[|h| - 1]
      case Engaged(u, _) => now == u != 0 && Exclusive(h[..|h| - 1], 0)
      case Disengaged(u) => now == 0 != u && Exclusive(h[..|h| - 1], u)
      case LostEngaged(u) => now == 0 != u && Exclusive(h[..|h| - 1], u)
  }

  /** The shared controls are in a session: from an engagement to the next disengagement, and
      after a loss until the engagement after that ends. */
  predicate On(h: seq<Event>) {
    h != [] && !h[|h| - 1].Disengaged?
  }

  lemma HistoryGrows(h: seq<Event>, e: Event, was: nat)
    requires Exclusive(h, was) && e.user != 0 && was == if e.Engaged? then 0 else e.user
    ensures Exclusive(h + [e], if e.Engaged? then e.user else 0) && (On(h + [e]) <==> !e.Disengaged?)
  {
    assert (h + [e])[..|h|] == h;
  }

  function CallsFor(e: Event): seq<Call> {
    match e
    case Engaged(_, focus) => [Start(focus)]
    case Disengaged(_) => [End]
    case LostEngaged(_) => []
  }

  /** The callbacks of the events from the given one on: none when the engaged user is lost. */
  function SharedCalls(h: seq<Event>, since: nat): seq<Call>
    requires since <= |h|
    decreases |h|
  {
    if |h| == since then [] else SharedCalls(h[..|h| - 1], since) + CallsFor(h[|h| - 1])
  }

  lemma SharedCallsOfOne()
    ensures SharedCalls([], 0) == []
    ensures forall e: Event :: SharedCalls([e], 0) == CallsFor(e)
  {
    forall e: Event ensures SharedCalls([e], 0) == CallsFor(e) {
      assert [e][..0] == [];
      assert [] + CallsFor(e) == CallsFor(e);
    }
  }

  /** No engagement from event since on follows the loss of an engaged user. */
  ghost predicate Bracketed(h: seq<Event>, since: nat) {
    forall i | 0 <= i < |h| - 1 && i + 1 >= since :: !h[i].LostEngaged?
  }

  /** What a control has heard that came below the shared controls after the first since events,
      having heard base: the callbacks of all events after that. */
  datatype Joined = Joined(base: seq<Call>, since: nat)

  ghost predicate Follows(calls: seq<Call>, j: Joined, h: seq<Event>) {
    && j.since <= |h| && Ongoing(j.base) == On(h[..j.since])
    && calls == j.base + SharedCalls(h, j.since)
  }

  ghost predicate AllFollow(below: set<AppControl>, joined: map<AppControl, Joined>, heard: Heard, h: seq<Event>) {
    forall a | a in below :: a in joined && a in heard && Follows(heard[a], joined[a], h)
  }

  lemma AllFollowOn(below: set<AppControl>, joined: map<AppControl, Joined>, before: Heard, now: Heard,
                    h: seq<Event>, e: Event)
    requires AllFollow(below, joined, before, h)
    requires forall a | a in below && a in before :: a in now && now[a] == before[a] + CallsFor(e)
    ensures AllFollow(below, joined, now, h + [e])
  {
    var g := h + [e];
    assert g[..|g| - 1] == h;
    forall a | a in below ensures a in now && Follows(now[a], joined[a], g) {
      assert g[..joined[a].since] == h[..joined[a].since];
    }
  }

  /** Controls that came just now follow from here on; the others, not told, still follow. */
  lemma FollowWithNewcomers(below: set<AppControl>, newcomers: set<AppControl>, joined: map<AppControl, Joined>,
                            joinedNow: map<AppControl, Joined>, before: Heard, now: Heard, h: seq<Event>)
    requires forall a | a in below :: a in joined && a in before && Follows(before[a], joined[a], h)
    requires forall a | a in below :: a in joinedNow && joinedNow[a] == joined[a] && a in now && now[a] == before[a]
    requires forall a | a in newcomers ::
               a in joinedNow && a in now && joinedNow[a] == Joined(now[a], |h|) && Ongoing(now[a]) == On(h)
    ensures AllFollow(below + newcomers, joinedNow, now, h)
  {
    forall a | a in newcomers ensures Follows(now[a], joinedNow[a], h) {
      assert h[..|h|] == h;
    }
  }

  /** Between two histories exactly the callbacks of the events between are heard. */
  lemma AllHear(below: set<AppControl>, joined: map<AppControl, Joined>, before: Heard, now: Heard,
                h: seq<Event>, es: seq<Event>)
    requires AllFollow(below, joined, before, h) && AllFollow(below, joined, now, h + es)
    ensures forall a | a in below :: a in before && a in now && now[a] == before[a] + SharedCalls(es, 0)
  {
    forall a | a in below ensures a in before && a in now && now[a] == before[a] + SharedCalls(es, 0) {
      OneHears(before[a], now[a], joined[a], h, es);
    }
  }

  lemma OneHears(before: seq<Call>, now: seq<Call>, j: Joined, h: seq<Event>, es: seq<Event>)
    requires Follows(before, j, h) && Follows(now, j, h + es)
    ensures now == before + SharedCalls(es, 0)
  {
    hide SharedCalls, On, Ongoing;
    SharedCallsAppend(h, es, j.since);
    assert j.base + (SharedCalls(h, j.since) + SharedCalls(es, 0)) == j.base + SharedCalls(h, j.since) + SharedCalls(es, 0);
  }

  lemma {:induction false} SharedCallsAppend(h: seq<Event>, es: seq<Event>, since: nat)
    requires since <= |h|
    ensures SharedCalls(h + es, since) == SharedCalls(h, since) + SharedCalls(es, 0)
    decreases |es|
  {
    if es == [] {
      assert h + es == h;
    } else {
      var front := es[..|es| - 1];
      assert (h + es)[..|h + es| - 1] == h + front;
      SharedCallsAppend(h, front, since);
    }
  }

  lemma AlternatingAppend(calls: seq<Call>, c: Call)
    ensures Alternating(calls + [c]) <==> Alternating(calls) && c.Start? == !Ongoing(calls)
    ensures Ongoing(calls + [c]) == c.Start?
  {
    var more := calls + [c];
    assert more[|calls|] == c;
    if Alternating(more) {
      assert forall i | 0 <= i < |calls| :: calls[i] == more[i];
    }
  }

  /** A control below the shared controls hears starts and ends in turn exactly if it did before
      it came there and no engagement since then follows the loss of an engaged user. */
  lemma {:induction false} FollowerAlternates(base: seq<Call>, h: seq<Event>, since: nat, now: nat)
    requires Exclusive(h, now) && since <= |h| && Ongoing(base) == On(h[..since])
    ensures Ongoing(base + SharedCalls(h, since)) == On(h)
    ensures Alternating(base + SharedCalls(h, since)) <==> Alternating(base) && Bracketed(h, since)
    decreases |h|
  {
    if |h| == since {
      assert h[..since] == h && base + [] == base;
    } else {
      var front, e := h[..|h| - 1], h[|h| - 1];
      var before := if e.Engaged? then 0 else e.user;
      assert front[..since] == h[..since];
      FollowerAlternates(base, front, since, before);
      var calls := base + SharedCalls(front, since);
      assert base + SharedCalls(h, since) == calls + CallsFor(e);
      if !e.LostEngaged? { AlternatingAppend(calls, CallsFor(e)[0]); } else { assert calls + [] == calls; }
      BracketedByOneMore(h, since, now);
    }
  }

  lemma BracketedByOneMore(h: seq<Event>, since: nat, now: nat)
    requires since < |h| && Exclusive(h, now)
    ensures Bracketed(h, since) <==>
              Bracketed(h[..|h| - 1], since) && (h[|h| - 1].Engaged? ==> !On(h[..|h| - 1]))
    ensures h[|h| - 1].Disengaged? || h[|h| - 1].LostEngaged? ==> On(h[..|h| - 1])
  {
    var front := h[..|h| - 1];
    assert forall i | 0 <= i < |front| :: front[i] == h[i];
  }

  // ----- the control list of a tracked user ---------------------------------------------------

  /** Listener k is the waiting control of the user, the only one; a nested list can only be
      the shared one, and only after it. */
  ghost predicate WaitsAt(ls: seq<Control>, id: nat, shared: ControlList, k: nat) {
    && k < |ls| && ls[k] == Wait(id)
    && (forall i | 0 <= i < |ls| && i != k :: !ls[i].Wait?)
    && (forall i | 0 <= i < |ls| && ls[i].Nested? :: ls[i].list == shared && i > k)
  }

  /** Only application controls listen: nobody waits for a session. */
  ghost predicate Deaf(ls: seq<Control>) {
    NoRepeats(ls) && forall i | 0 <= i < |ls| :: ls[i].App?
  }

  /** The application controls of a list belong neither to the shared forest nor to another user. */
  ghost function OwnApps(ls: seq<Control>): set<AppControl> {
    set i | 0 <= i < |ls| && ls[i].App? :: ls[i].app
  }

  /** The application controls of a user's list are started exactly during its session, and hear
      starts and ends in turn. */
  ghost predicate OwnOk(own: set<AppControl>, on: bool)
    reads own`calls
  {
    forall a | a in own :: Alternating(a.calls) && Ongoing(a.calls) == on
  }

  ghost predicate UserOk(u: TrackedUser, shared: ControlList, w: World)
    reads u`engaged, u.controls`listeners, u.controls`isInHandpointSession, OwnApps(u.controls.listeners)`calls
  {
    var ls := u.controls.listeners;
    && u.userid != 0
    && u.controls !in w.c
    && NoRepeats(ls)
    && (exists k :: WaitsAt(ls, u.userid, shared, k))
    && OwnApps(ls) !! w.apps
    && u.engaged == (Nested(shared) in ls)
    && (u.engaged ==> u.controls.isInHandpointSession)
    && OwnOk(OwnApps(ls), u.controls.isInHandpointSession)
  }

  ghost function AppsOfUsers(users: set<TrackedUser>): set<AppControl>
    reads (set u | u in users :: u.controls)`listeners
  {
    set u, a | u in users && a in OwnApps(u.controls.listeners) :: a
  }

  ghost predicate Apart(u: TrackedUser, v: TrackedUser)
    reads u.controls`listeners, v.controls`listeners
  {
    u.userid != v.userid && u.controls != v.controls
    && OwnApps(u.controls.listeners) !! OwnApps(v.controls.listeners)
  }

  class EngageSingleSession {
    const controls: ControlList
    var userid: nat
    ghost var history: seq<Event>
    ghost var joined: map<AppControl, Joined>

    constructor ()
      ensures fresh(controls) && controls.listeners == [] && !controls.isInHandpointSession
      ensures userid == 0 && history == [] && joined == map[]
    {
      controls := new ControlList();
      userid, history, joined := 0, [], map[];
    }

    /** The lists and application controls that are told when the shared controls are. */
    ghost function SharedLists(w: World): (s: set<ControlList>)
      ensures s <= w.c.Keys
    {
      if Forest(w.c, w.rank) && controls in w.c then Below(w.c, w.rank, controls) else {}
    }

    ghost function SharedApps(w: World): (s: set<AppControl>)
      ensures s <= w.apps
    {
      if Forest(w.c, w.rank) && controls in w.c then AppsBelow(w.c, w.rank, controls) * w.apps else {}
    }

    /** The shared controls: rooted in a steady forest, in a session from an engagement until it
        ends; every control below has heard exactly the callbacks of the history since it came. */
    ghost predicate SharedOk(w: World)
      reads this`userid, this`history, this`joined
      reads w.c.Keys`listeners, w.c.Keys`isInHandpointSession, w.apps`calls
    {
      && Steady(w.c, w.rank, w.apps) && controls in w.c && Detached(w.c, Nested(controls))
      && Exclusive(history, userid)
      && controls.isInHandpointSession == On(history)
      && AllFollow(SharedApps(w), joined, HeardBy(w.apps), history)
    }

    /** What a control below the shared ones hears, exactly. */
    lemma HearsBracketedExactly(w: World, a: AppControl)
      requires SharedOk(w) && a in AppsBelow(w.c, w.rank, controls)
      ensures a in joined && joined[a].since <= |history|
      ensures a.calls == joined[a].base + SharedCalls(history, joined[a].since)
      ensures Ongoing(a.calls) == On(history)
      ensures Alternating(a.calls) <==> Alternating(joined[a].base) && Bracketed(history, joined[a].since)
    {
      BelowAgrees(w.c, w.rank, w.apps, controls);
      assert a in SharedApps(w);
      FollowerAlternates(joined[a].base, history, joined[a].since, userid);
    }

    /** Exactly the user with the engaged id has the shared controls in its list, and is in session. */
    ghost predicate Valid(users: set<TrackedUser>, w: World)
      reads this`userid, this`history, this`joined, users`engaged, (set u | u in users :: u.controls)`listeners
      reads (set u | u in users :: u.controls)`isInHandpointSession, AppsOfUsers(users)`calls
      reads w.c.Keys`listeners, w.c.Keys`isInHandpointSession, w.apps`calls
    {
      && SharedOk(w)
      && (forall u | u in users :: UserOk(u, controls, w))
      && (forall u, v | u in users && v in users && u != v :: Apart(u, v))
      && (forall u | u in users :: u.engaged <==> u.userid == userid)
      && (userid != 0 ==> exists u | u in users :: u.userid == userid)
    }

    /** The waiting control of user u hears a session start: if nobody is engaged, u is, and
        every control below the shared ones hears one start. */
    method WaitStart(u: TrackedUser, ghost w: World)
      requires SharedOk(w) && u.userid != 0 && u.controls !in w.c && u.controls.isInHandpointSession
      modifies this`userid, this`history, u`engaged, u.controls`listeners
      modifies SharedLists(w)`isInHandpointSession, SharedLists(w)`focusPoint, SharedApps(w)`calls
      ensures SharedOk(w)
      ensures old(userid) == 0 ==>
                && userid == u.userid && u.engaged
                && history == old(history) + [Engaged(u.userid, u.controls.focusPoint)]
                && u.controls.listeners == old(u.controls.listeners) + [Nested(controls)]
      ensures old(userid) != 0 ==>
                && userid == old(userid) && u.engaged == old(u.engaged) && history == old(history)
                && u.controls.listeners == old(u.controls.listeners)
      ensures forall a | a in SharedApps(w) ::
                a.calls == old(a.calls) + if old(userid) == 0 then [Start(u.controls.focusPoint)] else []
    {
      hide Steady, AllFollow, SharedApps, SharedLists, Detached, Exclusive, On;
      if userid == 0 {
        ghost var e := Engaged(u.userid, u.controls.focusPoint);
        ghost var h, before := history, HeardBy(w.apps);
        userid := u.userid;
        u.engaged := true;
        GiveControls(u, w);
        AllFollowOn(SharedApps(w), joined, before, HeardBy(w.apps), h, e);
        history := history + [e];
        HistoryGrows(h, e, 0);
      }
    }

    /** user.controls.AddControl(parent.controls), while that list is in a session. */
    method GiveControls(u: TrackedUser, ghost w: World)
      requires Steady(w.c, w.rank, w.apps) && controls in w.c && Detached(w.c, Nested(controls))
      requires u.controls !in w.c && u.controls.isInHandpointSession
      modifies u.controls`listeners
      modifies SharedLists(w)`isInHandpointSession, SharedLists(w)`focusPoint, SharedApps(w)`calls
      ensures u.controls.listeners == old(u.controls.listeners) + [Nested(controls)]
      ensures Steady(w.c, w.rank, w.apps) && controls.isInHandpointSession
      ensures forall a | a in SharedApps(w) :: a.calls == old(a.calls) + [Start(u.controls.focusPoint)]
    {
      hide Forest, Below, AppsBelow;
      ghost var flags, heard := FlagsOf(w.c), HeardBy(w.apps);
      ReadyToTell(w);
      u.controls.AddControl(Some(Nested(controls)), w.c, w.rank, w.apps);
      ToldShared(w, flags, heard, Start(u.controls.focusPoint));
    }

    /** user.controls.RemoveControl(parent.controls), while that list is in a session. */
    method TakeControls(u: TrackedUser, ghost w: World)
      requires Steady(w.c, w.rank, w.apps) && controls in w.c && Detached(w.c, Nested(controls))
      requires u.controls !in w.c && u.controls.isInHandpointSession && Nested(controls) in u.controls.listeners
      modifies u.controls`listeners
      modifies SharedLists(w)`isInHandpointSession, SharedApps(w)`calls
      ensures u.controls.listeners == AfterRemoval(old(u.controls.listeners), Some(Nested(controls)))
      ensures Steady(w.c, w.rank, w.apps) && !controls.isInHandpointSession
      ensures forall a | a in SharedApps(w) :: a.calls == old(a.calls) + [End]
    {
      hide Forest, Below, AppsBelow;
      ghost var flags, heard := FlagsOf(w.c), HeardBy(w.apps);
      ReadyToTell(w);
      assert Evicted(u.controls.listeners, Some(Nested(controls))) == Some(Nested(controls));
      var threw := u.controls.RemoveControl(Some(Nested(controls)), w.c, w.rank, w.apps);
      ToldShared(w, flags, heard, End);
    }

    /** The waiting control of user u hears a session end: if u is the engaged user, nobody is,
        and every control below the shared ones hears one end. */
    method WaitEnd(u: TrackedUser, ghost w: World)
      requires SharedOk(w) && u.userid != 0 && u.controls !in w.c && u.controls.isInHandpointSession
      requires userid == u.userid ==> Nested(controls) in u.controls.listeners
      modifies this`userid, this`history, u`engaged, u.controls`listeners
      modifies SharedLists(w)`isInHandpointSession, SharedApps(w)`calls
      ensures SharedOk(w)
      ensures old(userid) == u.userid ==>
                && userid == 0 && !u.engaged && history == old(history) + [Disengaged(u.userid)]
                && u.controls.listeners == AfterRemoval(old(u.controls.listeners), Some(Nested(controls)))
      ensures old(userid) != u.userid ==>
                && userid == old(userid) && u.engaged == old(u.engaged) && history == old(history)
                && u.controls.listeners == old(u.controls.listeners)
      ensures forall a | a in SharedApps(w) ::
                a.calls == old(a.calls) + if old(userid) == u.userid then [End] else []
    {
      hide Steady, AllFollow, SharedApps, SharedLists, AfterRemoval;
      if userid == u.userid {
        ghost var e := Disengaged(u.userid);
        ghost var h, before := history, HeardBy(w.apps);
        userid := 0;
        u.engaged := false;
        TakeControls(u, w);
        AllFollowOn(SharedApps(w), joined, before, HeardBy(w.apps), h, e);
        history := history + [e];
        assert history[..|h|] == h;
      }
    }

    /** onSessionStart on the list of a user. The loop visits the listeners that were there
        when it began, by index in the live list; when the waiting control engages the user, the
        shared controls are appended meanwhile and told at once, and not visited again. */
    method UserListStart(u: TrackedUser, focus: int, ghost w: World, ghost own: set<AppControl>)
      requires SharedOk(w) && UserOk(u, controls, w) && !u.controls.isInHandpointSession
      requires own == OwnApps(u.controls.listeners)
      modifies this`userid, this`history, u`engaged
      modifies u.controls`listeners, u.controls`isInHandpointSession, u.controls`focusPoint, own`calls
      modifies SharedLists(w)`isInHandpointSession, SharedLists(w)`focusPoint, SharedApps(w)`calls
      ensures SharedOk(w) && u.controls.isInHandpointSession && u.controls.focusPoint == focus
      ensures Outcome(u, old(userid) == 0, u.userid, old(userid), old(history) + [Engaged(u.userid, focus)], old(history))
      ensures u.engaged == (old(userid) == 0)
      ensures u.controls.listeners ==
                if old(userid) == 0 then old(u.controls.listeners) + [Nested(controls)] else old(u.controls.listeners)
      ensures forall a | a in own :: a.calls == old(a.calls) + [Start(focus)]
    {
      hide SharedOk, OwnApps, AfterRemoval, SharedApps, SharedLists, OwnOk;
      ghost var ls := u.controls.listeners;
      ghost var heard := HeardBy(own);
      ghost var k :| WaitsAt(ls, u.userid, controls, k);
      u.controls.isInHandpointSession := true;
      u.controls.focusPoint := focus;
      ToldNone(ls, heard, Start(focus));
      var n := |u.controls.listeners|;
      var i := 0;
      while i < n
        invariant 0 <= i <= n && u.controls.isInHandpointSession && u.controls.focusPoint == focus && SharedOk(w)
        invariant Outcome(u, i > k && old(userid) == 0, u.userid, old(userid),
                          old(history) + [Engaged(u.userid, focus)], old(history))
        invariant u.controls.listeners == if i > k && old(userid) == 0 then ls + [Nested(controls)] else ls
        invariant u.engaged == (i > k && old(userid) == 0)
        invariant ToldUpTo(ls, i, heard, Start(focus), HeardBy(own))
      {
        var x := u.controls.listeners[i];
        assert x == ls[i];
        ghost var before := HeardBy(own);
        StartOne(x, focus, u, w, own);
        ToldStep(ls, i, heard, Start(focus), before, HeardBy(own));
        i := i + 1;
      }
      ToldAll(ls, n, heard, Start(focus), HeardBy(own));
    }

    /** The id and history of the manager, after acting or as before. */
    ghost predicate Outcome(u: TrackedUser, acted: bool, id: nat, oldId: nat, h: seq<Event>, oldH: seq<Event>)
      reads this`userid, this`history
    {
      userid == (if acted then id else oldId) && history == (if acted then h else oldH)
    }

    /** Calls onSessionStart on one listener of a user list. */
    method StartOne(x: Control, focus: int, u: TrackedUser, ghost w: World, ghost own: set<AppControl>)
      requires SharedOk(w) && u.userid != 0 && u.controls !in w.c && u.controls.isInHandpointSession
      requires u.controls.focusPoint == focus
      requires !x.Nested? && (x.App? ==> x.app in own) && own !! w.apps
      modifies this`userid, this`history, u`engaged, u.controls`listeners, own`calls
      modifies SharedLists(w)`isInHandpointSession, SharedLists(w)`focusPoint, SharedApps(w)`calls
      ensures SharedOk(w)
      ensures var acted := x.Wait? && old(userid) == 0;
        && Outcome(u, acted, u.userid, old(userid), old(history) + [Engaged(u.userid, focus)], old(history))
        && u.engaged == (acted || old(u.engaged))
        && u.controls.listeners ==
             if acted then old(u.controls.listeners) + [Nested(controls)] else old(u.controls.listeners)
      ensures forall a | a in own :: a.calls == if x == App(a) then old(a.calls) + [Start(focus)] else old(a.calls)
    {
      hide SharedOk, SharedApps, SharedLists, Forest;
      if x.Wait? {
        WaitStart(u, w);
      } else {
        OwnIsTellable(x, w);
        TellStart(x, focus, w.c, w.rank, own);
      }
    }

    lemma OwnIsTellable(x: Control, w: World)
      requires SharedOk(w) && x.App?
      ensures Forest(w.c, w.rank) && ToldApps(w.c, w.rank, x) == {x.app} && ToldLists(w.c, w.rank, x) == {}
      ensures Matches(w.c, {})
    {
    }

    /** Calls onSessionEnd on one listener of a user list. */
    method EndOne(x: Control, u: TrackedUser, ghost w: World, ghost own: set<AppControl>)
      requires SharedOk(w) && u.userid != 0 && u.controls !in w.c && u.controls.isInHandpointSession
      requires userid == u.userid ==> Nested(controls) in u.controls.listeners
      requires !x.Nested? && (x.App? ==> x.app in own) && own !! w.apps
      modifies this`userid, this`history, u`engaged, u.controls`listeners, own`calls
      modifies SharedLists(w)`isInHandpointSession, SharedApps(w)`calls
      ensures SharedOk(w)
      ensures var acted := x.Wait? && old(userid) == u.userid;
        && Outcome(u, acted, 0, old(userid), old(history) + [Disengaged(u.userid)], old(history))
        && u.engaged == (!acted && old(u.engaged))
        && u.controls.listeners == LeftBy(acted, old(u.controls.listeners), controls)
      ensures forall a | a in own :: a.calls == if x == App(a) then old(a.calls) + [End] else old(a.calls)
    {
      hide SharedOk, SharedApps, SharedLists, Forest;
      if x.Wait? {
        WaitEnd(u, w);
      } else {
        OwnIsTellable(x, w);
        TellEnd(x, w.c, w.rank, own);
      }
    }

    /** onSessionEnd on the list of a user. When the waiting control disengages the user, the
        shared controls are spliced out under the running loop; the listeners after them move
        down one place and are still told exactly once each. */
    method UserListEnd(u: TrackedUser, ghost w: World, ghost own: set<AppControl>)
      requires SharedOk(w) && UserOk(u, controls, w) && u.controls.isInHandpointSession
      requires u.engaged <==> userid == u.userid
      requires own == OwnApps(u.controls.listeners)
      modifies this`userid, this`history, u`engaged
      modifies u.controls`listeners, u.controls`isInHandpointSession, own`calls
      modifies SharedLists(w)`isInHandpointSession, SharedApps(w)`calls
      ensures SharedOk(w) && !u.controls.isInHandpointSession && !u.engaged
      ensures Outcome(u, old(u.engaged), 0, old(userid), old(history) + [Disengaged(u.userid)], old(history))
      ensures u.controls.listeners == LeftBy(old(u.engaged), old(u.controls.listeners), controls)
      ensures forall a | a in own :: a.calls == old(a.calls) + [End]
    {
      hide SharedOk, OwnApps, AfterRemoval, SharedApps, SharedLists, OwnOk;
      ghost var ls := u.controls.listeners;
      ghost var heard := HeardBy(own);
      ghost var engaged := u.engaged;
      ghost var left := LeftBy(engaged, ls, controls);
      ghost var k :| WaitsAt(ls, u.userid, controls, k);
      LeftByShape(engaged, ls, u.userid, controls, k);
      ToldNone(left, heard, End);
      var n := |u.controls.listeners|;
      var i := 0;
      while i < n
        invariant 0 <= i <= n && u.controls.isInHandpointSession && SharedOk(w)
        invariant Outcome(u, i > k && engaged, 0, old(userid), old(history) + [Disengaged(u.userid)], old(history))
        invariant u.controls.listeners == if i > k then left else ls
        invariant u.engaged == (i <= k && engaged)
        invariant ToldUpTo(left, i, heard, End, HeardBy(own))
      {
        if i < |u.controls.listeners| {
          var x := u.controls.listeners[i];
          SamePrefix(ls, left, k, i);
          assert x == left[i];
          ghost var before := HeardBy(own);
          EndOne(x, u, w, own);
          ToldStep(left, i, heard, End, before, HeardBy(own));
        }
        i := i + 1;
      }
      ToldAll(left, n, heard, End, HeardBy(own));
      u.controls.isInHandpointSession := false;
    }

    /** user.controls.onSessionStart, and what is heard of it. */
    method StartSessionOf(u: TrackedUser, focus: int, ghost w: World, ghost own: set<AppControl>)
      requires SharedOk(w) && UserOk(u, controls, w) && !u.controls.isInHandpointSession
      requires own == OwnApps(u.controls.listeners)
      modifies this`userid, this`history, u`engaged, own`calls
      modifies u.controls`listeners, u.controls`isInHandpointSession, u.controls`focusPoint
      modifies SharedLists(w)`isInHandpointSession, SharedLists(w)`focusPoint, SharedApps(w)`calls
      ensures SharedOk(w) && UserOk(u, controls, w)
      ensures u.controls.isInHandpointSession && u.controls.focusPoint == focus && u.engaged == (old(userid) == 0)
      ensures Outcome(u, old(userid) == 0, u.userid, old(userid), old(history) + [Engaged(u.userid, focus)], old(history))
      ensures OwnApps(u.controls.listeners) == own
      ensures forall a | a in own :: a.calls == old(a.calls) + [Start(focus)]
      ensures forall a | a in SharedApps(w) :: a.calls == old(a.calls) + if old(userid) == 0 then [Start(focus)] else []
    {
      hide SharedOk, AfterRemoval, UserOk, OwnApps, WaitsAt, NoRepeats, OwnOk, SharedApps, SharedLists, SharedCalls;
      ghost var ls, h, before, mine := u.controls.listeners, history, HeardBy(w.apps), HeardBy(own);
      ghost var k := WaitPlace(u, w);
      Following(w);
      GivenShape(ls, u.userid, controls, k);
      UserListStart(u, focus, w, own);
      SharedHear(w, h, before, if old(userid) == 0 then [Engaged(u.userid, focus)] else []);
      OwnHear(own, mine, HeardBy(own), Start(focus));
      StillOk(u, w, k);
    }

    /** user.controls.onSessionEnd, and what is heard of it. */
    method EndSessionOf(u: TrackedUser, ghost w: World, ghost own: set<AppControl>)
      requires SharedOk(w) && UserOk(u, controls, w) && u.controls.isInHandpointSession
      requires own == OwnApps(u.controls.listeners) && (u.engaged <==> userid == u.userid)
      modifies this`userid, this`history, u`engaged, own`calls
      modifies u.controls`listeners, u.controls`isInHandpointSession
      modifies SharedLists(w)`isInHandpointSession, SharedApps(w)`calls
      ensures SharedOk(w) && UserOk(u, controls, w) && !u.controls.isInHandpointSession && !u.engaged
      ensures Outcome(u, old(userid) == u.userid, 0, old(userid), old(history) + [Disengaged(u.userid)], old(history))
      ensures OwnApps(u.controls.listeners) == own
      ensures forall a | a in own :: a.calls == old(a.calls) + [End]
      ensures forall a | a in SharedApps(w) :: a.calls == old(a.calls) + if old(userid) == u.userid then [End] else []
    {
      hide SharedOk, AfterRemoval, UserOk, OwnApps, WaitsAt, NoRepeats, OwnOk, SharedApps, SharedLists, SharedCalls;
      ghost var ls, h, before, mine := u.controls.listeners, history, HeardBy(w.apps), HeardBy(own);
      ghost var k := WaitPlace(u, w);
      Following(w);
      LeftByShape(u.engaged, ls, u.userid, controls, k);
      UserListEnd(u, w, own);
      SharedHear(w, h, before, if old(userid) == u.userid then [Disengaged(u.userid)] else []);
      OwnHear(own, mine, HeardBy(own), End);
      StillOk(u, w, k);
    }

    /** user.controls.onSessionStart among the tracked users. */
    method BeginUserSession(u: TrackedUser, focus: int, ghost users: set<TrackedUser>, ghost w: World)
      requires Valid(users, w) && u in users && !u.controls.isInHandpointSession
      modifies this`userid, this`history, u`engaged, OwnApps(u.controls.listeners)`calls
      modifies u.controls`listeners, u.controls`isInHandpointSession, u.controls`focusPoint
      modifies SharedLists(w)`isInHandpointSession, SharedLists(w)`focusPoint, SharedApps(w)`calls
      ensures Valid(users, w) && u.controls.isInHandpointSession && u.controls.focusPoint == focus
      ensures forall v | v in users && v != u :: v.controls.isInHandpointSession == old(v.controls.isInHandpointSession)
      ensures Outcome(u, old(userid) == 0, u.userid, old(userid), old(history) + [Engaged(u.userid, focus)], old(history))
      ensures OwnApps(u.controls.listeners) == old(OwnApps(u.controls.listeners))
      ensures forall a | a in old(OwnApps(u.controls.listeners)) :: a.calls == old(a.calls) + [Start(focus)]
      ensures forall a | a in SharedApps(w) :: a.calls == old(a.calls) + if old(userid) == 0 then [Start(focus)] else []
    {
      hide SharedOk, UserOk, Apart, WaitsAt, NoRepeats, OwnOk, SharedApps, SharedLists;
      OthersApart(u, users, w);
      ghost var k := WaitPlace(u, w);
      StartSessionOf(u, focus, w, OwnApps(u.controls.listeners));
      forall v | v in users && v != u ensures UserOk(v, controls, w) && Apart(u, v) && Apart(v, u) {
        assert old(UserOk(v, controls, w));
        StillApart(u, v);
      }
      forall v, x | v in users && x in users && v != u && x != u && v != x ensures Apart(v, x) {
        assert old(Apart(v, x));
      }
    }

    /** user.controls.onSessionEnd among the tracked users. */
    method EndUserSession(u: TrackedUser, ghost users: set<TrackedUser>, ghost w: World)
      requires Valid(users, w) && u in users && u.controls.isInHandpointSession
      modifies this`userid, this`history, u`engaged, OwnApps(u.controls.listeners)`calls
      modifies u.controls`listeners, u.controls`isInHandpointSession
      modifies SharedLists(w)`isInHandpointSession, SharedApps(w)`calls
      ensures Valid(users, w) && !u.controls.isInHandpointSession
      ensures forall v | v in users && v != u :: v.controls.isInHandpointSession == old(v.controls.isInHandpointSession)
      ensures Outcome(u, old(userid) == u.userid, 0, old(userid), old(history) + [Disengaged(u.userid)], old(history))
      ensures OwnApps(u.controls.listeners) == old(OwnApps(u.controls.listeners))
      ensures forall a | a in old(OwnApps(u.controls.listeners)) :: a.calls == old(a.calls) + [End]
      ensures forall a | a in SharedApps(w) :: a.calls == old(a.calls) + if old(userid) == u.userid then [End] else []
    {
      hide SharedOk, UserOk, Apart, WaitsAt, NoRepeats, OwnOk, SharedApps, SharedLists;
      OthersApart(u, users, w);
      ghost var k := WaitPlace(u, w);
      EndSessionOf(u, w, OwnApps(u.controls.listeners));
      forall v | v in users && v != u ensures UserOk(v, controls, w) && Apart(u, v) && Apart(v, u) {
        assert old(UserOk(v, controls, w));
        StillApart(u, v);
      }
      forall v, x | v in users && x in users && v != u && x != u && v != x ensures Apart(v, x) {
        assert old(Apart(v, x));
      }
    }

    /** Where the waiting control of a user stands, and what else is known of its list. */
    lemma WaitPlace(u: TrackedUser, w: World) returns (k: nat)
      requires UserOk(u, controls, w)
      ensures var ls := u.controls.listeners;
        && u.userid != 0 && u.controls !in w.c && NoRepeats(ls) && WaitsAt(ls, u.userid, controls, k)
        && OwnApps(ls) !! w.apps && u.engaged == (Nested(controls) in ls)
        && (u.engaged ==> u.controls.isInHandpointSession)
        && OwnOk(OwnApps(ls), u.controls.isInHandpointSession)
    {
      k :| WaitsAt(u.controls.listeners, u.userid, controls, k);
    }

    lemma StillOk(u: TrackedUser, w: World, k: nat)
      requires u.userid != 0 && u.controls !in w.c
      requires var ls := u.controls.listeners;
        && NoRepeats(ls) && WaitsAt(ls, u.userid, controls, k)
        && OwnApps(ls) !! w.apps && u.engaged == (Nested(controls) in ls)
      requires u.engaged ==> u.controls.isInHandpointSession
      requires OwnOk(OwnApps(u.controls.listeners), u.controls.isInHandpointSession)
      ensures UserOk(u, controls, w)
    {
    }

    lemma Following(w: World)
      requires SharedOk(w)
      ensures AllFollow(SharedApps(w), joined, HeardBy(w.apps), history)
    {
    }

    /** What the shared controls have heard since an earlier history, from the events since. */
    lemma SharedHear(w: World, h: seq<Event>, before: Heard, es: seq<Event>)
      requires SharedOk(w) && AllFollow(SharedApps(w), joined, before, h) && history == h + es && |es| <= 1
      ensures forall a | a in SharedApps(w) ::
                a in before && a.calls == before[a] + if es == [] then [] else CallsFor(es[0])
    {
      hide Steady, SharedApps;
      AllHear(SharedApps(w), joined, before, HeardBy(w.apps), h, es);
      SharedCallsOfOne();
      if es != [] { assert es == [es[0]]; }
    }

    lemma OwnHear(own: set<AppControl>, before: Heard, now: Heard, call: Call)
      requires before.Keys == now.Keys == own && OwnOkAs(before, call.End?)
      requires forall a | a in own :: now[a] == before[a] + [call]
      ensures OwnOkAs(now, call.Start?)
    {
      forall a | a in own { AlternatingAppend(before[a], call); }
    }

    lemma OthersApart(u: TrackedUser, users: set<TrackedUser>, w: World)
      requires Valid(users, w) && u in users
      ensures forall v | v in users && v != u ::
                && v.userid !in {0, u.userid} && v.controls != u.controls && v.controls !in w.c
                && OwnApps(u.controls.listeners) !! OwnApps(v.controls.listeners)
                && OwnApps(v.controls.listeners) !! w.apps
    {
    }

    lemma StillApart(u: TrackedUser, v: TrackedUser)
      requires v.userid != u.userid && v.controls != u.controls
      requires OwnApps(u.controls.listeners) !! OwnApps(v.controls.listeners)
      ensures Apart(u, v) && Apart(v, u)
    {
    }

    /** A new tracked user gets a waiting control. */
    method OnNewUser(u: TrackedUser, ghost users: set<TrackedUser>, ghost w: World)
      requires Valid(users, w) && u !in users && u.userid != 0 && u.controls !in w.c
      requires u.controls.listeners == [] && !u.controls.isInHandpointSession && !u.engaged
      requires forall v | v in users :: v.userid != u.userid && v.controls != u.controls
      modifies u.controls`listeners
      ensures Valid(users + {u}, w)
      ensures u.controls.listeners == [Wait(u.userid)]
    {
      ReadyToTell(w);
      hide SharedOk;
      u.controls.AddControl(Some(Wait(u.userid)), w.c, w.rank, w.apps);
      assert WaitsAt(u.controls.listeners, u.userid, controls, 0);
      assert userid != u.userid;
    }

    /** Losing the engaged user ends the engagement, but no session end is sent. */
    method OnLostUser(u: TrackedUser, ghost users: set<TrackedUser>, ghost w: World)
      requires Valid(users, w) && u in users
      modifies this`userid, this`history
      ensures Valid(users - {u}, w)
      ensures userid == if old(userid) == u.userid then 0 else old(userid)
      ensures history == if old(userid) == u.userid then old(history) + [LostEngaged(u.userid)] else old(history)
    {
      hide UserOk, Apart, Steady, SharedApps, Follows;
      if u.userid == userid {
        ghost var h := history;
        OthersApart(u, users, w);
        ghost var k := WaitPlace(u, w);
        LossFollows(w, u.userid);
        userid := 0;
        history := history + [LostEngaged(u.userid)];
        assert history[..|h|] == h;
      }
    }

    // ----- controls that come and go --------------------------------------------------------

    /** The world after a control was added to, or removed from, a list of the shared forest. */
    ghost function WorldAfterAdd(w: World, l: ControlList, x: Option<Control>): World
      requires l in w.c
    {
      w.(c := AfterAdd(w.c, l, x))
    }

    ghost function WorldAfterRemove(w: World, l: ControlList, x: Option<Control>): World
      requires l in w.c
    {
      w.(c := AfterRemove(w.c, l, x))
    }

    /** Below the shared controls, or elsewhere in the forest, a control is added that is not
        started. During the shared session what comes below the shared controls is told at once. */
    method AddShared(l: ControlList, x: Option<Control>, ghost w: World)
      requires SharedOk(w) && l in w.c && Addable(w.c, w.rank, w.apps, l, x) && x != Some(Nested(controls))
      modifies l`listeners, this`joined, w.c.Keys`isInHandpointSession, w.c.Keys`focusPoint, w.apps`calls
      ensures SharedOk(WorldAfterAdd(w, l, x))
      ensures l.isInHandpointSession == old(l.isInHandpointSession)
      ensures forall a | a in w.apps ::
                a.calls == old(a.calls) +
                           CallsTo(w.c, w.rank, x, a, l.isInHandpointSession, Start(old(l.focusPoint)))
      ensures forall a | a in SharedApps(w) :: a in joined && a in old(joined) && joined[a] == old(joined)[a]
      ensures forall a | a in SharedApps(WorldAfterAdd(w, l, x)) && a !in SharedApps(w) ::
                a in joined && joined[a] == Joined(a.calls, |history|)
    {
      hide Steady, Follows, Below, ListsOf, AppsOf, AfterAdd, SharedApps, Addable, Forest, Detached, Exclusive, On;
      ghost var v, before, earlier := WorldAfterAdd(w, l, x), HeardBy(w.apps), joined;
      ShapeAfterAdd(w, l, x);
      AddStep(l, x, w.c, w.rank, w.apps);
      ghost var newcomers := SharedApps(v) - SharedApps(w);
      joined := map a | a in joined.Keys + newcomers ::
                  if a in newcomers then Joined(a.calls, |history|) else joined[a];
      OnBelow(v);
      FollowWithNewcomers(SharedApps(w), newcomers, earlier, joined, before, HeardBy(w.apps), history);
      assert SharedApps(v) == SharedApps(w) + newcomers;
    }

    /** Where the shared controls stand after an addition: apart from what was added, unless it
        was added below them. */
    lemma ShapeAfterAdd(w: World, l: ControlList, x: Option<Control>)
      requires SharedOk(w) && l in w.c && Addable(w.c, w.rank, w.apps, l, x) && x != Some(Nested(controls))
      ensures var v := WorldAfterAdd(w, l, x);
        && v.c.Keys == w.c.Keys && Detached(v.c, Nested(controls)) && SharedApps(w) <= SharedApps(v)
      ensures SharedApps(w) !! AppsOf(w.c, w.rank, x) && controls !in ListsOf(w.c, w.rank, x)
    {
      var v := WorldAfterAdd(w, l, x);
      if x.Some? {
        AddedShape(w.c, w.rank, l, x.value);
        BelowWithOneMore(v.c, w.c, w.rank, l, x.value, controls);
        OutermostApart(w.c, w.rank, controls, x.value);
      }
    }

    lemma ShapeAfterRemove(w: World, l: ControlList, x: Option<Control>)
      requires SharedOk(w) && l in w.c
      ensures var v := WorldAfterRemove(w, l, x);
        && v.c.Keys == w.c.Keys && Detached(v.c, Nested(controls)) && SharedApps(v) <= SharedApps(w)
        && SharedApps(v) !! AppsOf(w.c, w.rank, Evicted(w.c[l], x))
        && controls !in ListsOf(w.c, w.rank, Evicted(w.c[l], x))
    {
      var v := WorldAfterRemove(w, l, x);
      if x.Some? && w.c[l] != [] {
        var y := Evicted(w.c[l], x).value;
        RemovedShape(w.c, w.rank, l, x);
        RemovalReady(w.c, w.rank, w.apps, l, x);
        BelowWithOneMore(w.c, v.c, w.rank, l, y, controls);
        OutermostApart(v.c, w.rank, controls, y);
      } else {
        assert v.c == w.c;
      }
    }

    lemma OnBelow(w: World)
      requires Steady(w.c, w.rank, w.apps) && controls in w.c
      ensures forall a | a in SharedApps(w) :: Ongoing(a.calls) == controls.isInHandpointSession
    {
      BelowAgrees(w.c, w.rank, w.apps, controls);
    }

    /** The control, or the last one when it is absent, is taken out of a list of the forest. */
    method RemoveShared(l: ControlList, x: Option<Control>, ghost w: World) returns (threw: bool)
      requires SharedOk(w) && l in w.c
      modifies l`listeners, w.c.Keys`isInHandpointSession, w.apps`calls
      ensures SharedOk(WorldAfterRemove(w, l, x)) && SharedApps(WorldAfterRemove(w, l, x)) <= SharedApps(w)
      ensures l.isInHandpointSession == old(l.isInHandpointSession)
      ensures forall a | a in w.apps ::
                a.calls == old(a.calls) + CallsTo(w.c, w.rank, Evicted(w.c[l], x), a, l.isInHandpointSession, End)
      ensures threw <==> x.Some? && w.c[l] == [] && l.isInHandpointSession
    {
      hide Steady, Follows, Below, ListsOf, AppsOf, AfterRemove, AfterRemoval, Evicted, SharedApps;
      ghost var v, before := WorldAfterRemove(w, l, x), HeardBy(w.apps);
      ShapeAfterRemove(w, l, x);
      threw := RemoveStep(l, x, w.c, w.rank, w.apps);
      FollowWithNewcomers(SharedApps(v), {}, joined, joined, before, HeardBy(w.apps), history);
      assert SharedApps(v) + {} == SharedApps(v);
    }

    /** The same among the tracked users, who are not touched. */
    method AddToShared(l: ControlList, x: Option<Control>, ghost users: set<TrackedUser>, ghost w: World)
      requires Valid(users, w) && l in w.c && Addable(w.c, w.rank, w.apps, l, x) && x != Some(Nested(controls))
      modifies l`listeners, this`joined, w.c.Keys`isInHandpointSession, w.c.Keys`focusPoint, w.apps`calls
      ensures Valid(users, WorldAfterAdd(w, l, x))
      ensures forall a | a in w.apps ::
                a.calls == old(a.calls) +
                           CallsTo(w.c, w.rank, x, a, l.isInHandpointSession, Start(old(l.focusPoint)))
      ensures forall a | a in SharedApps(w) :: a in joined && a in old(joined) && joined[a] == old(joined)[a]
      ensures forall a | a in SharedApps(WorldAfterAdd(w, l, x)) && a !in SharedApps(w) ::
                a in joined && joined[a] == Joined(a.calls, |history|)
    {
      hide SharedOk, Addable, SharedApps;
      AddShared(l, x, w);
      UsersStay(users, w, WorldAfterAdd(w, l, x));
    }

    method RemoveFromShared(l: ControlList, x: Option<Control>, ghost users: set<TrackedUser>, ghost w: World)
      returns (threw: bool)
      requires Valid(users, w) && l in w.c
      modifies l`listeners, w.c.Keys`isInHandpointSession, w.apps`calls
      ensures Valid(users, WorldAfterRemove(w, l, x)) && SharedApps(WorldAfterRemove(w, l, x)) <= SharedApps(w)
      ensures forall a | a in w.apps ::
                a.calls == old(a.calls) + CallsTo(w.c, w.rank, Evicted(w.c[l], x), a, l.isInHandpointSession, End)
      ensures threw <==> x.Some? && w.c[l] == [] && l.isInHandpointSession
    {
      hide SharedOk, Evicted, AfterRemoval, SharedApps;
      threw := RemoveShared(l, x, w);
      UsersStay(users, w, WorldAfterRemove(w, l, x));
    }

    lemma UsersStay(users: set<TrackedUser>, w: World, v: World)
      requires v.c.Keys == w.c.Keys && v.apps == w.apps && forall u | u in users :: UserOk(u, controls, w)
      ensures forall u | u in users :: UserOk(u, controls, v)
    {
    }

    /** An application control that is not started is added to the list of a user. */
    method AddOwn(u: TrackedUser, a: AppControl, ghost users: set<TrackedUser>, ghost w: World)
      requires Valid(users, w) && u in users && a !in w.apps && a !in AppsOfUsers(users)
      requires Alternating(a.calls) && !Ongoing(a.calls)
      modifies u.controls`listeners, a`calls
      ensures Valid(users, w) && u.controls.listeners == old(u.controls.listeners) + [App(a)]
      ensures a.calls == old(a.calls) + if u.controls.isInHandpointSession then [Start(u.controls.focusPoint)] else []
    {
      hide SharedOk, UserOk, Apart, WaitsAt, NoRepeats, OwnOk;
      ghost var ls, on := u.controls.listeners, u.controls.isInHandpointSession;
      ghost var k := WaitPlace(u, w);
      OthersApart(u, users, w);
      OwnIsTellable(App(a), w);
      GrownShape(ls, u.userid, controls, k, a);
      u.controls.AddControl(Some(App(a)), w.c, w.rank, {a});
      AlternatingAppend(old(a.calls), Start(u.controls.focusPoint));
      OwnWithOneMore(OwnApps(ls), a, on);
      StillOk(u, w, k);
      forall v | v in users && v != u ensures UserOk(v, controls, w) && Apart(u, v) && Apart(v, u) {
        assert old(UserOk(v, controls, w));
        StillApart(u, v);
      }
      forall v, x | v in users && x in users && v != u && x != u && v != x ensures Apart(v, x) {
        assert old(Apart(v, x));
      }
    }

    lemma OwnWithOneMore(own: set<AppControl>, a: AppControl, on: bool)
      requires OwnOk(own, on) && Alternating(a.calls) && Ongoing(a.calls) == on
      ensures OwnOk(own + {a}, on)
    {
    }

    /** The control, or the last listener when it is absent, is taken out of the list of a user.
        Everything stays in agreement exactly if that is an application control, as it is when
        the control is present; otherwise the user loses its waiting or the shared controls. */
    method RemoveOwn(u: TrackedUser, a: AppControl, ghost users: set<TrackedUser>, ghost w: World)
      requires Valid(users, w) && u in users
      modifies u.controls`listeners, OwnApps(u.controls.listeners)`calls
      modifies SharedLists(w)`isInHandpointSession, SharedApps(w)`calls
      ensures u.controls.listeners == AfterRemoval(old(u.controls.listeners), Some(App(a)))
      ensures old(Evicted(u.controls.listeners, Some(App(a)))).Some?
      ensures old(a in OwnApps(u.controls.listeners)) ==>
                old(Evicted(u.controls.listeners, Some(App(a)))) == Some(App(a))
      ensures Valid(users, w) <==> old(Evicted(u.controls.listeners, Some(App(a)))).value.App?
      ensures old(Evicted(u.controls.listeners, Some(App(a)))).value.Wait? ==> Deaf(u.controls.listeners)
      ensures old(Evicted(u.controls.listeners, Some(App(a)))).value.Nested? ==>
                u.engaged && Nested(controls) !in u.controls.listeners
      ensures forall b | b in old(OwnApps(u.controls.listeners)) ::
                b.calls == old(b.calls) +
                           if u.controls.isInHandpointSession && old(Evicted(u.controls.listeners, Some(App(a)))) == Some(App(b))
                           then [End] else []
    {
      hide SharedOk, UserOk, Apart, WaitsAt, NoRepeats, OwnOk, AfterRemoval, Evicted, SharedApps, SharedLists;
      ghost var ls, on, own := u.controls.listeners, u.controls.isInHandpointSession, OwnApps(u.controls.listeners);
      ghost var k := WaitPlace(u, w);
      ShrunkShape(ls, u.userid, controls, k, a);
      OthersApart(u, users, w);
      TakeOut(u, a, w, own);
      if Evicted(ls, Some(App(a))).value.App? {
        ghost var j :| WaitsAt(u.controls.listeners, u.userid, controls, j);
        StillOk(u, w, j);
        forall v | v in users && v != u ensures UserOk(v, controls, w) && Apart(u, v) && Apart(v, u) {
          assert old(UserOk(v, controls, w));
          StillApart(u, v);
        }
        forall v, x | v in users && x in users && v != u && x != u && v != x ensures Apart(v, x) {
          assert old(Apart(v, x));
        }
      } else {
        BrokenList(u, w);
      }
    }

    method TakeOut(u: TrackedUser, a: AppControl, ghost w: World, ghost own: set<AppControl>)
      requires SharedOk(w) && u.controls !in w.c && own == OwnApps(u.controls.listeners) && own !! w.apps
      requires OwnOk(own, u.controls.isInHandpointSession)
      requires NoRepeats(u.controls.listeners) && exists k :: WaitsAt(u.controls.listeners, u.userid, controls, k)
      modifies u.controls`listeners, own`calls, SharedLists(w)`isInHandpointSession, SharedApps(w)`calls
      ensures u.controls.listeners == AfterRemoval(old(u.controls.listeners), Some(App(a)))
      ensures old(Evicted(u.controls.listeners, Some(App(a)))).Some?
      ensures forall b | b in own ::
                b.calls == old(b.calls) +
                           if u.controls.isInHandpointSession && old(Evicted(u.controls.listeners, Some(App(a)))) == Some(App(b))
                           then [End] else []
      ensures old(Evicted(u.controls.listeners, Some(App(a)))).value.App? ==>
                && SharedOk(w) && OwnApps(u.controls.listeners) <= own
                && OwnOk(OwnApps(u.controls.listeners), u.controls.isInHandpointSession)
    {
      hide SharedOk, WaitsAt, NoRepeats, OwnApps, AfterRemoval, Evicted, SharedApps, SharedLists;
      ghost var ls, k :| ls == u.controls.listeners && WaitsAt(ls, u.userid, controls, k);
      ShrunkShape(ls, u.userid, controls, k, a);
      ListedApps(ls);
      EvictedIsTellable(Evicted(ls, Some(App(a))).value, w, own);
      var threw := u.controls.RemoveControl(Some(App(a)), w.c, w.rank, w.apps + own);
    }

    lemma EvictedIsTellable(y: Control, w: World, own: set<AppControl>)
      requires SharedOk(w) && (y.App? ==> y.app in own) && (y.Nested? ==> y == Nested(controls))
      ensures Forest(w.c, w.rank) && Tellable(w.c, w.rank, w.apps + own, Some(y))
      ensures ListsOf(w.c, w.rank, Some(y)) == if y.Nested? then SharedLists(w) else {}
      ensures AppsOf(w.c, w.rank, Some(y)) == if y.Nested? then SharedApps(w) else if y.App? then {y.app} else {}
    {
      ReadyToTell(w);
    }

    lemma BrokenList(u: TrackedUser, w: World)
      requires (forall z | z in u.controls.listeners :: !z.Wait?) ||
               (u.engaged && Nested(controls) !in u.controls.listeners)
      ensures !UserOk(u, controls, w)
    {
    }

    lemma LossFollows(w: World, user: nat)
      requires AllFollow(SharedApps(w), joined, HeardBy(w.apps), history)
      ensures AllFollow(SharedApps(w), joined, HeardBy(w.apps), history + [LostEngaged(user)])
    {
      assert forall a | a in w.apps :: a.calls == a.calls + CallsFor(LostEngaged(user));
      AllFollowOn(SharedApps(w), joined, HeardBy(w.apps), HeardBy(w.apps), history, LostEngaged(user));
    }

    lemma ReadyToTell(w: World)
      requires Steady(w.c, w.rank, w.apps) && controls in w.c && Detached(w.c, Nested(controls))
      ensures Tellable(w.c, w.rank, w.apps, Some(Nested(controls)))
      ensures AgreeMaps(w.c, w.apps, FlagsOf(w.c), HeardBy(w.apps))
      ensures ListsOf(w.c, w.rank, Some(Nested(controls))) == SharedLists(w) && controls in SharedLists(w)
      ensures AppsOf(w.c, w.rank, Some(Nested(controls))) == SharedApps(w)
      ensures ToldLists(w.c, w.rank, Nested(controls)) == SharedLists(w)
      ensures ToldApps(w.c, w.rank, Nested(controls)) == SharedApps(w)
    {
      BelowAgrees(w.c, w.rank, w.apps, controls);
      AgreeAsMaps(w.c, w.apps);
      assert SharedApps(w) == AppsBelow(w.c, w.rank, controls);
    }

    lemma ToldShared(w: World, flags: Flags, heard: Heard, call: Call)
      requires Forest(w.c, w.rank) && Matches(w.c, w.c.Keys)
      requires controls in w.c && Detached(w.c, Nested(controls))
      requires w.c.Keys == flags.Keys && w.apps == heard.Keys && AgreeMaps(w.c, w.apps, flags, heard)
      requires Told(w.c, w.rank, w.apps, Nested(controls), call, flags, heard)
      requires forall a | a in w.apps && Ongoing(heard[a]) :: Held(w.c, a)
      ensures Steady(w.c, w.rank, w.apps) && controls.isInHandpointSession == call.Start?
    {
      ToldSplit(w.c, w.rank, Nested(controls));
      AgreeAfterTelling(w.c, w.rank, w.apps, Nested(controls), call, flags, heard);
    }
  }

  ghost predicate OwnOkAs(heard: Heard, on: bool) {
    forall a | a in heard :: Alternating(heard[a]) && Ongoing(heard[a]) == on
  }

  /** The list after its user's session ends: without the shared controls if it held them. */
  ghost function LeftBy(engaged: bool, ls: seq<Control>, shared: ControlList): seq<Control> {
    if engaged then AfterRemoval(ls, Some(Nested(shared))) else ls
  }

  lemma LeftByShape(engaged: bool, ls: seq<Control>, id: nat, shared: ControlList, k: nat)
    requires NoRepeats(ls) && WaitsAt(ls, id, shared, k) && engaged == (Nested(shared) in ls)
    ensures var left := LeftBy(engaged, ls, shared);
      && NoRepeats(left) && WaitsAt(left, id, shared, k) && Nested(shared) !in left && |left| <= |ls|
      && OwnApps(left) == OwnApps(ls) && left[..k + 1] == ls[..k + 1]
      && (forall i | 0 <= i < |left| :: !left[i].Nested?)
  {
    if engaged {
      var x := Nested(shared);
      var s := IndexOf(ls, x);
      var left := LeftBy(engaged, ls, shared);
      assert left == ls[..s] + ls[s + 1..];
      forall i | 0 <= i < |left| ensures left[i] == ls[if i < s then i else i + 1] && left[i] != x {
      }
      forall a | a in OwnApps(ls) ensures a in OwnApps(left) {
        var i :| 0 <= i < |ls| && ls[i] == App(a);
        assert left[if i < s then i else i - 1] == App(a);
      }
    }
  }

  lemma GivenShape(ls: seq<Control>, id: nat, shared: ControlList, k: nat)
    requires NoRepeats(ls) && WaitsAt(ls, id, shared, k) && Nested(shared) !in ls
    ensures var given := ls + [Nested(shared)];
      && NoRepeats(given) && WaitsAt(given, id, shared, k) && Nested(shared) in given
      && OwnApps(given) == OwnApps(ls)
  {
    var given := ls + [Nested(shared)];
    assert given[|ls|] == Nested(shared);
    forall a | a in OwnApps(ls) ensures a in OwnApps(given) {
      var i :| 0 <= i < |ls| && ls[i] == App(a);
      assert given[i] == App(a);
    }
  }

  lemma GrownShape(ls: seq<Control>, id: nat, shared: ControlList, k: nat, a: AppControl)
    requires NoRepeats(ls) && WaitsAt(ls, id, shared, k) && a !in OwnApps(ls)
    ensures var grown := ls + [App(a)];
      && NoRepeats(grown) && WaitsAt(grown, id, shared, k) && (Nested(shared) in grown <==> Nested(shared) in ls)
      && OwnApps(grown) == OwnApps(ls) + {a}
  {
    var grown := ls + [App(a)];
    assert grown[|ls|] == App(a);
    forall b | b in OwnApps(ls) ensures b in OwnApps(grown) {
      var i :| 0 <= i < |ls| && ls[i] == App(b);
      assert grown[i] == App(b);
    }
  }

  lemma ListedApps(ls: seq<Control>)
    ensures forall a :: a in OwnApps(ls) <==> App(a) in ls
  {
  }

  /** What an application control's removal leaves: without an application control, a list of the
      same kind; otherwise a list without the waiting or the shared controls. */
  lemma ShrunkShape(ls: seq<Control>, id: nat, shared: ControlList, k: nat, a: AppControl)
    requires NoRepeats(ls) && WaitsAt(ls, id, shared, k)
    ensures Evicted(ls, Some(App(a))).Some?
    ensures var y, left := Evicted(ls, Some(App(a))).value, AfterRemoval(ls, Some(App(a)));
      && y in ls && (a in OwnApps(ls) ==> y == App(a)) && NoRepeats(left) && y !in left
      && (y.Nested? ==> y == Nested(shared))
      && (forall z | z in ls && z != y :: z in left) && (forall z | z in left :: z in ls)
      && (y.App? ==> (exists j :: WaitsAt(left, id, shared, j)) && OwnApps(left) == OwnApps(ls) - {y.app})
      && (y.Wait? ==> Deaf(left))
  {
    var e := EvictedAt(ls, a);
    hide AfterRemoval, Evicted, IndexOf;
    if a in OwnApps(ls) {
      var j :| 0 <= j < |ls| && ls[j] == App(a);
    }
    DroppedListener(ls, e, id, shared, k);
    if ls[e].App? { AppsWithout(ls, AfterRemoval(ls, Some(App(a))), ls[e].app); }
    if ls[e].Wait? {
      assert ls[..e] + ls[e + 1..] == ls[..k];
    }
  }

  /** The position from which a control is evicted: its own, or the last if it is absent. */
  lemma EvictedAt(ls: seq<Control>, a: AppControl) returns (e: nat)
    requires ls != []
    ensures e < |ls| && AfterRemoval(ls, Some(App(a))) == ls[..e] + ls[e + 1..]
    ensures Evicted(ls, Some(App(a))) == Some(ls[e])
    ensures if App(a) in ls then ls[e] == App(a) else e == |ls| - 1
  {
    var i := IndexOf(ls, App(a));
    e := if i == -1 then |ls| - 1 else i;
  }

  lemma DroppedListener(ls: seq<Control>, e: nat, id: nat, shared: ControlList, k: nat)
    requires NoRepeats(ls) && WaitsAt(ls, id, shared, k) && e < |ls|
    ensures var left := ls[..e] + ls[e + 1..];
      && NoRepeats(left) && ls[e] !in left
      && (forall z | z in ls && z != ls[e] :: z in left) && (forall z | z in left :: z in ls)
      && (ls[e].App? ==> exists j :: WaitsAt(left, id, shared, j))
      && (ls[e].Wait? ==> forall z | z in left :: !z.Wait?)
  {
    var left := ls[..e] + ls[e + 1..];
    assert forall j | 0 <= j < |left| :: left[j] == ls[if j < e then j else j + 1];
    forall z | z in ls && z != ls[e] ensures z in left {
      var j :| 0 <= j < |ls| && ls[j] == z;
      var at := if j < e then j else j - 1;
      assert left[at] == z;
    }
    if ls[e].App? {
      assert WaitsAt(left, id, shared, if k < e then k else k - 1);
    }
  }

  lemma AppsWithout(ls: seq<Control>, left: seq<Control>, gone: AppControl)
    requires (forall z | z in ls && z != App(gone) :: z in left) && (forall z | z in left :: z in ls)
    requires App(gone) !in left
    ensures OwnApps(left) == OwnApps(ls) - {gone}
  {
    forall b | b in OwnApps(ls) && b != gone ensures b in OwnApps(left) {
      var i :| 0 <= i < |ls| && ls[i] == App(b);
      assert App(b) in left;
    }
    forall b | b in OwnApps(left) ensures b in OwnApps(ls) - {gone} {
      var i :| 0 <= i < |left| && left[i] == App(b);
      assert App(b) in ls;
    }
  }

  lemma SamePrefix(ls: seq<Control>, left: seq<Control>, k: nat, i: nat)
    requires k < |ls| && k < |left| && left[..k + 1] == ls[..k + 1]
    ensures i <= k ==> left[i] == ls[i]
  {
  }

  /** Of the application controls in a list exactly those before place i have heard one more call. */
  ghost predicate ToldUpTo(ls: seq<Control>, i: nat, heard: Heard, call: Call, now: Heard) {
    forall j | 0 <= j < |ls| && ls[j].App? ::
      && ls[j].app in heard && ls[j].app in now
      && now[ls[j].app] == if j < i then heard[ls[j].app] + [call] else heard[ls[j].app]
  }

  lemma ToldNone(ls: seq<Control>, heard: Heard, call: Call)
    requires heard.Keys == OwnApps(ls)
    ensures ToldUpTo(ls, 0, heard, call, heard)
  {
  }

  lemma ToldStep(ls: seq<Control>, i: nat, heard: Heard, call: Call, before: Heard, now: Heard)
    requires i < |ls| && NoRepeats(ls) && ToldUpTo(ls, i, heard, call, before)
    requires before.Keys == now.Keys
    requires forall a | a in now :: now[a] == if ls[i] == App(a) then before[a] + [call] else before[a]
    ensures ToldUpTo(ls, i + 1, heard, call, now)
  {
  }

  lemma ToldAll(ls: seq<Control>, n: nat, heard: Heard, call: Call, now: Heard)
    requires heard.Keys == now.Keys == OwnApps(ls) && |ls| <= n && ToldUpTo(ls, n, heard, call, now)
    ensures forall a | a in now :: now[a] == heard[a] + [call]
  {
  }
}
