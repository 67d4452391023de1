/** The user tracker turns frames of users and hands into tracked users with sessions. */
module UserTracking {
  import opened Common
  import opened ControlLists
  import opened Engagement
  import opened Tracking
  import opened EngagementRuns

  class UserTracker {
    const manager: EngageSingleSession
    var rawUsers: seq<nat>
    var rawHands: seq<Hand>
    var trackedUsers: map<nat, TrackedUser>
    var trackedHands: map<nat, nat>
    var allowHandsForUntrackedUsers: bool
    var lastFakeUserId: nat
    ghost var log: seq<UserEvent>
    ghost var frames: seq<Frame>

    constructor (manager: EngageSingleSession, ghost w: World)
      requires manager.SharedOk(w) && manager.history == []
      ensures this.manager == manager && Valid(w) && frames == [] && allowHandsForUntrackedUsers
      ensures trackedUsers == map[] && trackedHands == map[] && rawHands == [] && lastFakeUserId == 1337
    {
      this.manager := manager;
      rawUsers, rawHands, trackedUsers, trackedHands := [], [], map[], map[];
      allowHandsForUntrackedUsers := true;
      lastFakeUserId := FIRST_FAKE;
      log, frames := [], [];
    }

    ghost function Tracked(): Book
      reads this`trackedUsers, this`trackedHands, this`lastFakeUserId
    {
      Book(trackedUsers.Keys, trackedHands, lastFakeUserId)
    }

    /** In agreement, also in the middle of a frame. */
    ghost predicate Consistent(w: World)
      reads this`trackedUsers, this`lastFakeUserId, this`log
      reads manager`userid, manager`history, manager`joined
      reads trackedUsers.Values`isInHandpointSession, trackedUsers.Values`engaged
      reads (set u | u in trackedUsers.Values :: u.controls)`listeners
      reads (set u | u in trackedUsers.Values :: u.controls)`isInHandpointSession
      reads AppsOfUsers(trackedUsers.Values)`calls
      reads w.c.Keys`listeners, w.c.Keys`isInHandpointSession, w.apps`calls
    {
      && lastFakeUserId != 0
      && KeyedById(trackedUsers)
      && manager.Valid(trackedUsers.Values, w)
      && (manager.userid != 0 ==> manager.userid in trackedUsers)
      && InStep(trackedUsers.Values)
      && Accounts(log, trackedUsers.Keys)
    }

    /** Between frames: in agreement, and where the run of frames so far leads. */
    ghost predicate Valid(w: World)
      reads this, manager`userid, manager`history, manager`joined
      reads trackedUsers.Values`isInHandpointSession, trackedUsers.Values`engaged
      reads (set u | u in trackedUsers.Values :: u.controls)`listeners
      reads (set u | u in trackedUsers.Values :: u.controls)`isInHandpointSession
      reads AppsOfUsers(trackedUsers.Values)`calls
      reads w.c.Keys`listeners, w.c.Keys`isInHandpointSession, w.apps`calls
    {
      Consistent(w) && AsFramesSay() && CameBetween(manager.joined, manager.SharedApps(w), frames)
    }

    /** The ids, sessions, engagement and announcements are those that the frames determine. */
    ghost predicate AsFramesSay()
      reads this, manager`userid, manager`history, trackedUsers.Values`isInHandpointSession
    {
      && Tracked() == Run(frames) && rawUsers == LastUsers(frames)
      && InSession() == Holding(Run(frames))
      && manager.userid == EngagedAfter(frames) && Plain(manager.history) == Engagements(frames)
      && Tells(log, frames)
    }

    /** What holds of the tracker in every state it can reach. */
    lemma Reachable(w: World)
      requires Valid(w)
      ensures Grounded(Tracked(), rawUsers) && forall u | u in rawUsers :: u in trackedUsers
      ensures lastFakeUserId == FIRST_FAKE + HandsOfNoUser(frames)
      ensures (forall f | f in frames :: Clear(f, lastFakeUserId)) ==> FakesPaired(Tracked(), lastFakeUserId)
      ensures forall id :: About(log, id) == Story(frames, id) && (id in trackedUsers <==> |About(log, id)| % 2 == 1)
      ensures manager.userid == EngagedAfter(frames) && Plain(manager.history) == Engagements(frames)
      ensures forall id | id in trackedUsers ::
                trackedUsers[id].isInHandpointSession <==> exists h | h in trackedHands :: trackedHands[h] == id
    {
      RunsAreGrounded(frames);
      NextFakeCounts(frames);
      if forall f | f in frames :: Clear(f, lastFakeUserId) { RunsPairFakes(frames, lastFakeUserId); }
      forall id ensures id in trackedUsers <==> |About(log, id)| % 2 == 1 {
        EventsAlternate(log, trackedUsers.Keys, id);
      }
      forall id | id in trackedUsers ensures trackedUsers[id].isInHandpointSession <==> Tracking.Owns(trackedHands, id) {
        assert id in InSession() <==> id in Holding(Run(frames));
      }
    }

    method ProcessNewUser(userid: nat, ghost w: World)
      requires Consistent(w) && userid != 0
      modifies this`trackedUsers, this`log
      ensures Consistent(w)
      ensures trackedUsers.Keys == old(trackedUsers.Keys) + {userid}
      ensures Came(old(trackedUsers.Keys), trackedUsers.Keys, old(log), log)
      ensures forall id | id in old(trackedUsers) :: trackedUsers[id] == old(trackedUsers)[id]
      ensures userid !in old(trackedUsers) ==>
                && fresh(trackedUsers[userid]) && fresh(trackedUsers[userid].controls)
                && Blank(trackedUsers[userid])
    {
      hide Consistent, Came, About;
      if userid !in trackedUsers {
        ghost var all := AppsOfUsers(trackedUsers.Values);
        var user := new TrackedUser(userid);
        Enter(user, w);
      } else {
        NobodyMoves(trackedUsers.Keys, log);
      }
    }

    /** Takes in a user that is not tracked, and announces it. */
    method Enter(user: TrackedUser, ghost w: World)
      requires Consistent(w) && user.userid != 0 && user.userid !in trackedUsers && user.controls !in w.c
      requires forall u | u in trackedUsers.Values :: u != user && u.controls != user.controls
      requires user.controls.listeners == [] && !user.controls.isInHandpointSession
      requires !user.isInHandpointSession && !user.engaged
      modifies this`trackedUsers, this`log, user.controls`listeners
      ensures Consistent(w) && trackedUsers == old(trackedUsers)[user.userid := user]
      ensures OwnApps(user.controls.listeners) == {}
      ensures Came(old(trackedUsers.Keys), trackedUsers.Keys, old(log), log)
    {
      hide EngageSingleSession.Valid, Accounts, Came, About;
      ValuesAfterAdding(trackedUsers, user.userid, user);
      manager.OnNewUser(user, trackedUsers.Values, w);
      trackedUsers := trackedUsers[user.userid := user];
      LogGrows(log, New(user.userid), old(trackedUsers.Keys), trackedUsers.Keys);
      OneComes(old(trackedUsers.Keys), user.userid, log);
      log := log + [New(user.userid)];
    }

    method ProcessLostUser(userid: nat, ghost w: World)
      requires Consistent(w)
      modifies this`trackedUsers, this`log, manager`userid, manager`history
      ensures Consistent(w)
      ensures trackedUsers == Remaining(old(trackedUsers), userid)
      ensures Dropped(old(trackedUsers.Keys), trackedUsers.Keys, old(log), log)
      ensures Stays(old(trackedUsers), trackedUsers, old(manager.userid), manager.userid,
                    old(manager.history), manager.history)
    {
      hide EngageSingleSession.Valid, Accounts, Dropped, About;
      EngagedIsInSession(w);
      if userid in trackedUsers {
        var lost := trackedUsers[userid];
        ghost var before := trackedUsers;
        trackedUsers := Remaining(trackedUsers, userid);
        ValuesAfterRemoval(before, userid);
        manager.OnLostUser(lost, before.Values, w);
        LogGrows(log, Lost(userid), old(trackedUsers.Keys), trackedUsers.Keys);
        OneGoes(old(trackedUsers.Keys), userid, log);
        log := log + [Lost(userid)];
      } else {
        assert Remaining(trackedUsers, userid) == trackedUsers;
        NobodyMoves(trackedUsers.Keys, log);
      }
    }

    method ProcessNewHand(handid: nat, userid: int, ghost w: World)
      requires Consistent(w)
      modifies this`trackedUsers, this`trackedHands, this`lastFakeUserId, this`log
      ensures Consistent(w)
      ensures Tracked() == AfterNewHand(old(Tracked()), handid, userid, allowHandsForUntrackedUsers)
      ensures userid > 0 ==> trackedHands == old(trackedHands)[handid := userid] && lastFakeUserId == old(lastFakeUserId)
      ensures userid <= 0 && allowHandsForUntrackedUsers ==>
                trackedHands == old(trackedHands)[handid := old(lastFakeUserId)] && lastFakeUserId == old(lastFakeUserId) + 1
      ensures userid <= 0 && !allowHandsForUntrackedUsers ==>
                trackedHands == old(trackedHands) && lastFakeUserId == old(lastFakeUserId) && trackedUsers == old(trackedUsers)
      ensures Came(old(trackedUsers.Keys), trackedUsers.Keys, old(log), log)
      ensures forall id | id in old(trackedUsers) :: id in trackedUsers && trackedUsers[id] == old(trackedUsers)[id]
      ensures forall id | id in trackedUsers && id !in old(trackedUsers) ::
                && fresh(trackedUsers[id]) && fresh(trackedUsers[id].controls)
                && Blank(trackedUsers[id])
    {
      hide EngageSingleSession.Valid, Accounts, InStep, Came, About;
      NobodyMoves(trackedUsers.Keys, log);
      var owner := userid;
      if userid <= 0 {
        if !allowHandsForUntrackedUsers { return; }
        owner := lastFakeUserId;
        lastFakeUserId := lastFakeUserId + 1;
      }
      if owner !in trackedUsers {
        ProcessNewUser(owner, w);
      }
      trackedHands := trackedHands[handid := owner];
    }

    method ProcessLostHand(handid: nat, ghost w: World)
      requires Consistent(w) && handid in trackedHands
      modifies this`trackedUsers, this`trackedHands, this`log, manager`userid, manager`history
      ensures Consistent(w)
      ensures trackedHands == old(trackedHands) - {handid}
      ensures Dropped(old(trackedUsers.Keys), trackedUsers.Keys, old(log), log)
      ensures var lost := old(trackedHands)[handid];
        && trackedUsers == (if lost in rawUsers then old(trackedUsers) else Remaining(old(trackedUsers), lost))
        && Stays(old(trackedUsers), trackedUsers, old(manager.userid), manager.userid,
                    old(manager.history), manager.history)
    {
      hide EngageSingleSession.Valid, Accounts, InStep, Dropped, About;
      NobodyMoves(trackedUsers.Keys, log);
      var userid := trackedHands[handid];
      trackedHands := trackedHands - {handid};
      if userid !in rawUsers {
        ProcessLostUser(userid, w);
      }
    }

    method UpdateUsers(users: seq<nat>, ghost w: World)
      requires Consistent(w) && 0 !in users
      modifies this`rawUsers, this`trackedUsers, this`log, manager`userid, manager`history
      ensures Consistent(w) && rawUsers == users
      ensures Tracked() == old(Tracked()).(users := UsersAfter(old(trackedUsers.Keys), old(rawUsers), users))
      ensures Lasting(old(trackedUsers), trackedUsers) == StillTracked(old(trackedUsers.Keys), old(rawUsers), users)
      ensures Exchanged(old(trackedUsers.Keys), StillTracked(old(trackedUsers.Keys), old(rawUsers), users),
                        trackedUsers.Keys, old(log), log)
      ensures Stays(old(trackedUsers), trackedUsers, old(manager.userid), manager.userid,
                    old(manager.history), manager.history)
      ensures forall id | id in trackedUsers && id !in Lasting(old(trackedUsers), trackedUsers) ::
                && fresh(trackedUsers[id]) && fresh(trackedUsers[id].controls)
                && Blank(trackedUsers[id])
    {
      hide EngageSingleSession.Valid, Accounts, InStep, Dropped, Came, About;
      LoseUsers(users, w);
      ghost var kept, l := trackedUsers, log;
      assert kept.Keys == StillTracked(old(trackedUsers.Keys), old(rawUsers), users);
      AddUsers(users, w);
      assert trackedUsers.Keys == kept.Keys + Ids(users);
      rawUsers := users;
    }

    method AddUsers(users: seq<nat>, ghost w: World)
      requires Consistent(w) && 0 !in users
      modifies this`trackedUsers, this`log
      ensures Consistent(w)
      ensures trackedUsers.Keys == old(trackedUsers.Keys) + Ids(users)
      ensures Came(old(trackedUsers.Keys), trackedUsers.Keys, old(log), log)
      ensures forall id | id in old(trackedUsers) :: trackedUsers[id] == old(trackedUsers)[id]
      ensures forall id | id in trackedUsers && id !in old(trackedUsers) ::
                && fresh(trackedUsers[id]) && fresh(trackedUsers[id].controls)
                && Blank(trackedUsers[id])
    {
      hide Consistent, Blank, Came, About;
      NobodyMoves(trackedUsers.Keys, log);
      var i := 0;
      while i < |users|
        invariant 0 <= i <= |users| && Consistent(w)
        invariant trackedUsers.Keys == old(trackedUsers.Keys) + Ids(users[..i])
        invariant Came(old(trackedUsers.Keys), trackedUsers.Keys, old(log), log)
        invariant forall id | id in old(trackedUsers) :: trackedUsers[id] == old(trackedUsers)[id]
        invariant forall id | id in trackedUsers && id !in old(trackedUsers) ::
                    && fresh(trackedUsers[id]) && fresh(trackedUsers[id].controls)
                    && Blank(trackedUsers[id])
      {
        if users[i] !in trackedUsers {
          ghost var keys, l := trackedUsers.Keys, log;
          ProcessNewUser(users[i], w);
          CameOn(old(trackedUsers.Keys), keys, trackedUsers.Keys, old(log), l, log);
        }
        i := i + 1;
      }
      assert users[..i] == users;
    }

    /** Gets rid of the users that were reported in the last frame and are not in this one. */
    method LoseUsers(users: seq<nat>, ghost w: World)
      requires Consistent(w)
      modifies this`trackedUsers, this`log, manager`userid, manager`history
      ensures Consistent(w)
      ensures trackedUsers == map id | id in old(trackedUsers) && (id in users || id !in rawUsers) :: old(trackedUsers)[id]
      ensures Dropped(old(trackedUsers.Keys), trackedUsers.Keys, old(log), log)
      ensures Stays(old(trackedUsers), trackedUsers, old(manager.userid), manager.userid,
                    old(manager.history), manager.history)
    {
      hide EngageSingleSession.Valid, Accounts, InStep, Dropped, About;
      NobodyMoves(trackedUsers.Keys, log);
      var rest := trackedUsers.Keys;
      while rest != {}
        invariant Consistent(w) && rest <= trackedUsers.Keys
        invariant trackedUsers ==
          map id | id in old(trackedUsers) && (id in rest || id in users || id !in rawUsers) :: old(trackedUsers)[id]
        invariant Dropped(old(trackedUsers.Keys), trackedUsers.Keys, old(log), log)
        invariant Stays(old(trackedUsers), trackedUsers, old(manager.userid), manager.userid,
                    old(manager.history), manager.history)
      {
        var userid :| userid in rest;
        rest := rest - {userid};
        if userid !in users && userid in rawUsers {
          ghost var keys, l := trackedUsers.Keys, log;
          ProcessLostUser(userid, w);
          DroppedOn(old(trackedUsers.Keys), keys, trackedUsers.Keys, old(log), l, log);
        }
      }
    }

    /** Gets rid of the hands that are no longer reported. */
    method LoseHands(hands: seq<Hand>, ghost w: World)
      requires Consistent(w)
      modifies this`trackedUsers, this`trackedHands, this`log, manager`userid, manager`history
      ensures Consistent(w) && trackedHands.Keys <= HandIds(hands)
      ensures Tracked() == AfterLostHands(old(Tracked()), rawUsers, HandIds(hands))
      ensures forall id | id in trackedUsers :: id in old(trackedUsers) && trackedUsers[id] == old(trackedUsers)[id]
      ensures Dropped(old(trackedUsers.Keys), trackedUsers.Keys, old(log), log)
      ensures Stays(old(trackedUsers), trackedUsers, old(manager.userid), manager.userid,
                    old(manager.history), manager.history)
    {
      hide EngageSingleSession.Valid, Accounts, InStep, Dropped, About, HandIds, AfterLostHands;
      NobodyMoves(trackedUsers.Keys, log);
      var rest := trackedHands.Keys;
      NoHandsLost(Tracked(), rawUsers, HandIds(hands), rest);
      while rest != {}
        invariant Consistent(w) && rest <= trackedHands.Keys && rest <= old(trackedHands.Keys)
        invariant Tracked() == AfterLostHands(old(Tracked()), rawUsers, HandIds(hands) + rest)
        invariant forall id | id in trackedUsers :: id in old(trackedUsers) && trackedUsers[id] == old(trackedUsers)[id]
        invariant Dropped(old(trackedUsers.Keys), trackedUsers.Keys, old(log), log)
        invariant Stays(old(trackedUsers), trackedUsers, old(manager.userid), manager.userid,
                    old(manager.history), manager.history)
      {
        var handid :| handid in rest;
        ghost var keys, l := trackedUsers.Keys, log;
        ghost var book := Tracked();
        LoseHand(handid, hands, w);
        OneHandLost(old(Tracked()), rawUsers, HandIds(hands), rest, handid, book, Tracked());
        rest := rest - {handid};
        DroppedOn(old(trackedUsers.Keys), keys, trackedUsers.Keys, old(log), l, log);
      }
      assert HandIds(hands) + rest == HandIds(hands);
      OnlyReported(old(Tracked()), rawUsers, HandIds(hands));
    }

    method LoseHand(handid: nat, hands: seq<Hand>, ghost w: World)
      requires Consistent(w) && handid in trackedHands
      modifies this`trackedUsers, this`trackedHands, this`log, manager`userid, manager`history
      ensures Consistent(w) && lastFakeUserId == old(lastFakeUserId)
      ensures var lost := handid !in HandIds(hands);
        && trackedHands == (if lost then old(trackedHands) - {handid} else old(trackedHands))
        && trackedUsers == (if lost && old(trackedHands)[handid] !in rawUsers
                            then Remaining(old(trackedUsers), old(trackedHands)[handid]) else old(trackedUsers))
      ensures Dropped(old(trackedUsers.Keys), trackedUsers.Keys, old(log), log)
      ensures Stays(old(trackedUsers), trackedUsers, old(manager.userid), manager.userid,
                    old(manager.history), manager.history)
    {
      hide EngageSingleSession.Valid, Accounts, InStep, Dropped, About;
      NobodyMoves(trackedUsers.Keys, log);
      ghost var all := AppsOfUsers(trackedUsers.Values);
      var currhand := GetItemById(hands, handid);
      if currhand == None {
        ProcessLostHand(handid, w);
      }
    }

    method AddHands(hands: seq<Hand>, ghost w: World)
      requires Consistent(w)
      modifies this`trackedUsers, this`trackedHands, this`lastFakeUserId, this`log
      ensures Consistent(w)
      ensures Tracked() == AfterHands(old(Tracked()), hands, allowHandsForUntrackedUsers)
      ensures Came(old(trackedUsers.Keys), trackedUsers.Keys, old(log), log)
      ensures forall id | id in old(trackedUsers) :: id in trackedUsers && trackedUsers[id] == old(trackedUsers)[id]
      ensures forall id | id in trackedUsers && id !in old(trackedUsers) ::
                && fresh(trackedUsers[id]) && fresh(trackedUsers[id].controls)
                && Blank(trackedUsers[id])
    {
      hide Consistent, Blank, Came, About, AfterNewHand;
      NobodyMoves(trackedUsers.Keys, log);
      var i := 0;
      while i < |hands|
        invariant 0 <= i <= |hands| && Consistent(w)
        invariant Tracked() == AfterHands(old(Tracked()), hands[..i], allowHandsForUntrackedUsers)
        invariant Came(old(trackedUsers.Keys), trackedUsers.Keys, old(log), log)
        invariant forall id | id in old(trackedUsers) :: id in trackedUsers && trackedUsers[id] == old(trackedUsers)[id]
        invariant forall id | id in trackedUsers && id !in old(trackedUsers) ::
                    && fresh(trackedUsers[id]) && fresh(trackedUsers[id].controls)
                    && Blank(trackedUsers[id])
      {
        var hand := hands[i];
        assert hands[..i + 1][..i] == hands[..i];
        if hand.id !in trackedHands {
          ghost var keys, l := trackedUsers.Keys, log;
          ProcessNewHand(hand.id, hand.userid, w);
          CameOn(old(trackedUsers.Keys), keys, trackedUsers.Keys, old(log), l, log);
        }
        i := i + 1;
      }
      assert hands[..i] == hands;
    }

    /** The reported hands that belong to a user. */
    method HandsOf(userid: nat, hands: seq<Hand>) returns (currhands: seq<Hand>)
      requires trackedHands.Keys <= HandIds(hands)
      ensures IsHandList(currhands, OwnedBy(trackedHands, userid), hands)
    {
      currhands := [];
      var rest := trackedHands.Keys;
      while rest != {}
        invariant rest <= trackedHands.Keys
        invariant IsHandList(currhands, OwnedBy(trackedHands, userid) - rest, hands)
      {
        var handid :| handid in rest;
        rest := rest - {handid};
        if trackedHands[handid] == userid {
          var hand := GetItemById(hands, handid);
          HandListGrows(currhands, OwnedBy(trackedHands, userid) - rest - {handid}, hands, hand.value);
          currhands := currhands + [hand.value];
        }
        assert OwnedBy(trackedHands, userid) - rest ==
          OwnedBy(trackedHands, userid) - rest - {handid} +
          if trackedHands[handid] == userid then {handid} else {};
      }
    }

    method AssignHands(hands: seq<Hand>)
      requires trackedHands.Keys <= HandIds(hands) && KeyedById(trackedUsers)
      modifies trackedUsers.Values`hands
      ensures HandsAssigned(hands)
    {
      var rest := trackedUsers.Keys;
      while rest != {}
        invariant rest <= trackedUsers.Keys
        invariant forall id | id in trackedUsers && id !in rest ::
                    IsHandList(trackedUsers[id].hands, OwnedBy(trackedHands, id), hands)
      {
        var userid :| userid in rest;
        rest := rest - {userid};
        var currhands := HandsOf(userid, hands);
        trackedUsers[userid].hands := currhands;
      }
    }

    /** Lets go of the hands no longer reported and takes in the new ones. */
    method RemapHands(hands: seq<Hand>, ghost w: World)
      requires Consistent(w)
      modifies this`trackedUsers, this`trackedHands, this`lastFakeUserId, this`log, manager`userid, manager`history
      ensures Consistent(w) && trackedHands.Keys <= HandIds(hands)
      ensures Tracked() == AfterHands(AfterLostHands(old(Tracked()), rawUsers, HandIds(hands)),
                                      hands, allowHandsForUntrackedUsers)
      ensures var left := AfterLostHands(old(Tracked()), rawUsers, HandIds(hands)).users;
        && Lasting(old(trackedUsers), trackedUsers) == left
        && Exchanged(old(trackedUsers.Keys), left, trackedUsers.Keys, old(log), log)
      ensures Stays(old(trackedUsers), trackedUsers, old(manager.userid), manager.userid,
                    old(manager.history), manager.history)
      ensures forall id | id in trackedUsers && id !in Lasting(old(trackedUsers), trackedUsers) ::
                && fresh(trackedUsers[id]) && fresh(trackedUsers[id].controls)
                && Blank(trackedUsers[id])
    {
      hide EngageSingleSession.Valid, Accounts, InStep, AfterHands, AfterLostHands, Dropped, Came, About;
      LoseHands(hands, w);
      ghost var l := log;
      NewHandsOnlyAdd(Tracked(), hands, allowHandsForUntrackedUsers);
      AddHands(hands, w);
    }

    method UpdateHands(hands: seq<Hand>, ghost w: World)
      requires Consistent(w)
      modifies this`rawHands, this`trackedUsers, this`trackedHands, this`lastFakeUserId, this`log
      modifies manager`userid, manager`history, trackedUsers.Values`hands
      ensures Consistent(w) && rawHands == hands && HandsAssigned(hands)
      ensures Tracked() == AfterHands(AfterLostHands(old(Tracked()), rawUsers, HandIds(hands)),
                                      hands, allowHandsForUntrackedUsers)
      ensures var left := AfterLostHands(old(Tracked()), rawUsers, HandIds(hands)).users;
        && Lasting(old(trackedUsers), trackedUsers) == left
        && Exchanged(old(trackedUsers.Keys), left, trackedUsers.Keys, old(log), log)
      ensures Stays(old(trackedUsers), trackedUsers, old(manager.userid), manager.userid,
                    old(manager.history), manager.history)
      ensures forall id | id in trackedUsers && id !in Lasting(old(trackedUsers), trackedUsers) ::
                && fresh(trackedUsers[id]) && fresh(trackedUsers[id].controls)
                && Blank(trackedUsers[id])
    {
      hide EngageSingleSession.Valid, Accounts, InStep, AfterHands, AfterLostHands, Dropped, Came, About;
      RemapHands(hands, w);
      ghost var all := AppsOfUsers(trackedUsers.Values);
      rawHands := hands;
      AssignHands(hands);
    }

    ghost function HandsBy(): map<nat, seq<Hand>>
      reads this`trackedUsers, trackedUsers.Values`hands
    {
      map id | id in trackedUsers :: trackedUsers[id].hands
    }

    ghost function InSession(): set<nat>
      reads this`trackedUsers, trackedUsers.Values`isInHandpointSession
    {
      set id | id in trackedUsers && trackedUsers[id].isInHandpointSession
    }

    /** The application controls of every user. */
    ghost function Owns(): map<nat, set<AppControl>>
      reads this`trackedUsers, (set u | u in trackedUsers.Values :: u.controls)`listeners
    {
      map id | id in trackedUsers :: OwnApps(trackedUsers[id].controls.listeners)
    }

    /** What there is to notice at this moment. */
    ghost function Now(own: set<AppControl>): Notice
      reads this`trackedUsers, trackedUsers.Values`isInHandpointSession
      reads manager`userid, manager`history, own`calls
    {
      Notice(InSession(), manager.userid, manager.history, HeardBy(own))
    }

    /** Lets every tracked user, in ascending order of ids, notice whether it has hands. */
    method NotifyAll(ghost w: World, ghost own: set<AppControl>)
      requires Consistent(w) && OwnWithin(own) && own !! w.apps
      modifies trackedUsers.Values`isInHandpointSession, trackedUsers.Values`engaged
      modifies manager`userid, manager`history, own`calls
      modifies (set u | u in trackedUsers.Values :: u.controls)`listeners
      modifies (set u | u in trackedUsers.Values :: u.controls)`isInHandpointSession
      modifies (set u | u in trackedUsers.Values :: u.controls)`focusPoint
      modifies manager.SharedLists(w)`isInHandpointSession, manager.SharedLists(w)`focusPoint
      modifies manager.SharedApps(w)`calls
      ensures Consistent(w) && HandsBy() == old(HandsBy()) && Owns() == old(Owns())
      ensures RoundDone(HandsBy(), Owns(), old(Now(own)), Now(own))
    {
      hide Consistent, OwnWithin, InRound, TurnTaken, RoundDone, OwnApps;
      hide EngageSingleSession.SharedApps, EngageSingleSession.SharedLists;
      var rest := trackedUsers.Keys;
      ghost var hands, owns, before := HandsBy(), Owns(), Now(own);
      RoundBegins(w, own);
      while rest != {}
        invariant Consistent(w) && OwnWithin(own) && rest <= trackedUsers.Keys
        invariant HandsBy() == hands && Owns() == owns
        invariant InRound(hands, owns, before, rest, Now(own))
      {
        rest := NotifyNext(rest, w, own, hands, owns, before);
      }
      RoundEnds(hands, owns, before, Now(own));
    }

    /** The turn of the user with the smallest id of those in rest. */
    method NotifyNext(rest: set<nat>, ghost w: World, ghost own: set<AppControl>, ghost hands: HandLists,
                      ghost owns: map<nat, set<AppControl>>, ghost before: Notice)
      returns (later: set<nat>)
      requires Consistent(w) && OwnWithin(own) && own !! w.apps && rest != {} && rest <= trackedUsers.Keys
      requires HandsBy() == hands && Owns() == owns && InRound(hands, owns, before, rest, Now(own))
      modifies trackedUsers.Values`isInHandpointSession, trackedUsers.Values`engaged
      modifies manager`userid, manager`history, own`calls
      modifies (set u | u in trackedUsers.Values :: u.controls)`listeners
      modifies (set u | u in trackedUsers.Values :: u.controls)`isInHandpointSession
      modifies (set u | u in trackedUsers.Values :: u.controls)`focusPoint
      modifies manager.SharedLists(w)`isInHandpointSession, manager.SharedLists(w)`focusPoint
      modifies manager.SharedApps(w)`calls
      ensures Consistent(w) && OwnWithin(own) && later < rest
      ensures HandsBy() == hands && Owns() == owns && InRound(hands, owns, before, later, Now(own))
    {
      hide Consistent, OwnWithin, InRound, TurnTaken, OwnApps;
      hide EngageSingleSession.SharedApps, EngageSingleSession.SharedLists;
      ghost var least := SomeLeast(rest);
      var id :| id in rest && forall j | j in rest :: id <= j;
      ghost var was := Now(own);
      NotifyOne(id, trackedUsers[id], w, own);
      TurnGoesOn(hands, owns, before, rest, id, was, Now(own));
      later := rest - {id};
    }

    lemma RoundBegins(w: World, own: set<AppControl>)
      requires Consistent(w) && OwnWithin(own)
      ensures InRound(HandsBy(), Owns(), Now(own), trackedUsers.Keys, Now(own))
    {
      hide Consistent, OwnApps;
      EngagedIsInSession(w);
      OwnsApart(w);
      BeforeRound(HandsBy(), Owns(), Now(own));
    }

    method NotifyOne(id: nat, u: TrackedUser, ghost w: World, ghost own: set<AppControl>)
      requires Consistent(w) && OwnWithin(own) && own !! w.apps && id in trackedUsers && u == trackedUsers[id]
      modifies u`isInHandpointSession, u`engaged, manager`userid, manager`history, own`calls
      modifies u.controls`listeners, u.controls`isInHandpointSession, u.controls`focusPoint
      modifies manager.SharedLists(w)`isInHandpointSession, manager.SharedLists(w)`focusPoint
      modifies manager.SharedApps(w)`calls
      ensures Consistent(w) && OwnWithin(own) && HandsBy() == old(HandsBy()) && Owns() == old(Owns())
      ensures TurnTaken(HandsBy(), Owns(), id, old(Now(own)), Now(own))
    {
      hide Consistent, OwnWithin, OwnApps, SessionCalls, TurnTaken;
      hide EngageSingleSession.SharedApps, EngageSingleSession.SharedLists;
      ghost var was, owned := Now(own), Owns();
      NotifyUser(id, u, w, own);
      OwnsOfOthersStay(owned);
      TurnOf(HandsBy(), Owns(), id, u.hands, u.isInHandpointSession, own, was, Now(own));
    }

    method NotifyUser(id: nat, u: TrackedUser, ghost w: World, ghost own: set<AppControl>)
      requires Consistent(w) && OwnWithin(own) && own !! w.apps && id in trackedUsers && u == trackedUsers[id]
      modifies u`isInHandpointSession, u`engaged, manager`userid, manager`history, own`calls
      modifies u.controls`listeners, u.controls`isInHandpointSession, u.controls`focusPoint
      modifies manager.SharedLists(w)`isInHandpointSession, manager.SharedLists(w)`focusPoint
      modifies manager.SharedApps(w)`calls
      ensures Consistent(w) && OwnWithin(own) && HandsBy() == old(HandsBy())
      ensures InSession() == if u.hands != [] then old(InSession()) + {id} else old(InSession()) - {id}
      ensures u.isInHandpointSession <==> u.hands != []
      ensures manager.history == old(manager.history) +
                Happenings(old(id in InSession()), u.hands, id, old(manager.userid))
      ensures manager.userid == if old(id !in InSession()) && u.hands != [] && old(manager.userid) == 0 then id
                                else if old(id in InSession()) && u.hands == [] && old(manager.userid) == id then 0
                                else old(manager.userid)
      ensures forall j | j in trackedUsers :: OwnApps(trackedUsers[j].controls.listeners) == old(Owns())[j]
      ensures forall a | a in own :: a.calls == if a in old(Owns())[id]
                                                then old(a.calls) + SessionCalls(old(id in InSession()), u.hands)
                                                else old(a.calls)
    {
      hide EngageSingleSession.Valid, Accounts, InStep, OwnApps, SessionCalls, Happenings, AppsOfUsers, HandsAssigned;
      hide EngageSingleSession.SharedApps, EngageSingleSession.SharedLists;
      UsersApart(trackedUsers.Values, manager, w);
      u.NotifyListeners(manager, trackedUsers.Values, w);
    }

    lemma OwnsOfOthersStay(owned: map<nat, set<AppControl>>)
      requires owned.Keys == trackedUsers.Keys
      requires forall id | id in trackedUsers :: OwnApps(trackedUsers[id].controls.listeners) == owned[id]
      ensures Owns() == owned
    {
    }

    /** The part of a frame before the users notice: who is tracked, and with which hands. */
    method UpdateTracking(users: seq<nat>, hands: seq<Hand>, ghost w: World, ghost own: set<AppControl>)
      requires Consistent(w) && 0 !in users && OwnWithin(own)
      modifies this`rawUsers, this`rawHands, this`trackedUsers, this`trackedHands, this`lastFakeUserId, this`log
      modifies manager`userid, manager`history, trackedUsers.Values`hands
      ensures Consistent(w) && rawUsers == users && rawHands == hands && HandsAssigned(hands)
      ensures Tracked() == NextBook(old(Tracked()), old(rawUsers), Frame(users, hands, allowHandsForUntrackedUsers))
      ensures var b, raw, f := old(Tracked()), old(rawUsers), Frame(users, hands, allowHandsForUntrackedUsers);
        Lasting(old(trackedUsers), trackedUsers) == Staying(b, raw, f) && Announces(b, raw, f, old(log), log)
      ensures OwnWithin(own)
      ensures var lasting := Lasting(old(trackedUsers), trackedUsers);
        LeftSoFar(lasting, old(Now(own)), Now(own)) && OwnsLast(lasting, old(Owns()), Owns())
      ensures Owns().Keys == HandsBy().Keys
      ensures forall id | id in trackedUsers && id !in Lasting(old(trackedUsers), trackedUsers) ::
                && fresh(trackedUsers[id]) && fresh(trackedUsers[id].controls)
    {
      hide Consistent, HandsAssigned, NextBook, Stays, LeftSoFar, OwnsLast, OwnApps;
      ghost var before, notice, owned := trackedUsers, Now(own), Owns();
      Retrack(users, hands, w);
      ghost var lasting := Lasting(before, trackedUsers);
      forall id | id in trackedUsers
        ensures id in InSession() <==> id in notice.sessions && id in lasting
        ensures if id in lasting then id in owned && Owns()[id] == owned[id] else Owns()[id] == {}
      {
        assert id in lasting || Blank(trackedUsers[id]);
      }
      WithinOwned(lasting, owned, own);
      LeftFromStays(before, trackedUsers, notice, Now(own));
    }

    lemma WithinOwned(lasting: set<nat>, owned: map<nat, set<AppControl>>, own: set<AppControl>)
      requires forall id | id in owned :: owned[id] <= own
      requires forall id | id in trackedUsers ::
                 if id in lasting then id in owned && Owns()[id] == owned[id] else Owns()[id] == {}
      ensures OwnWithin(own) && OwnsLast(lasting, owned, Owns())
    {
      forall u | u in trackedUsers.Values ensures OwnApps(u.controls.listeners) <= own {
        var id :| id in trackedUsers && trackedUsers[id] == u;
        assert Owns()[id] <= own;
      }
    }

    /** Users and hands are updated; nobody notices yet. */
    method Retrack(users: seq<nat>, hands: seq<Hand>, ghost w: World)
      requires Consistent(w) && 0 !in users
      modifies this`rawUsers, this`rawHands, this`trackedUsers, this`trackedHands, this`lastFakeUserId, this`log
      modifies manager`userid, manager`history, trackedUsers.Values`hands
      ensures Consistent(w) && rawUsers == users && rawHands == hands && HandsAssigned(hands)
      ensures Tracked() == NextBook(old(Tracked()), old(rawUsers), Frame(users, hands, allowHandsForUntrackedUsers))
      ensures var b, raw, f := old(Tracked()), old(rawUsers), Frame(users, hands, allowHandsForUntrackedUsers);
        Lasting(old(trackedUsers), trackedUsers) == Staying(b, raw, f) && Announces(b, raw, f, old(log), log)
      ensures Stays(old(trackedUsers), trackedUsers, old(manager.userid), manager.userid,
                    old(manager.history), manager.history)
      ensures forall id | id in trackedUsers && id !in Lasting(old(trackedUsers), trackedUsers) ::
                && fresh(trackedUsers[id]) && fresh(trackedUsers[id].controls)
                && Blank(trackedUsers[id])
    {
      hide Consistent, HandsAssigned, AfterHands, AfterLostHands, NextBook, BeforeNewHands, Stays, OwnApps, UsersAfter, HandIds;
      hide StillTracked, Staying, Exchanged, Announces, About;
      ghost var before, was, h := trackedUsers, manager.userid, manager.history;
      ghost var book, raw, allow := Tracked(), rawUsers, allowHandsForUntrackedUsers;
      ghost var f, l := Frame(users, hands, allow), log;
      NextBookUnfolds(book, raw, f);
      StayingIsBeforeNewHands(book, raw, f);
      UpdateUsers(users, w);
      ghost var middle := Tracked();
      assert middle == book.(users := UsersAfter(book.users, raw, users));
      ghost var between, mid, hs, ls := trackedUsers, manager.userid, manager.history, log;
      ghost var newcomers := between.Keys - Lasting(before, between);
      assert forall id | id in newcomers ::
          fresh(between[id]) && fresh(between[id].controls) && Blank(between[id]);
      UpdateHands(hands, w);
      assert Tracked() == AfterHands(AfterLostHands(middle, users, HandIds(hands)), hands, allow);
      forall id | id in trackedUsers && id !in Lasting(before, trackedUsers)
        ensures fresh(trackedUsers[id]) && fresh(trackedUsers[id].controls) && Blank(trackedUsers[id])
      {
        if id in Lasting(between, trackedUsers) { assert id in newcomers; }
      }
      StaysOn(before, between, trackedUsers, was, mid, manager.userid, h, hs, manager.history);
      FrameAnnounces(book, raw, f, l, ls, log);
    }

    /** The three steps of a frame. */
    method RunFrame(users: seq<nat>, hands: seq<Hand>, ghost w: World, ghost own: set<AppControl>)
      requires Consistent(w) && 0 !in users && OwnWithin(own) && own !! w.apps
      modifies this`rawUsers, this`rawHands, this`trackedUsers, this`trackedHands, this`lastFakeUserId, this`log
      modifies manager`userid, manager`history, own`calls
      modifies trackedUsers.Values`hands, trackedUsers.Values`isInHandpointSession, trackedUsers.Values`engaged
      modifies (set u | u in trackedUsers.Values :: u.controls)`listeners
      modifies (set u | u in trackedUsers.Values :: u.controls)`isInHandpointSession
      modifies (set u | u in trackedUsers.Values :: u.controls)`focusPoint
      modifies manager.SharedLists(w)`isInHandpointSession, manager.SharedLists(w)`focusPoint
      modifies manager.SharedApps(w)`calls
      ensures Consistent(w) && rawUsers == users && rawHands == hands && HandsAssigned(hands)
      ensures Tracked() == NextBook(old(Tracked()), old(rawUsers), Frame(users, hands, allowHandsForUntrackedUsers))
      ensures var b, raw, f := old(Tracked()), old(rawUsers), Frame(users, hands, allowHandsForUntrackedUsers);
        Lasting(old(trackedUsers), trackedUsers) == Staying(b, raw, f) && Announces(b, raw, f, old(log), log)
      ensures FrameDone(Lasting(old(trackedUsers), trackedUsers), HandsBy(), old(Owns()), Owns(), old(Now(own)), Now(own))
      ensures old(manager.history) <= manager.history
      ensures forall id | id in trackedUsers && id !in Lasting(old(trackedUsers), trackedUsers) ::
                && fresh(trackedUsers[id]) && fresh(trackedUsers[id].controls)
    {
      hide Consistent, NextBook, RoundDone, FrameDone, LeftSoFar, OwnsLast, OwnApps, Lasting, OwnWithin, IsHandList;
      hide EngageSingleSession.SharedApps, EngageSingleSession.SharedLists;
      ghost var before, owned, was := trackedUsers, Owns(), Now(own);
      UpdateTracking(users, hands, w, own);
      NewUsersAreFresh(before);
      ghost var lasting, lists, owns, mid := Lasting(before, trackedUsers), HandsBy(), Owns(), Now(own);
      NotifyAll(w, own);
      FrameFromRound(lasting, lists, owned, owns, was, mid, Now(own));
      FrameAddsEvents(lasting, lists, owned, owns, was, Now(own));
    }

    lemma NewUsersAreFresh(before: map<nat, TrackedUser>)
      ensures forall id | id in Lasting(before, trackedUsers) :: trackedUsers[id] in before.Values
    {
    }

    /** The same, with what the shared controls hear. */
    method RunAndHear(users: seq<nat>, hands: seq<Hand>, ghost w: World, ghost own: set<AppControl>)
      requires Consistent(w) && 0 !in users && OwnWithin(own) && own !! w.apps
      modifies this`rawUsers, this`rawHands, this`trackedUsers, this`trackedHands, this`lastFakeUserId, this`log
      modifies manager`userid, manager`history, own`calls
      modifies trackedUsers.Values`hands, trackedUsers.Values`isInHandpointSession, trackedUsers.Values`engaged
      modifies (set u | u in trackedUsers.Values :: u.controls)`listeners
      modifies (set u | u in trackedUsers.Values :: u.controls)`isInHandpointSession
      modifies (set u | u in trackedUsers.Values :: u.controls)`focusPoint
      modifies manager.SharedLists(w)`isInHandpointSession, manager.SharedLists(w)`focusPoint
      modifies manager.SharedApps(w)`calls
      ensures Consistent(w) && rawUsers == users && rawHands == hands && HandsAssigned(hands)
      ensures Tracked() == NextBook(old(Tracked()), old(rawUsers), Frame(users, hands, allowHandsForUntrackedUsers))
      ensures var b, raw, f := old(Tracked()), old(rawUsers), Frame(users, hands, allowHandsForUntrackedUsers);
        Lasting(old(trackedUsers), trackedUsers) == Staying(b, raw, f) && Announces(b, raw, f, old(log), log)
      ensures FrameDone(Lasting(old(trackedUsers), trackedUsers), HandsBy(), old(Owns()), Owns(), old(Now(own)), Now(own))
      ensures old(manager.history) <= manager.history
      ensures forall a | a in manager.SharedApps(w) ::
                a.calls == old(a.calls) + SharedCalls(manager.history[|old(manager.history)|..], 0)
      ensures forall id | id in trackedUsers && id !in Lasting(old(trackedUsers), trackedUsers) ::
                && fresh(trackedUsers[id]) && fresh(trackedUsers[id].controls)
    {
      hide Consistent, NextBook, FrameDone, OwnApps, Lasting, OwnWithin, IsHandList, AllFollow, SharedCalls;
      hide EngageSingleSession.SharedApps, EngageSingleSession.SharedLists;
      ghost var h, shared := manager.history, HeardBy(w.apps);
      SharedFollow(w);
      RunFrame(users, hands, w, own);
      SharedFollow(w);
      HeardOfFrame(manager.SharedApps(w), manager.joined, shared, HeardBy(w.apps), h, manager.history);
    }

    /** One frame. Who is engaged afterwards, what happened to engagement, and what the shared
        controls and the users' own controls have heard, are exactly as stated. */
    method DoUpdate(users: seq<nat>, hands: seq<Hand>, ghost w: World, ghost own: set<AppControl>)
      requires Valid(w) && 0 !in users && own == AppsOfUsers(trackedUsers.Values)
      modifies this, manager`userid, manager`history, own`calls
      modifies trackedUsers.Values`hands, trackedUsers.Values`isInHandpointSession, trackedUsers.Values`engaged
      modifies (set u | u in trackedUsers.Values :: u.controls)`listeners
      modifies (set u | u in trackedUsers.Values :: u.controls)`isInHandpointSession
      modifies (set u | u in trackedUsers.Values :: u.controls)`focusPoint
      modifies manager.SharedLists(w)`isInHandpointSession, manager.SharedLists(w)`focusPoint
      modifies manager.SharedApps(w)`calls
      ensures Valid(w) && rawHands == hands && allowHandsForUntrackedUsers == old(allowHandsForUntrackedUsers)
      ensures frames == old(frames) + [Frame(users, hands, allowHandsForUntrackedUsers)]
      ensures HandsAssigned(hands)
      ensures var b, raw, f := old(Tracked()), old(rawUsers), Frame(users, hands, allowHandsForUntrackedUsers);
        && Lasting(old(trackedUsers), trackedUsers) == Staying(b, raw, f)
        && FrameDone(Staying(b, raw, f), HandsBy(), old(Owns()), Owns(), old(Now(own)), Now(own))
        && Announces(b, raw, f, old(log), log)
      ensures old(manager.history) <= manager.history
      ensures forall a | a in manager.SharedApps(w) ::
                a.calls == old(a.calls) + SharedCalls(manager.history[|old(manager.history)|..], 0)
      ensures forall id | id in trackedUsers && id !in Lasting(old(trackedUsers), trackedUsers) ::
                && fresh(trackedUsers[id]) && fresh(trackedUsers[id].controls)
    {
      hide Consistent, NextBook, FrameDone, Run, AppsOfUsers, OwnApps, OwnWithin, Lasting, IsHandList, SharedCalls;
      hide Staying, Holding, EngagedAfter, Engagements, Tells, Announces, CameBetween, HandsAssigned;
      hide EngageSingleSession.SharedApps, EngageSingleSession.SharedLists;
      OwnApart(w);
      ghost var f := Frame(users, hands, allowHandsForUntrackedUsers);
      RunExtends(frames, f);
      ghost var owned, was, before, l := Owns(), Now(own), frames, log;
      frames := frames + [f];
      assert Owns() == owned && Now(own) == was;
      RunAndHear(users, hands, w, own);
      HoldersHold(hands);
      FrameFollows(before, f, HandsBy(), owned, Owns(), was, Now(own));
      TellsOneMore(l, log, before, f);
      CameBefore(manager.joined, manager.SharedApps(w), before, f);
    }

    // ----- controls that come and go between frames ----------------------------------------------

    /** The application adds a control to the list of a tracked user. */
    method AddControl(u: TrackedUser, a: AppControl, ghost w: World)
      requires Valid(w) && u in trackedUsers.Values && a !in w.apps && a !in AppsOfUsers(trackedUsers.Values)
      requires Alternating(a.calls) && !Ongoing(a.calls)
      modifies u.controls`listeners, a`calls
      ensures Valid(w) && u.controls.listeners == old(u.controls.listeners) + [App(a)]
      ensures a.calls == old(a.calls) + if u.controls.isInHandpointSession then [Start(u.controls.focusPoint)] else []
    {
      hide EngageSingleSession.Valid, Accounts, Run;
      manager.AddOwn(u, a, trackedUsers.Values, w);
    }

    /** The application removes a control from the list of a tracked user. Everything stays in
        agreement exactly if the listener taken out is an application control. */
    method RemoveControl(u: TrackedUser, a: AppControl, ghost w: World)
      requires Valid(w) && u in trackedUsers.Values
      modifies u.controls`listeners, OwnApps(u.controls.listeners)`calls
      modifies manager.SharedLists(w)`isInHandpointSession, manager.SharedApps(w)`calls
      ensures u.controls.listeners == AfterRemoval(old(u.controls.listeners), Some(App(a)))
      ensures old(Evicted(u.controls.listeners, Some(App(a)))).Some?
      ensures Valid(w) <==> old(Evicted(u.controls.listeners, Some(App(a)))).value.App?
      ensures old(a in OwnApps(u.controls.listeners)) ==>
                && Valid(w)
                && a.calls == old(a.calls) + if u.controls.isInHandpointSession then [End] else []
    {
      hide EngageSingleSession.Valid, Accounts, Run, OwnApps, AfterRemoval, Evicted;
      hide EngageSingleSession.SharedApps, EngageSingleSession.SharedLists;
      UsersApart(trackedUsers.Values, manager, w);
      manager.RemoveOwn(u, a, trackedUsers.Values, w);
    }

    /** The application adds a control below the shared controls, or elsewhere in their forest. */
    method AddSharedControl(l: ControlList, x: Option<Control>, ghost w: World)
      requires Valid(w) && l in w.c && Addable(w.c, w.rank, w.apps, l, x) && x != Some(Nested(manager.controls))
      modifies l`listeners, manager`joined, w.c.Keys`isInHandpointSession, w.c.Keys`focusPoint, w.apps`calls
      ensures Valid(manager.WorldAfterAdd(w, l, x))
      ensures forall a | a in w.apps ::
                a.calls == old(a.calls) +
                           CallsTo(w.c, w.rank, x, a, l.isInHandpointSession, Start(old(l.focusPoint)))
    {
      hide EngageSingleSession.Valid, EngageSingleSession.SharedApps, Accounts, Run, Addable, Engagements, CameBetween;
      hide Holding, Tells, EngagedAfter;
      UsersApart(trackedUsers.Values, manager, w);
      ghost var below, before := manager.SharedApps(w), manager.joined;
      manager.AddToShared(l, x, trackedUsers.Values, w);
      ghost var v := manager.WorldAfterAdd(w, l, x);
      NewcomersCameNow(before, manager.joined, below, manager.SharedApps(v), frames, |manager.history|);
    }

    method RemoveSharedControl(l: ControlList, x: Option<Control>, ghost w: World) returns (threw: bool)
      requires Valid(w) && l in w.c
      modifies l`listeners, w.c.Keys`isInHandpointSession, w.apps`calls
      ensures Valid(manager.WorldAfterRemove(w, l, x))
      ensures forall a | a in w.apps ::
                a.calls == old(a.calls) + CallsTo(w.c, w.rank, Evicted(w.c[l], x), a, l.isInHandpointSession, End)
      ensures threw <==> x.Some? && w.c[l] == [] && l.isInHandpointSession
    {
      hide EngageSingleSession.Valid, EngageSingleSession.SharedApps, Accounts, Run, Evicted;
      UsersApart(trackedUsers.Values, manager, w);
      threw := manager.RemoveFromShared(l, x, trackedUsers.Values, w);
    }

    /** What a control below the shared ones has heard, in any state that can be reached. It has
        heard starts and ends in turn, if it had when it came after n frames, exactly if no frame
        since then engages a user in or after a frame that loses the engaged one, unless another
        engagement lies between. */
    lemma SharedHears(w: World, a: AppControl, j: Joined) returns (n: nat)
      requires Valid(w) && a in AppsBelow(w.c, w.rank, manager.controls)
      requires a in manager.joined && manager.joined[a] == j
      ensures j.since <= |manager.history| && a.calls == j.base + SharedCalls(manager.history, j.since)
      ensures n <= |frames| && j.since == |Engagements(frames[..n])|
      ensures Alternating(a.calls) <==> Alternating(j.base) && NoneAbrupt(frames, n)
      ensures j.since == 0 ==>
                (Alternating(a.calls) <==>
                  && Alternating(j.base)
                  && forall i, k | 0 <= i <= k < |frames| :: !(LosesEngaged(frames, i) && EngagesIn(frames, k)))
    {
      hide Abrupt, LosesEngaged, EngagesIn, Engagements, Bracketed, NoneAbrupt, Alternating;
      manager.HearsBracketedExactly(w, a);
      SharedAreHeard(w, a);
      n :| 0 <= n <= |frames| && manager.joined[a].since == |Engagements(frames[..n])|;
      BracketedExactly(frames, n);
      PlainBrackets(manager.history, j.since);
      BracketedIffNoLossBefore(frames);
    }

    lemma SharedAreHeard(w: World, a: AppControl)
      requires Valid(w) && a in AppsBelow(w.c, w.rank, manager.controls)
      ensures a in manager.SharedApps(w)
    {
      BelowAgrees(w.c, w.rank, w.apps, manager.controls);
    }

    lemma SharedFollow(w: World)
      requires Consistent(w)
      ensures AllFollow(manager.SharedApps(w), manager.joined, HeardBy(w.apps), manager.history)
    {
    }

    /** The application controls of users lie apart from the shared ones and from each other. */
    lemma OwnApart(w: World)
      requires Consistent(w)
      ensures AppsOfUsers(trackedUsers.Values) !! w.apps && OwnWithin(AppsOfUsers(trackedUsers.Values))
    {
      hide EngageSingleSession.SharedOk, OwnApps;
      forall a | a in AppsOfUsers(trackedUsers.Values) ensures a !in w.apps {
        var u :| u in trackedUsers.Values && a in OwnApps(u.controls.listeners);
        assert UserOk(u, manager.controls, w);
      }
    }

    lemma OwnsApart(w: World)
      requires Consistent(w)
      ensures Disjoint(Owns())
    {
      hide EngageSingleSession.SharedOk, UserOk, OwnApps;
      forall i, j | i in trackedUsers && j in trackedUsers && i != j ensures Owns()[i] !! Owns()[j] {
        assert Apart(trackedUsers[i], trackedUsers[j]);
      }
    }

    lemma EngagedIsInSession(w: World)
      requires Consistent(w)
      ensures manager.userid != 0 ==> manager.userid in InSession()
      ensures 0 !in trackedUsers
    {
      hide EngageSingleSession.SharedOk, Apart;
      forall id | id in trackedUsers ensures id != 0 && (id == manager.userid ==> id in InSession()) {
        assert UserOk(trackedUsers[id], manager.controls, w);
      }
    }

    /** The application controls in the lists of the tracked users. */
    ghost predicate OwnWithin(own: set<AppControl>)
      reads this`trackedUsers, (set u | u in trackedUsers.Values :: u.controls)
    {
      forall u | u in trackedUsers.Values :: OwnApps(u.controls.listeners) <= own
    }

    /** The users that have hands are those that own one. */
    lemma HoldersHold(hands: seq<Hand>)
      requires HandsAssigned(hands)
      ensures HoldingOf(HandsBy()) == Holding(Tracked())
    {
      forall id | id in trackedUsers ensures trackedUsers[id].hands != [] <==> Tracking.Owns(trackedHands, id) {
        assert HandIds(trackedUsers[id].hands) == OwnedBy(trackedHands, id);
        if trackedUsers[id].hands != [] {
          assert trackedUsers[id].hands[0].id in OwnedBy(trackedHands, id);
        }
        if h :| h in trackedHands && trackedHands[h] == id {
          assert h in HandIds(trackedUsers[id].hands);
        }
      }
    }

    /** Every tracked user has exactly the reported hands that are mapped to it. */
    ghost predicate HandsAssigned(hands: seq<Hand>)
      reads this`trackedUsers, this`trackedHands, trackedUsers.Values`hands
    {
      forall id | id in trackedUsers :: IsHandList(trackedUsers[id].hands, OwnedBy(trackedHands, id), hands)
    }
  }

  /** Every control below the shared ones came between two frames. */
  ghost predicate CameBetween(joined: map<AppControl, Joined>, below: set<AppControl>, frames: seq<Frame>) {
    forall a | a in below && a in joined :: exists n | 0 <= n <= |frames| :: joined[a].since == |Engagements(frames[..n])|
  }

  lemma NewcomersCameNow(before: map<AppControl, Joined>, now: map<AppControl, Joined>, below: set<AppControl>,
                         belowNow: set<AppControl>, frames: seq<Frame>, since: nat)
    requires CameBetween(before, below, frames) && since == |Engagements(frames)|
    requires forall a | a in below :: a in now && a in before && now[a] == before[a]
    requires forall a | a in belowNow && a !in below :: a in now && now[a].since == since
    ensures CameBetween(now, belowNow, frames)
  {
    hide Engagements;
    assert frames[..|frames|] == frames;
    forall a | a in belowNow && a in now
      ensures exists n | 0 <= n <= |frames| :: now[a].since == |Engagements(frames[..n])|
    {
      if a in below {
        assert now[a] == before[a];
      } else {
        assert now[a].since == |Engagements(frames[..|frames|])|;
      }
    }
  }

  lemma CameBefore(joined: map<AppControl, Joined>, below: set<AppControl>, frames: seq<Frame>, f: Frame)
    requires CameBetween(joined, below, frames)
    ensures CameBetween(joined, below, frames + [f])
  {
    hide Engagements;
    forall a | a in below && a in joined
      ensures exists n | 0 <= n <= |frames| + 1 :: joined[a].since == |Engagements((frames + [f])[..n])|
    {
      var n :| 0 <= n <= |frames| && joined[a].since == |Engagements(frames[..n])|;
      assert (frames + [f])[..n] == frames[..n];
    }
  }

  /** The ids that stand for the same user before and now. */
  ghost function Lasting(before: map<nat, TrackedUser>, now: map<nat, TrackedUser>): set<nat> {
    set id | id in before && id in now && before[id] == now[id]
  }

  /** Users came and went: an engaged user that is gone is lost. */
  ghost predicate Stays(before: map<nat, TrackedUser>, now: map<nat, TrackedUser>, was: nat, id: nat,
                        h: seq<Event>, hs: seq<Event>)
  {
    id == Kept(Lasting(before, now), was) && hs == h + if was != id then [LostEngaged(was)] else []
  }

  lemma StaysOn(before: map<nat, TrackedUser>, between: map<nat, TrackedUser>, now: map<nat, TrackedUser>,
                was: nat, mid: nat, id: nat, h: seq<Event>, hs: seq<Event>, after: seq<Event>)
    requires Stays(before, between, was, mid, h, hs) && Stays(between, now, mid, id, hs, after)
    requires Lasting(before, now) <= Lasting(before, between)
    ensures Stays(before, now, was, id, h, after)
    ensures Lasting(before, now) == Lasting(before, between) * Lasting(between, now)
  {
  }

  function FirstWithId(hands: seq<Hand>, id: nat): (r: Option<Hand>)
    ensures r.Some? <==> id in HandIds(hands)
    ensures r.Some? ==> r.value in hands && r.value.id == id
  {
    if hands == [] then None
    else if hands[0].id == id then Some(hands[0])
    else
      assert forall h | h in hands :: h == hands[0] || h in hands[1..];
      FirstWithId(hands[1..], id)
  }

  method GetItemById(hands: seq<Hand>, id: nat) returns (r: Option<Hand>)
    ensures r == FirstWithId(hands, id)
    ensures r == None <==> forall i | 0 <= i < |hands| :: hands[i].id != id
    ensures r.Some? ==> exists i :: 0 <= i < |hands| && hands[i] == r.value && r.value.id == id &&
                          forall j | 0 <= j < i :: hands[j].id != id
  {
    var i := 0;
    while i < |hands|
      invariant 0 <= i <= |hands| && FirstWithId(hands, id) == FirstWithId(hands[i..], id)
      invariant forall j | 0 <= j < i :: hands[j].id != id
    {
      if hands[i].id == id { return Some(hands[i]); }
      i := i + 1;
    }
    return None;
  }

  /** The tracked hands of a user. */
  function OwnedBy(owners: map<nat, nat>, u: nat): set<nat> {
    set h | h in owners && owners[h] == u
  }

  /** The list holds the reported hands with the given ids, each once. */
  ghost predicate IsHandList(list: seq<Hand>, ids: set<nat>, hands: seq<Hand>) {
    && HandIds(list) == ids
    && (forall i, j | 0 <= i < j < |list| :: list[i].id != list[j].id)
    && (forall i | 0 <= i < |list| :: FirstWithId(hands, list[i].id) == Some(list[i]))
  }

  lemma HandListGrows(list: seq<Hand>, ids: set<nat>, hands: seq<Hand>, hand: Hand)
    requires IsHandList(list, ids, hands) && hand.id !in ids && FirstWithId(hands, hand.id) == Some(hand)
    ensures IsHandList(list + [hand], ids + {hand.id}, hands)
  {
  }

  lemma NoHandsLost(b: Book, frame: seq<nat>, ids: set<nat>, all: set<nat>)
    requires all == b.hands.Keys
    ensures AfterLostHands(b, frame, ids + all) == b
  {
  }

  lemma OnlyReported(b: Book, frame: seq<nat>, ids: set<nat>)
    ensures AfterLostHands(b, frame, ids).hands.Keys <= ids
  {
  }

  lemma OneHandLost(b: Book, frame: seq<nat>, ids: set<nat>, rest: set<nat>, h: nat, before: Book, now: Book)
    requires h in rest && rest <= b.hands.Keys && before == AfterLostHands(b, frame, ids + rest) && h in before.hands
    requires now.nextFake == before.nextFake && now.hands == if h in ids then before.hands else before.hands - {h}
    requires now.users == if h in ids || before.hands[h] in frame then before.users else before.users - {before.hands[h]}
    ensures now == AfterLostHands(b, frame, ids + (rest - {h}))
  {
  }

  lemma UsersApart(users: set<TrackedUser>, m: EngageSingleSession, w: World)
    requires m.Valid(users, w)
    ensures forall u, v | u in users && v in users && u != v :: u.controls != v.controls
    ensures forall u | u in users :: u.controls !in w.c && u.userid != 0
  {
  }

  // ----- one round of notices ------------------------------------------------------------

  /** Who is in a session, who is engaged, what has happened to engagement, and what application
      controls have heard. */
  datatype Notice = Notice(sessions: set<nat>, engaged: nat, events: seq<Event>, heard: Heard)

  type HandLists = map<nat, seq<Hand>>

  function HoldingOf(hands: HandLists): set<nat> {
    set id | id in hands && hands[id] != []
  }

  /** Where the session of a user with hands starts. */
  function FocusOf(hands: HandLists, id: nat): int {
    if id in hands && hands[id] != [] then hands[id][0].position else 0
  }

  /** User id notices whether it has hands. */
  ghost predicate TurnTaken(hands: HandLists, owns: map<nat, set<AppControl>>, id: nat, was: Notice, now: Notice)
    requires owns.Keys == hands.Keys
  {
    var holds, isIn := id in HoldingOf(hands), id in was.sessions;
    && id in hands && now.heard.Keys == was.heard.Keys
    && now.sessions == (if holds then was.sessions + {id} else was.sessions - {id})
    && now.engaged == (if holds && !isIn && was.engaged == 0 then id
                       else if !holds && isIn && was.engaged == id then 0
                       else was.engaged)
    && now.events == was.events + (if holds && !isIn && was.engaged == 0 then [Engaged(id, FocusOf(hands, id))]
                                   else if !holds && isIn && was.engaged == id then [Disengaged(id)]
                                   else [])
    && (forall a | a in now.heard ::
          now.heard[a] == was.heard[a] + if a in owns[id] then SessionCalls(isIn, hands[id]) else [])
  }

  lemma TurnOf(hands: HandLists, owns: map<nat, set<AppControl>>, id: nat, mine: seq<Hand>, isIn: bool,
               own: set<AppControl>, was: Notice, now: Notice)
    requires owns.Keys == hands.Keys && id in hands && hands[id] == mine && isIn == (mine != [])
    requires now.sessions == if isIn then was.sessions + {id} else was.sessions - {id}
    requires now.events == was.events + Happenings(id in was.sessions, mine, id, was.engaged)
    requires now.engaged == if id !in was.sessions && mine != [] && was.engaged == 0 then id
                            else if id in was.sessions && mine == [] && was.engaged == id then 0
                            else was.engaged
    requires now.heard.Keys == was.heard.Keys == own
    requires forall a | a in own ::
               now.heard[a] == if a in owns[id] then was.heard[a] + SessionCalls(id in was.sessions, mine) else was.heard[a]
    ensures TurnTaken(hands, owns, id, was, now)
  {
    hide SessionCalls;
  }

  ghost predicate OwnHeard(hands: HandLists, owns: map<nat, set<AppControl>>, was: Notice, rest: set<nat>, now: Notice)
    requires owns.Keys == hands.Keys
  {
    forall id, a | id in owns && a in owns[id] ::
      && a in was.heard && a in now.heard
      && now.heard[a] == was.heard[a] + if id in rest then [] else SessionCalls(id in was.sessions, hands[id])
  }

  ghost predicate Disjoint(owns: map<nat, set<AppControl>>) {
    forall i, j | i in owns && j in owns && i != j :: owns[i] !! owns[j]
  }

  /** After all users have noticed. */
  ghost predicate RoundDone(hands: HandLists, owns: map<nat, set<AppControl>>, was: Notice, now: Notice)
    requires owns.Keys == hands.Keys
  {
    && now.sessions == HoldingOf(hands)
    && Engages(was.engaged, HoldingOf(hands), HoldingOf(hands) - was.sessions, now.engaged)
    && now.events == was.events + EngagementEvents(was.engaged, now.engaged, FocusOf(hands, now.engaged))
    && OwnHeard(hands, owns, was, {}, now)
  }

  /** The engaged id while the users in rest, those with the largest ids, have yet to notice. */
  ghost predicate EngagedSoFar(was: nat, holding: set<nat>, sessions: set<nat>, rest: set<nat>, now: nat) {
    if was != 0 && (was in holding || was in rest) then now == was
    else IsLeast(Later(holding - sessions - rest, was), now)
  }

  ghost predicate InOrder(all: set<nat>, rest: set<nat>) {
    rest <= all && 0 !in all && forall i, j | i in all && i !in rest && j in rest :: i < j
  }

  ghost predicate InRound(hands: HandLists, owns: map<nat, set<AppControl>>, was: Notice, rest: set<nat>, now: Notice) {
    && owns.Keys == hands.Keys && Disjoint(owns) && InOrder(hands.Keys, rest)
    && (was.engaged != 0 ==> was.engaged in was.sessions && was.engaged in hands)
    && now.sessions == was.sessions * rest + (HoldingOf(hands) - rest)
    && EngagedSoFar(was.engaged, HoldingOf(hands), was.sessions, rest, now.engaged)
    && now.events == was.events + EngagementEvents(was.engaged, now.engaged, FocusOf(hands, now.engaged))
    && OwnHeard(hands, owns, was, rest, now) && now.heard.Keys == was.heard.Keys
  }

  lemma BeforeRound(hands: HandLists, owns: map<nat, set<AppControl>>, was: Notice)
    requires owns.Keys == hands.Keys && Disjoint(owns) && 0 !in hands
    requires (was.engaged != 0 ==> was.engaged in was.sessions && was.engaged in hands) && was.sessions <= hands.Keys
    requires forall id | id in owns :: owns[id] <= was.heard.Keys
    ensures InRound(hands, owns, was, hands.Keys, was)
  {
    assert HoldingOf(hands) - was.sessions - hands.Keys == {};
    assert Later({}, was.engaged) == {};
    assert was.events + [] == was.events;
    assert was.sessions * hands.Keys == was.sessions && HoldingOf(hands) - hands.Keys == {};
  }

  lemma TurnGoesOn(hands: HandLists, owns: map<nat, set<AppControl>>, start: Notice, rest: set<nat>, id: nat,
                   was: Notice, now: Notice)
    requires id in rest && (forall j | j in rest :: id <= j)
    requires InRound(hands, owns, start, rest, was) && TurnTaken(hands, owns, id, was, now)
    ensures InRound(hands, owns, start, rest - {id}, now)
  {
    hide IsLeast, EngagedSoFar, InOrder, SessionCalls, OwnHeard, Disjoint;
    NextInOrder(hands.Keys, rest, id);
    NextEngaged(start.engaged, HoldingOf(hands), start.sessions, hands.Keys, rest, id, was.sessions, was.engaged, now.engaged);
    NextHeard(hands, owns, start, rest, id, was, now);
  }

  lemma NextInOrder(all: set<nat>, rest: set<nat>, id: nat)
    requires InOrder(all, rest) && id in rest && forall j | j in rest :: id <= j
    ensures InOrder(all, rest - {id}) && id in all && id != 0
  {
  }

  lemma NextEngaged(was: nat, holding: set<nat>, sessions: set<nat>, all: set<nat>, rest: set<nat>, id: nat,
                    before: set<nat>, engaged: nat, now: nat)
    requires InOrder(all, rest) && holding <= all && id in rest && (forall j | j in rest :: id <= j)
    requires (was != 0 ==> was in sessions && was in all) && before == sessions * rest + (holding - rest)
    requires EngagedSoFar(was, holding, sessions, rest, engaged)
    requires now == if id in holding && id !in before && engaged == 0 then id
                    else if id !in holding && id in before && engaged == id then 0 else engaged
    ensures EngagedSoFar(was, holding, sessions, rest - {id}, now)
    ensures id in holding && id !in before && engaged == 0 ==> was == 0 || was !in holding
    ensures id !in holding && id in before && engaged == id ==> was == id
  {
    var joined, next := holding - sessions - rest, holding - sessions - (rest - {id});
    assert id in before <==> id in sessions;
    assert next == if id in holding && id !in sessions then joined + {id} else joined;
    assert id !in joined;
    LaterWithOneMore(joined, next, was, id);
  }

  lemma LaterWithOneMore(joined: set<nat>, next: set<nat>, was: nat, id: nat)
    requires id !in joined && (next == joined + {id} || next == joined)
    ensures Later(next, was) == Later(joined, was) + if id in next && id > was then {id} else {}
  {
  }

  lemma NextHeard(hands: HandLists, owns: map<nat, set<AppControl>>, start: Notice, rest: set<nat>, id: nat,
                  was: Notice, now: Notice)
    requires owns.Keys == hands.Keys && Disjoint(owns) && id in rest && id in hands
    requires OwnHeard(hands, owns, start, rest, was) && now.heard.Keys == was.heard.Keys
    requires id in was.sessions <==> id in start.sessions
    requires forall a | a in now.heard ::
               now.heard[a] == was.heard[a] + if a in owns[id] then SessionCalls(id in was.sessions, hands[id]) else []
    ensures OwnHeard(hands, owns, start, rest - {id}, now)
  {
    hide SessionCalls;
  }

  lemma RoundEnds(hands: HandLists, owns: map<nat, set<AppControl>>, was: Notice, now: Notice)
    requires InRound(hands, owns, was, {}, now)
    ensures RoundDone(hands, owns, was, now)
  {
    var holding := HoldingOf(hands);
    assert holding - was.sessions - {} == holding - was.sessions;
  }

  /** What a frame does before the users notice: sessions and engagement of users that are gone
      end, the engagement with a loss; no control is told. */
  ghost predicate LeftSoFar(lasting: set<nat>, was: Notice, now: Notice) {
    && now.sessions == was.sessions * lasting && now.engaged == Kept(lasting, was.engaged)
    && now.events == was.events + (if was.engaged != now.engaged then [LostEngaged(was.engaged)] else [])
    && now.heard == was.heard
  }

  lemma NextBookUnfolds(b: Book, raw: seq<nat>, f: Frame)
    ensures BeforeNewHands(b, raw, f) ==
              AfterLostHands(b.(users := UsersAfter(b.users, raw, f.users)), f.users, HandIds(f.hands))
    ensures NextBook(b, raw, f) == AfterHands(BeforeNewHands(b, raw, f), f.hands, f.allow)
  {
  }

  lemma LeftFromStays(before: map<nat, TrackedUser>, after: map<nat, TrackedUser>, was: Notice, now: Notice)
    requires Stays(before, after, was.engaged, now.engaged, was.events, now.events) && now.heard == was.heard
    requires now.sessions <= after.Keys
    requires forall id | id in after :: id in now.sessions <==> id in was.sessions && id in Lasting(before, after)
    ensures LeftSoFar(Lasting(before, after), was, now)
  {
  }

  /** Users that last have the application controls that they had, new ones have none. */
  ghost predicate OwnsLast(lasting: set<nat>, owned: map<nat, set<AppControl>>, owns: map<nat, set<AppControl>>) {
    forall id | id in owns :: if id in lasting then id in owned && owns[id] == owned[id] else owns[id] == {}
  }

  /** What a frame does: sessions follow hands; who is engaged; what happened to engagement; and
      what the application controls of users that last, which alone have any, have heard. */
  ghost predicate FrameDone(lasting: set<nat>, hands: HandLists, owned: map<nat, set<AppControl>>,
                            owns: map<nat, set<AppControl>>, was: Notice, now: Notice)
  {
    var kept := Kept(lasting, was.engaged);
    && now.sessions == HoldingOf(hands)
    && Engages(kept, HoldingOf(hands), HoldingOf(hands) - was.sessions * lasting, now.engaged)
    && now.events == was.events + FrameEvents(was.engaged, kept, now.engaged, FocusOf(hands, now.engaged))
    && owns.Keys == hands.Keys
    && OwnsLast(lasting, owned, owns)
    && (forall id, a | id in owns && a in owns[id] ::
          && a in was.heard && a in now.heard
          && now.heard[a] == was.heard[a] + SessionCalls(id in was.sessions, hands[id]))
  }

  lemma FrameFromRound(lasting: set<nat>, hands: HandLists, owned: map<nat, set<AppControl>>,
                       owns: map<nat, set<AppControl>>, was: Notice, mid: Notice, now: Notice)
    requires owns.Keys == hands.Keys && LeftSoFar(lasting, was, mid) && RoundDone(hands, owns, mid, now)
    requires OwnsLast(lasting, owned, owns)
    ensures FrameDone(lasting, hands, owned, owns, was, now)
  {
    hide Engages, SessionCalls;
  }

  /** Sessions and engagement after a frame are those that the frames determine. */
  lemma FrameFollows(frames: seq<Frame>, f: Frame, hands: HandLists, owned: map<nat, set<AppControl>>,
                     owns: map<nat, set<AppControl>>, was: Notice, now: Notice)
    requires FrameDone(Staying(Run(frames), LastUsers(frames), f), hands, owned, owns, was, now)
    requires was.sessions == Holding(Run(frames)) && HoldingOf(hands) == Holding(Run(frames + [f]))
    requires was.engaged == EngagedAfter(frames) && Plain(was.events) == Engagements(frames)
    ensures now.sessions == Holding(Run(frames + [f]))
    ensures now.engaged == EngagedAfter(frames + [f]) && Plain(now.events) == Engagements(frames + [f])
  {
    hide Run, Engages, SessionCalls, Staying, Holding, LastUsers;
    EngagedAfterOneMore(frames, f);
    var lasting := Staying(Run(frames), LastUsers(frames), f);
    var kept := Kept(lasting, was.engaged);
    RunExtends(frames, f);
    EngagesOne(kept, HoldingOf(hands), HoldingOf(hands) - was.sessions * lasting, now.engaged, EngagedAfter(frames + [f]));
    PlainFrame(was.events, was.engaged, kept, now.engaged, FocusOf(hands, now.engaged));
  }

  lemma PlainBrackets(h: seq<Event>, since: nat)
    ensures Bracketed(Plain(h), since) == Bracketed(h, since)
  {
    var p := Plain(h);
    assert forall i | 0 <= i < |h| :: p[i].LostEngaged? == h[i].LostEngaged?;
  }

  lemma PlainFrame(h: seq<Event>, was: nat, kept: nat, now: nat, focus: int)
    ensures Plain(h + FrameEvents(was, kept, now, focus)) == Plain(h) + FrameEvents(was, kept, now, 0)
  {
  }

  lemma FrameAddsEvents(lasting: set<nat>, hands: HandLists, owned: map<nat, set<AppControl>>,
                        owns: map<nat, set<AppControl>>, was: Notice, now: Notice)
    requires FrameDone(lasting, hands, owned, owns, was, now)
    ensures was.events <= now.events
  {
    hide Engages, SessionCalls;
  }

  lemma HeardOfFrame(below: set<AppControl>, joined: map<AppControl, Joined>, before: Heard, now: Heard,
                     h: seq<Event>, hs: seq<Event>)
    requires AllFollow(below, joined, before, h) && AllFollow(below, joined, now, hs) && h <= hs
    ensures forall a | a in below :: a in before && a in now && now[a] == before[a] + SharedCalls(hs[|h|..], 0)
  {
    hide AllFollow, SharedCalls;
    assert hs == h + hs[|h|..];
    AllHear(below, joined, before, now, h, hs[|h|..]);
  }

  ghost predicate Blank(u: TrackedUser)
    reads u`isInHandpointSession, u.controls
  {
    !u.isInHandpointSession && OwnApps(u.controls.listeners) == {}
  }

  ghost predicate KeyedById(users: map<nat, TrackedUser>) {
    forall id | id in users :: users[id].userid == id
  }

  lemma ValuesAfterAdding(users: map<nat, TrackedUser>, id: nat, u: TrackedUser)
    requires id !in users
    ensures users[id := u].Values == users.Values + {u}
  {
    forall v | v in users.Values ensures v in users[id := u].Values {
      var k :| k in users && users[k] == v;
      assert users[id := u][k] == v;
    }
    assert users[id := u][id] == u;
  }

  function Remaining(users: map<nat, TrackedUser>, id: nat): map<nat, TrackedUser> {
    map k | k in users && k != id :: users[k]
  }

  lemma ValuesAfterRemoval(users: map<nat, TrackedUser>, id: nat)
    requires id in users && KeyedById(users)
    ensures Remaining(users, id).Values == users.Values - {users[id]}
  {
    var rest := Remaining(users, id);
    forall v | v in users.Values && v != users[id] ensures v in rest.Values {
      var k :| k in users && users[k] == v;
      assert rest[k] == v;
    }
  }

  lemma LogGrows(log: seq<UserEvent>, e: UserEvent, users: set<nat>, now: set<nat>)
    requires Accounts(log, users)
    requires e.New? ==> e.user !in users && now == users + {e.user}
    requires e.Lost? ==> e.user in users && now == users - {e.user}
    ensures Accounts(log + [e], now)
  {
    assert (log + [e])[..|log|] == log;
    assert users == if e.New? then now - {e.user} else now + {e.user};
  }

  // ----- a loss is heard ---------------------------------------------------------------------------

  const FIRST := Frame([1], [Hand(7, 1, 5)], true)
  const SECOND := Frame([], [], true)
  const THIRD := Frame([2], [Hand(8, 2, 7)], true)

  lemma LossRun()
    ensures Run([FIRST]) == Book({1}, map[7 := 1], FIRST_FAKE)
    ensures Run([FIRST, SECOND]) == Book({}, map[], FIRST_FAKE)
    ensures Run([FIRST, SECOND, THIRD]) == Book({2}, map[8 := 2], FIRST_FAKE)
  {
    assert [FIRST] == [] + [FIRST] && [FIRST, SECOND] == [FIRST] + [SECOND];
    assert [FIRST, SECOND, THIRD] == [FIRST, SECOND] + [THIRD];
    RunExtends([], FIRST);
    RunExtends([FIRST], SECOND);
    RunExtends([FIRST, SECOND], THIRD);
    OneHandFrame(FIRST, Book({}, map[], FIRST_FAKE), []);
    var b := Book({1}, map[7 := 1], FIRST_FAKE);
    assert 7 in b.hands && b.hands[7] == 1 && 7 !in HandIds([]);
    assert BeforeNewHands(b, [1], SECOND) == Book({}, map[], FIRST_FAKE);
    OneHandFrame(THIRD, Book({}, map[], FIRST_FAKE), []);
  }

  lemma OneHandFrame(f: Frame, b: Book, raw: seq<nat>)
    requires b == Book({}, map[], FIRST_FAKE) && |f.users| == 1 && |f.hands| == 1 && f.hands[0].userid == f.users[0] > 0
    ensures NextBook(b, raw, f) == Book({f.users[0]}, map[f.hands[0].id := f.users[0]], FIRST_FAKE)
  {
    var c := BeforeNewHands(b, raw, f);
    assert c == Book({f.users[0]}, map[], FIRST_FAKE);
    assert f.hands[..0] == [] && AfterHands(c, [], f.allow) == c;
  }

  lemma OnlyHand(list: seq<Hand>, hand: Hand)
    requires IsHandList(list, {hand.id}, [hand])
    ensures list == [hand]
  {
    assert hand.id in HandIds(list);
    forall i | 0 <= i < |list| ensures list[i] == hand {
      assert list[i].id in HandIds(list);
    }
    assert |list| > 1 ==> list[0].id != list[1].id;
    assert |list| == 1;
  }

  /** The frame in which the only user joins while nobody is engaged any more. */
  lemma OnlyUserEngages(lasting: set<nat>, hands: HandLists, owned: map<nat, set<AppControl>>,
                        owns: map<nat, set<AppControl>>, was: Notice, now: Notice, u: nat, hand: Hand)
    requires FrameDone(lasting, hands, owned, owns, was, now) && hands == map[u := [hand]] && u != 0
    requires Kept(lasting, was.engaged) == 0 && was.sessions * lasting == {}
    ensures now.engaged == u
    ensures now.events == was.events + (if was.engaged != 0 then [LostEngaged(was.engaged)] else []) + [Engaged(u, hand.position)]
  {
    var joining := HoldingOf(hands) - was.sessions * lasting;
    assert u in joining && Later(joining, 0) == {u};
  }

  lemma NobodyLeft(lasting: set<nat>, hands: HandLists, owned: map<nat, set<AppControl>>,
                   owns: map<nat, set<AppControl>>, was: Notice, now: Notice)
    requires FrameDone(lasting, hands, owned, owns, was, now) && hands == map[] && lasting == {}
    ensures now.engaged == 0
    ensures now.events == was.events + if was.engaged != 0 then [LostEngaged(was.engaged)] else []
  {
    assert HoldingOf(hands) - was.sessions * lasting == {} && Later({}, 0) == {};
  }

  /** The shared controls with nothing below them yet. */
  lemma EmptyWorld(m: EngageSingleSession, a: AppControl, w: World)
    requires w == World(map[m.controls := []], map[m.controls := 0], {a})
    requires m.controls.listeners == [] && !m.controls.isInHandpointSession && a.calls == []
    requires m.userid == 0 && m.history == [] && m.joined == map[]
    ensures m.SharedOk(w) && Addable(w.c, w.rank, w.apps, m.controls, Some(App(a)))
    ensures m.SharedApps(w) == {}
  {
    assert AppsBelow(w.c, w.rank, m.controls) == {};
  }

  lemma OneControl(m: EngageSingleSession, a: AppControl, w: World)
    requires w == World(map[m.controls := [App(a)]], map[m.controls := 0], {a})
    ensures Forest(w.c, w.rank) && AppsBelow(w.c, w.rank, m.controls) == {a} && m.SharedApps(w) == {a}
    ensures m.SharedLists(w) == {m.controls}
  {
    assert Lists(w.c, w.rank, m.controls, 1) == Lists(w.c, w.rank, m.controls, 0) + ListsIn(w.c, w.rank, m.controls, App(a));
    assert Apps(w.c, w.rank, m.controls, 1) == Apps(w.c, w.rank, m.controls, 0) + AppsIn(w.c, w.rank, m.controls, App(a));
  }

  /** A user joins with one hand while nobody is tracked. */
  method Join(t: UserTracker, u: nat, hand: Hand, ghost w: World)
    requires t.Valid(w) && t.trackedUsers == map[] && t.allowHandsForUntrackedUsers && hand.userid == u != 0
    requires Run(t.frames + [Frame([u], [hand], true)]) == Book({u}, map[hand.id := u], FIRST_FAKE)
    modifies t, t.manager`userid, t.manager`history
    modifies t.manager.SharedLists(w)`isInHandpointSession, t.manager.SharedLists(w)`focusPoint
    modifies t.manager.SharedApps(w)`calls
    ensures t.Valid(w) && t.allowHandsForUntrackedUsers && t.frames == old(t.frames) + [Frame([u], [hand], true)]
    ensures t.manager.history == old(t.manager.history) + [Engaged(u, hand.position)] && t.manager.userid == u
    ensures forall x | x in t.trackedUsers.Values :: fresh(x) && fresh(x.controls)
    ensures t.trackedUsers.Keys == {u} && forall id | id in t.trackedUsers :: t.Owns()[id] == {}
  {
    hide UserTracker.Consistent, FrameDone, Run, OwnApps, SharedCalls, IsHandList;
    hide EngageSingleSession.SharedApps, EngageSingleSession.SharedLists;
    NobodyEngaged(t, w);
    ghost var was := t.Now({});
    t.DoUpdate([u], [hand], w, {});
    ghost var lasting := Lasting(map[], t.trackedUsers);
    OnlyUser(t, u, hand);
    OnlyUserEngages(lasting, t.HandsBy(), map[], t.Owns(), was, t.Now({}), u, hand);
    NewOwnNothing(lasting, t.HandsBy(), map[], t.Owns(), was, t.Now({}));
  }

  lemma OnlyUser(t: UserTracker, u: nat, hand: Hand)
    requires t.trackedUsers.Keys == {u} && t.trackedHands == map[hand.id := u] && t.HandsAssigned([hand])
    ensures t.HandsBy() == map[u := [hand]]
  {
    assert OwnedBy(map[hand.id := u], u) == {hand.id};
    OnlyHand(t.trackedUsers[u].hands, hand);
  }

  lemma NobodyEngaged(t: UserTracker, w: World)
    requires t.Valid(w) && t.trackedUsers == map[]
    ensures t.manager.userid == 0 && AppsOfUsers(t.trackedUsers.Values) == {} && t.InSession() == {} && t.Owns() == map[]
  {
    assert t.trackedUsers.Values == {};
  }

  lemma NewOwnNothing(lasting: set<nat>, hands: HandLists, owned: map<nat, set<AppControl>>,
                      owns: map<nat, set<AppControl>>, was: Notice, now: Notice)
    requires FrameDone(lasting, hands, owned, owns, was, now) && owned == map[]
    ensures forall id | id in owns :: owns[id] == {}
  {
  }

  /** Everybody goes. */
  method Vanish(t: UserTracker, ghost w: World)
    requires t.Valid(w) && t.allowHandsForUntrackedUsers && forall id | id in t.trackedUsers :: t.Owns()[id] == {}
    requires Run(t.frames + [SECOND]) == Book({}, map[], FIRST_FAKE)
    modifies t, t.manager`userid, t.manager`history
    modifies t.trackedUsers.Values`hands, t.trackedUsers.Values`isInHandpointSession, t.trackedUsers.Values`engaged
    modifies (set u | u in t.trackedUsers.Values :: u.controls)`listeners
    modifies (set u | u in t.trackedUsers.Values :: u.controls)`isInHandpointSession
    modifies (set u | u in t.trackedUsers.Values :: u.controls)`focusPoint
    modifies t.manager.SharedLists(w)`isInHandpointSession, t.manager.SharedLists(w)`focusPoint
    modifies t.manager.SharedApps(w)`calls
    ensures t.Valid(w) && t.allowHandsForUntrackedUsers && t.frames == old(t.frames) + [SECOND]
    ensures t.trackedUsers == map[]
    ensures t.manager.history == old(t.manager.history) +
              if old(t.manager.userid) != 0 then [LostEngaged(old(t.manager.userid))] else []
  {
    hide UserTracker.Consistent, FrameDone, Run, OwnApps, SharedCalls, IsHandList;
    hide EngageSingleSession.SharedApps, EngageSingleSession.SharedLists;
    OwningNothing(t);
    ghost var before, owned, was := t.trackedUsers, t.Owns(), t.Now({});
    t.DoUpdate([], [], w, {});
    assert t.trackedUsers == map[];
    NobodyLeft(Lasting(before, t.trackedUsers), t.HandsBy(), owned, t.Owns(), was, t.Now({}));
  }

  lemma OwningNothing(t: UserTracker)
    requires forall id | id in t.trackedUsers :: t.Owns()[id] == {}
    ensures AppsOfUsers(t.trackedUsers.Values) == {}
  {
    hide OwnApps;
    forall u | u in t.trackedUsers.Values ensures OwnApps(u.controls.listeners) == {} {
      var id :| id in t.trackedUsers && t.trackedUsers[id] == u;
      assert t.Owns()[id] == {};
    }
  }

  /** User 1 comes with a hand, both go, then user 2 comes with a hand. */
  method ThreeFrames(t: UserTracker, ghost w: World)
    requires t.Valid(w) && t.trackedUsers == map[] && t.allowHandsForUntrackedUsers && t.frames == []
    requires t.manager.history == []
    modifies t, t.manager`userid, t.manager`history
    modifies t.manager.SharedLists(w)`isInHandpointSession, t.manager.SharedLists(w)`focusPoint
    modifies t.manager.SharedApps(w)`calls
    ensures t.Valid(w) && t.manager.history == [Engaged(1, 5), LostEngaged(1), Engaged(2, 7)]
  {
    hide UserTracker.Valid, Run, AppsOfUsers, OwnApps;
    hide EngageSingleSession.SharedApps, EngageSingleSession.SharedLists;
    LossRun();
    assert [] + [FIRST] == [FIRST] && [FIRST] + [SECOND] == [FIRST, SECOND];
    assert [FIRST, SECOND] + [THIRD] == [FIRST, SECOND, THIRD];
    Join(t, 1, Hand(7, 1, 5), w);
    assert t.manager.history == [Engaged(1, 5)];
    Vanish(t, w);
    assert t.manager.history == [Engaged(1, 5), LostEngaged(1)];
    Join(t, 2, Hand(8, 2, 7), w);
  }

  /** After that run a control below the shared ones has heard two starts in a row, and nothing
      in between. */
  method LossIsHeard() returns (a: AppControl)
    ensures a.calls == [Start(5), Start(7)] && !Alternating(a.calls)
  {
    hide UserTracker.Valid, Alternating, EngageSingleSession.SharedApps, EngageSingleSession.SharedLists;
    hide SharedCalls, Bracketed;
    var tracker;
    ghost var w;
    a, tracker, w := OneSharedControl();
    ThreeFrames(tracker, w);
    ghost var n := tracker.SharedHears(w, a, Joined([], 0));
    CallsOfLoss();
  }

  /** A tracker whose manager has one control below its shared controls. */
  method OneSharedControl() returns (a: AppControl, tracker: UserTracker, ghost w: World)
    ensures fresh(a) && fresh(tracker) && fresh(tracker.manager) && tracker.Valid(w) && tracker.frames == []
    ensures tracker.allowHandsForUntrackedUsers && tracker.trackedUsers == map[] && tracker.manager.history == []
    ensures Forest(w.c, w.rank) && tracker.manager.controls in w.c
    ensures a in AppsBelow(w.c, w.rank, tracker.manager.controls)
    ensures a in tracker.manager.joined && tracker.manager.joined[a] == Joined([], 0)
    ensures fresh(tracker.manager.SharedLists(w)) && fresh(tracker.manager.SharedApps(w))
  {
    hide EngageSingleSession.SharedOk, Run, AppsOfUsers, OwnApps, Forest, Below, AppsBelow;
    hide EngageSingleSession.SharedApps, EngageSingleSession.SharedLists;
    var manager;
    a, manager, w := OneSharedManager();
    tracker := new UserTracker(manager, w);
  }

  method OneSharedManager() returns (a: AppControl, manager: EngageSingleSession, ghost w: World)
    ensures fresh(a) && fresh(manager) && fresh(manager.controls) && manager.SharedOk(w)
    ensures manager.userid == 0 && manager.history == []
    ensures Forest(w.c, w.rank) && manager.controls in w.c && AppsBelow(w.c, w.rank, manager.controls) == {a}
    ensures manager.SharedLists(w) == {manager.controls} && manager.SharedApps(w) == {a}
    ensures a in manager.joined && manager.joined[a] == Joined([], 0)
  {
    hide EngageSingleSession.SharedOk, Addable, Forest, Below, AppsBelow;
    hide EngageSingleSession.SharedApps, EngageSingleSession.SharedLists, SharedCalls;
    a := new AppControl();
    manager := new EngageSingleSession();
    ghost var v := World(map[manager.controls := []], map[manager.controls := 0], {a});
    EmptyWorld(manager, a, v);
    w := World(map[manager.controls := [App(a)]], map[manager.controls := 0], {a});
    assert [] + [App(a)] == [App(a)];
    assert w == manager.WorldAfterAdd(v, manager.controls, Some(App(a)));
    OneControl(manager, a, w);
    manager.AddShared(manager.controls, Some(App(a)), v);
  }

  lemma CallsOfLoss()
    ensures var h := [Engaged(1, 5), LostEngaged(1), Engaged(2, 7)];
      SharedCalls(h, 0) == [Start(5), Start(7)] && !Bracketed(h, 0)
    ensures !Alternating([Start(5), Start(7)])
  {
    var h := [Engaged(1, 5), LostEngaged(1), Engaged(2, 7)];
    assert h[..2] == [Engaged(1, 5), LostEngaged(1)] && h[..2][..1] == [Engaged(1, 5)] && h[..2][..1][..0] == [];
    assert SharedCalls(h[..2][..1], 0) == [Start(5)] && SharedCalls(h[..2], 0) == [Start(5)];
    assert h[1].LostEngaged?;
    assert [Start(5), Start(7)][1] == Start(7);
  }
}
