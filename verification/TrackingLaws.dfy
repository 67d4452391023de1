/** What a frame does, case by case: the hands of a user and where its session starts, the calls and
    events of a change, and the numbers given to hands of no user. */
module TrackingLaws {
  import opened Common
  import opened ControlLists
  import opened Engagement
  import opened Tracking
  import opened EngagementRuns
  import opened UserTracking

  // ----- hands and sessions -------------------------------------------------------------------

  /** Of several entries with the same id the first one counts. */
  lemma {:induction false} FirstExactly(hands: seq<Hand>, id: nat, h: Hand)
    ensures FirstWithId(hands, id) == Some(h) <==>
            exists i :: 0 <= i < |hands| && hands[i] == h && h.id == id && forall j | 0 <= j < i :: hands[j].id != id
    ensures FirstWithId(hands, id) == None <==> forall i | 0 <= i < |hands| :: hands[i].id != id
  {
    if hands != [] && hands[0].id != id {
      FirstExactly(hands[1..], id, h);
      if i :| 0 <= i < |hands| && hands[i] == h && h.id == id && forall j | 0 <= j < i :: hands[j].id != id {
        assert hands[1..][i - 1] == h;
      }
      if i :| 0 <= i < |hands[1..]| && hands[1..][i] == h && h.id == id && forall j | 0 <= j < i :: hands[1..][j].id != id {
        assert hands[i + 1] == h;
        forall j | 0 <= j < i + 1 ensures hands[j].id != id {
          if j > 0 { assert hands[j] == hands[1..][j - 1]; }
        }
      }
    }
  }

  /** The hands assigned to user u are the entries, first of their id, of the hands it owns. */
  lemma HandsExactly(list: seq<Hand>, owners: map<nat, nat>, u: nat, hands: seq<Hand>)
    requires IsHandList(list, OwnedBy(owners, u), hands)
    ensures NoRepeats(list)
    ensures forall h :: h in list <==>
              && h.id in owners && owners[h.id] == u
              && exists i :: 0 <= i < |hands| && hands[i] == h && forall j | 0 <= j < i :: hands[j].id != h.id
  {
    forall h ensures h in list <==>
              && h.id in owners && owners[h.id] == u
              && exists i :: 0 <= i < |hands| && hands[i] == h && forall j | 0 <= j < i :: hands[j].id != h.id
    {
      FirstExactly(hands, h.id, h);
      hide FirstWithId;
      if h in list {
        assert h.id in HandIds(list);
      }
      if h.id in owners && owners[h.id] == u && FirstWithId(hands, h.id) == Some(h) {
        assert h.id in HandIds(list);
        var g :| g in list && g.id == h.id;
      }
    }
  }

  /** What a user's own controls hear: a start where its first hand is, or an end. */
  lemma SessionExactly(first: Hand, more: seq<Hand>)
    ensures SessionCalls(false, [first] + more) == [Start(first.position)] && SessionCalls(true, [first] + more) == []
    ensures SessionCalls(true, []) == [End] && SessionCalls(false, []) == []
  {
  }

  /** What that does to engagement: a user who gets hands while nobody is engaged is, at its first
      hand, and the engaged user who has no hands left no longer is. */
  lemma HappeningsExactly(wasIn: bool, hands: seq<Hand>, user: nat, engaged: nat, e: Event)
    ensures e in Happenings(wasIn, hands, user, engaged) <==>
              || (!wasIn && hands != [] && engaged == 0 && e == Engaged(user, hands[0].position))
              || (wasIn && hands == [] && engaged == user && e == Disengaged(user))
    ensures |Happenings(wasIn, hands, user, engaged)| <= 1
  {
  }

  lemma FocusExactly(hands: HandLists, id: nat)
    requires id in hands && hands[id] != []
    ensures FocusOf(hands, id) == hands[id][0].position
  {
  }

  // ----- engagement ------------------------------------------------------------------------------

  /** Who is engaged after a round, told by what is joined and held. */
  lemma EngagesExactly(was: nat, holding: set<nat>, joining: set<nat>, now: nat)
    ensures Engages(was, holding, joining, now) <==>
              if was != 0 && was in holding then now == was
              else if forall j | j in joining :: j <= was then now == 0
              else now in joining && now > was && forall j | j in joining && j > was :: now <= j
  {
    var later := Later(joining, was);
    assert forall y :: y in later <==> y in joining && y > was;
    hide Later;
    if forall j | j in joining :: j <= was {
      assert later == {};
    } else {
      var j :| j in joining && j > was;
      assert j in later;
      assert IsLeast(later, now) <==> now in later && forall y | y in later :: now <= y;
    }
  }

  /** The events of a frame, in order: the engaged user was lost, or its session ended, and then
      another user was engaged. */
  lemma EventsExactly(was: nat, kept: nat, now: nat, focus: int)
    requires kept == was || kept == 0
    ensures was == kept && now == was ==> FrameEvents(was, kept, now, focus) == []
    ensures was == kept && was == 0 && now != 0 ==> FrameEvents(was, kept, now, focus) == [Engaged(now, focus)]
    ensures was == kept && was != 0 && now == 0 ==> FrameEvents(was, kept, now, focus) == [Disengaged(was)]
    ensures was == kept && was != 0 && now != 0 && now != was ==>
              FrameEvents(was, kept, now, focus) == [Disengaged(was), Engaged(now, focus)]
    ensures was != kept && now == 0 ==> FrameEvents(was, kept, now, focus) == [LostEngaged(was)]
    ensures was != kept && now != 0 ==> FrameEvents(was, kept, now, focus) == [LostEngaged(was), Engaged(now, focus)]
  {
  }

  /** What the shared controls hear of one more event. */
  lemma HeardExactly(h: seq<Event>, user: nat, focus: int)
    ensures SharedCalls([], 0) == []
    ensures SharedCalls(h + [Engaged(user, focus)], 0) == SharedCalls(h, 0) + [Start(focus)]
    ensures SharedCalls(h + [Disengaged(user)], 0) == SharedCalls(h, 0) + [End]
    ensures SharedCalls(h + [LostEngaged(user)], 0) == SharedCalls(h, 0)
  {
    SharedCallsOfOne();
    SharedCallsAppend(h, [Engaged(user, focus)], 0);
    SharedCallsAppend(h, [Disengaged(user)], 0);
    SharedCallsAppend(h, [LostEngaged(user)], 0);
    hide SharedCalls;
    assert SharedCalls(h, 0) + [] == SharedCalls(h, 0);
  }

  // ----- hands of no user ---------------------------------------------------------------------------

  /** How many fake users have been given: one for each entry that lets in a hand of no user. */
  lemma {:induction false} FakesAreCounted(known: set<nat>, hands: seq<Hand>, n: nat, allow: bool)
    requires n <= |hands|
    ensures FakesGiven(known, hands, n, allow) ==
            |set i: nat | i < n && LetsIn(known, hands, i, allow) && hands[i].userid <= 0|
    decreases n
  {
    if n > 0 {
      FakesAreCounted(known, hands, n - 1, allow);
      var those := set i: nat | i < n && LetsIn(known, hands, i, allow) && hands[i].userid <= 0;
      var fewer := set i: nat | i < n - 1 && LetsIn(known, hands, i, allow) && hands[i].userid <= 0;
      hide LetsIn;
      OneMoreIn(fewer, those, n - 1, LetsIn(known, hands, n - 1, allow) && hands[n - 1].userid <= 0);
    }
  }

  /** The hands tracked after a frame, told by the entries: those known before that are reported, and
      those of the entries that let one in; where a hand is new, its entry says whose it is. */
  lemma BookExactly(b: Book, raw: seq<nat>, f: Frame, h: nat)
    ensures var d := NextBook(b, raw, f);
      && (h in d.hands <==>
            || (h in b.hands && exists e :: e in f.hands && e.id == h)
            || exists i :: 0 <= i < |f.hands| && LetsIn(b.hands.Keys, f.hands, i, f.allow) && f.hands[i].id == h)
      && d.nextFake == b.nextFake + FakesGiven(b.hands.Keys, f.hands, |f.hands|, f.allow)
      && (forall i | 0 <= i < |f.hands| && LetsIn(b.hands.Keys, f.hands, i, f.allow) ::
            && f.hands[i].id in d.hands
            && d.hands[f.hands[i].id] == if f.hands[i].userid > 0 then f.hands[i].userid
                                         else b.nextFake + FakesGiven(b.hands.Keys, f.hands, i, f.allow))
  {
    hide LetsIn, FakesGiven;
    var c := BeforeNewHands(b, raw, f);
    NewHandsExactly(c, f.hands, |f.hands|, f.allow);
    KnownInFrame(b, raw, f, |f.hands|);
    assert f.hands[..|f.hands|] == f.hands;
    forall i | 0 <= i < |f.hands| && LetsIn(b.hands.Keys, f.hands, i, f.allow)
      ensures && f.hands[i].id in NextBook(b, raw, f).hands
              && NextBook(b, raw, f).hands[f.hands[i].id] == UserGiven(b.nextFake, b.hands.Keys, f.hands, i, f.allow)
    {
      NumberGiven(b, raw, f, i);
    }
    assert h in HandIds(f.hands) <==> exists e :: e in f.hands && e.id == h;
  }

  /** The first run: nothing is tracked before it, and two hands of no user get the users 1337 and 1338. */
  lemma FirstFakes()
    ensures Run([]) == Book({}, map[], 1337)
    ensures var f := Frame([], [Hand(7, 0, 0), Hand(8, 0, 0)], true);
      NextBook(Run([]), [], f) == Book({1337, 1338}, map[7 := 1337, 8 := 1338], 1339)
  {
    var hands := [Hand(7, 0, 0), Hand(8, 0, 0)];
    var f := Frame([], hands, true);
    var start := BeforeNewHands(Run([]), [], f);
    assert start == Book({}, map[], 1337) && AfterHands(start, [], true) == start;
    assert hands[..1] == [hands[0]] && [hands[0]][..0] == [];
    assert AfterHands(start, [hands[0]], true) == Book({1337}, map[7 := 1337], 1338);
  }
}
