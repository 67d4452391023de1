/** What a frame of users and hands does to the ids that are tracked. */
module Tracking {
  import opened Engagement

  /** Tracked user ids, the owner of every tracked hand, and the next id for a hand without a user. */
  datatype Book = Book(users: set<nat>, hands: map<nat, nat>, nextFake: nat)

  /** What the acquisition layer reports, and whether hands of no user are let in at the time. */
  datatype Frame = Frame(users: seq<nat>, hands: seq<Hand>, allow: bool)

  const FIRST_FAKE: nat := 1337

  function HandIds(hands: seq<Hand>): set<nat> {
    set h | h in hands :: h.id
  }

  // ----- one frame ----------------------------------------------------------------------

  /** Users reported in the last frame and not in this one are lost; all reported ones are tracked. */
  function UsersAfter(users: set<nat>, raw: seq<nat>, frame: seq<nat>): set<nat> {
    StillTracked(users, raw, frame) + Ids(frame)
  }

  function StillTracked(users: set<nat>, raw: seq<nat>, frame: seq<nat>): set<nat> {
    set u | u in users && (u in frame || u !in raw)
  }

  function Ids(frame: seq<nat>): set<nat> {
    set u | u in frame
  }

  /** Hands no longer reported are dropped, and with a dropped hand its owner, unless the owner
      is reported. */
  function AfterLostHands(b: Book, frame: seq<nat>, ids: set<nat>): Book {
    Book(set u | u in b.users && (u in frame || !LosesHand(b.hands, ids, u)),
         map h | h in b.hands && h in ids :: b.hands[h],
         b.nextFake)
  }

  predicate LosesHand(owners: map<nat, nat>, ids: set<nat>, u: nat) {
    exists h | h in owners :: owners[h] == u && h !in ids
  }

  /** A hand of no user gets a fake user, if such hands are let in. */
  function AfterNewHand(b: Book, id: nat, userid: int, allow: bool): Book {
    if userid <= 0 then
      if allow then Book(b.users + {b.nextFake}, b.hands[id := b.nextFake], b.nextFake + 1) else b
    else Book(b.users + {userid}, b.hands[id := userid], b.nextFake)
  }

  function AfterHand(b: Book, hand: Hand, allow: bool): Book {
    if hand.id in b.hands then b else AfterNewHand(b, hand.id, hand.userid, allow)
  }

  function AfterHands(b: Book, hands: seq<Hand>, allow: bool): Book
    decreases |hands|
  {
    if hands == [] then b
    else AfterHand(AfterHands(b, hands[..|hands| - 1], allow), hands[|hands| - 1], allow)
  }

  function BeforeNewHands(b: Book, raw: seq<nat>, f: Frame): Book {
    AfterLostHands(b.(users := UsersAfter(b.users, raw, f.users)), f.users, HandIds(f.hands))
  }

  function NextBook(b: Book, raw: seq<nat>, f: Frame): Book {
    AfterHands(BeforeNewHands(b, raw, f), f.hands, f.allow)
  }

  /** What letting in new hands changes: nothing is dropped, and every added user owns a new hand. */
  lemma {:induction false} NewHandsOnlyAdd(b: Book, hands: seq<Hand>, allow: bool)
    ensures var d := AfterHands(b, hands, allow);
      && b.users <= d.users && b.nextFake <= d.nextFake
      && b.hands.Keys <= d.hands.Keys <= b.hands.Keys + HandIds(hands)
      && (forall h | h in b.hands :: d.hands[h] == b.hands[h])
      && (forall h | h in d.hands && h !in b.hands :: d.hands[h] in d.users)
      && (forall u | u in d.users && u !in b.users :: exists h :: h in d.hands && h !in b.hands && d.hands[h] == u)
      && (forall h | h in hands && (allow || h.userid > 0) :: h.id in d.hands)
    decreases |hands|
  {
    if hands != [] {
      var front, hand := hands[..|hands| - 1], hands[|hands| - 1];
      NewHandsOnlyAdd(b, front, allow);
      var c, d := AfterHands(b, front, allow), AfterHands(b, hands, allow);
      assert hands == front + [hand];
      assert HandIds(hands) == HandIds(front) + {hand.id};
      forall u | u in d.users && u !in b.users
        ensures exists h :: h in d.hands && h !in b.hands && d.hands[h] == u
      {
        if u in c.users {
          var h :| h in c.hands && h !in b.hands && c.hands[h] == u;
          assert d.hands[h] == u;
        } else {
          assert d.hands[hand.id] == u;
        }
      }
    }
  }

  /** An entry whose hand may be tracked. */
  predicate Admitted(hand: Hand, allow: bool) {
    allow || hand.userid > 0
  }

  /** Entry i of a frame lets its hand in: the hand is not among the known ones, and no earlier
      entry has let it in. */
  predicate LetsIn(known: set<nat>, hands: seq<Hand>, i: nat, allow: bool)
    requires i < |hands|
  {
    && hands[i].id !in known && Admitted(hands[i], allow)
    && forall j | 0 <= j < i && hands[j].id == hands[i].id :: !Admitted(hands[j], allow)
  }

  /** How many of the first n entries let in a hand of no user. */
  function FakesGiven(known: set<nat>, hands: seq<Hand>, n: nat, allow: bool): nat
    requires n <= |hands|
  {
    if n == 0 then 0
    else
      var one := if LetsIn(known, hands, n - 1, allow) && hands[n - 1].userid <= 0 then 1 else 0;
      FakesGiven(known, hands, n - 1, allow) + one
  }

  /** The user that entry i names, or the fake id that its hand of no user is given. */
  function UserGiven(next: nat, known: set<nat>, hands: seq<Hand>, i: nat, allow: bool): nat
    requires i < |hands|
  {
    if hands[i].userid > 0 then hands[i].userid else next + FakesGiven(known, hands, i, allow)
  }

  /** One of the first n entries lets in a hand and gives it user u. */
  predicate GivesUser(next: nat, known: set<nat>, hands: seq<Hand>, n: nat, allow: bool, u: nat)
    requires n <= |hands|
  {
    exists i | 0 <= i < n :: LetsIn(known, hands, i, allow) && UserGiven(next, known, hands, i, allow) == u
  }

  predicate LetsInId(known: set<nat>, hands: seq<Hand>, n: nat, allow: bool, id: nat)
    requires n <= |hands|
  {
    exists i | 0 <= i < n :: LetsIn(known, hands, i, allow) && hands[i].id == id
  }

  /** What the first n entries do, read off the entries. */
  lemma {:induction false} NewHandsExactly(b: Book, hands: seq<Hand>, n: nat, allow: bool)
    requires n <= |hands|
    ensures var d, known := AfterHands(b, hands[..n], allow), b.hands.Keys;
      && d.nextFake == b.nextFake + FakesGiven(known, hands, n, allow)
      && (forall h :: h in d.hands <==> h in known || LetsInId(known, hands, n, allow, h))
      && (forall i | 0 <= i < n && LetsIn(known, hands, i, allow) ::
            d.hands[hands[i].id] == UserGiven(b.nextFake, known, hands, i, allow))
      && (forall u :: u in d.users <==> u in b.users || GivesUser(b.nextFake, known, hands, n, allow, u))
  {
    hide LetsIn, GivesUser, LetsInId;
    var known := b.hands.Keys;
    if n > 0 {
      NewHandsExactly(b, hands, n - 1, allow);
      assert hands[..n][..n - 1] == hands[..n - 1];
      EntryLetsIn(AfterHands(b, hands[..n - 1], allow).hands.Keys, known, hands, n - 1, allow);
      GivenByOneMore(b.nextFake, known, hands, n - 1, allow);
      NewIdsDiffer(AfterHands(b, hands[..n - 1], allow).hands.Keys, known, hands, n - 1, allow);
    } else {
      NothingGiven(b.nextFake, known, hands, allow);
    }
  }

  lemma NothingGiven(next: nat, known: set<nat>, hands: seq<Hand>, allow: bool)
    ensures forall u :: !GivesUser(next, known, hands, 0, allow, u) && !LetsInId(known, hands, 0, allow, u)
  {
  }

  lemma NewIdsDiffer(now: set<nat>, known: set<nat>, hands: seq<Hand>, n: nat, allow: bool)
    requires n < |hands| && forall h :: h in now <==> h in known || LetsInId(known, hands, n, allow, h)
    ensures forall i | 0 <= i < n && LetsIn(known, hands, i, allow) :: hands[i].id in now
  {
  }

  /** Entry i adds its hand exactly if it lets it in. */
  lemma EntryLetsIn(now: set<nat>, known: set<nat>, hands: seq<Hand>, i: nat, allow: bool)
    requires i < |hands| && forall h :: h in now <==> h in known || LetsInId(known, hands, i, allow, h)
    ensures LetsIn(known, hands, i, allow) <==> hands[i].id !in now && Admitted(hands[i], allow)
  {
    if hands[i].id !in known && hands[i].id !in now && Admitted(hands[i], allow) && !LetsIn(known, hands, i, allow) {
      FirstAdmitted(known, hands, i, allow, hands[i].id);
    }
  }

  /** If an entry before i with an unknown id is admitted, then one of them lets the hand in. */
  lemma {:induction false} FirstAdmitted(known: set<nat>, hands: seq<Hand>, i: nat, allow: bool, id: nat)
    requires i <= |hands| && id !in known
    requires exists j | 0 <= j < i :: hands[j].id == id && Admitted(hands[j], allow)
    ensures LetsInId(known, hands, i, allow, id)
  {
    var j :| 0 <= j < i && hands[j].id == id && Admitted(hands[j], allow);
    if LetsIn(known, hands, j, allow) {
    } else {
      FirstAdmitted(known, hands, j, allow, id);
      var k :| 0 <= k < j && LetsIn(known, hands, k, allow) && hands[k].id == id;
    }
  }

  lemma GivenByOneMore(next: nat, known: set<nat>, hands: seq<Hand>, n: nat, allow: bool)
    requires n < |hands|
    ensures forall u :: GivesUser(next, known, hands, n + 1, allow, u) <==>
              || GivesUser(next, known, hands, n, allow, u)
              || (LetsIn(known, hands, n, allow) && UserGiven(next, known, hands, n, allow) == u)
    ensures forall id :: LetsInId(known, hands, n + 1, allow, id) <==>
              || LetsInId(known, hands, n, allow, id)
              || (LetsIn(known, hands, n, allow) && hands[n].id == id)
  {
    forall u ensures GivesUser(next, known, hands, n + 1, allow, u) <==>
                || GivesUser(next, known, hands, n, allow, u)
                || (LetsIn(known, hands, n, allow) && UserGiven(next, known, hands, n, allow) == u)
    {
      if GivesUser(next, known, hands, n + 1, allow, u) {
        var i :| 0 <= i < n + 1 && LetsIn(known, hands, i, allow) && UserGiven(next, known, hands, i, allow) == u;
        assert i == n || GivesUser(next, known, hands, n, allow, u);
      }
    }
    forall id ensures LetsInId(known, hands, n + 1, allow, id) <==>
                || LetsInId(known, hands, n, allow, id)
                || (LetsIn(known, hands, n, allow) && hands[n].id == id)
    {
      if LetsInId(known, hands, n + 1, allow, id) {
        var i :| 0 <= i < n + 1 && LetsIn(known, hands, i, allow) && hands[i].id == id;
        assert i == n || LetsInId(known, hands, n, allow, id);
      }
    }
  }

  /** Entries see the same known hands before and after the lost hands are dropped. */
  lemma {:induction false} KnownInFrame(b: Book, raw: seq<nat>, f: Frame, n: nat)
    requires n <= |f.hands|
    ensures var known, left := b.hands.Keys, BeforeNewHands(b, raw, f).hands.Keys;
      && FakesGiven(left, f.hands, n, f.allow) == FakesGiven(known, f.hands, n, f.allow)
      && (forall i | 0 <= i < n :: LetsIn(left, f.hands, i, f.allow) == LetsIn(known, f.hands, i, f.allow))
  {
    if n > 0 {
      KnownInFrame(b, raw, f, n - 1);
      assert f.hands[n - 1].id in HandIds(f.hands);
    }
  }

  /** The users tracked when the first n entries of a frame have been dealt with. */
  function Midway(b: Book, raw: seq<nat>, f: Frame, n: nat): Book
    requires n <= |f.hands|
  {
    AfterHands(BeforeNewHands(b, raw, f), f.hands[..n], f.allow)
  }

  lemma TrackedMidway(b: Book, raw: seq<nat>, f: Frame, n: nat, u: nat)
    requires n <= |f.hands|
    ensures var d := Midway(b, raw, f, n);
      && d.nextFake == b.nextFake + FakesGiven(b.hands.Keys, f.hands, n, f.allow)
      && (u in d.users <==>
            || u in f.users
            || (u in b.users && u !in raw && !LosesHand(b.hands, HandIds(f.hands), u))
            || GivesUser(b.nextFake, b.hands.Keys, f.hands, n, f.allow, u))
  {
    var c := BeforeNewHands(b, raw, f);
    NewHandsExactly(c, f.hands, n, f.allow);
    KnownInFrame(b, raw, f, n);
    SameGiven(b, c, f, n, u);
  }

  lemma SameGiven(b: Book, c: Book, f: Frame, n: nat, u: nat)
    requires n <= |f.hands| && b.nextFake == c.nextFake
    requires forall i | 0 <= i < n :: LetsIn(c.hands.Keys, f.hands, i, f.allow) == LetsIn(b.hands.Keys, f.hands, i, f.allow)
    ensures FakesGiven(c.hands.Keys, f.hands, n, f.allow) == FakesGiven(b.hands.Keys, f.hands, n, f.allow)
    ensures GivesUser(c.nextFake, c.hands.Keys, f.hands, n, f.allow, u) ==
            GivesUser(b.nextFake, b.hands.Keys, f.hands, n, f.allow, u)
  {
    forall i | 0 <= i <= n
      ensures FakesGiven(c.hands.Keys, f.hands, i, f.allow) == FakesGiven(b.hands.Keys, f.hands, i, f.allow)
    {
      SameFakes(c.hands.Keys, b.hands.Keys, f.hands, i, f.allow);
    }
    assert forall i | 0 <= i < n ::
      UserGiven(c.nextFake, c.hands.Keys, f.hands, i, f.allow) == UserGiven(b.nextFake, b.hands.Keys, f.hands, i, f.allow);
  }

  lemma {:induction false} SameFakes(known: set<nat>, other: set<nat>, hands: seq<Hand>, n: nat, allow: bool)
    requires n <= |hands| && forall i | 0 <= i < n :: LetsIn(known, hands, i, allow) == LetsIn(other, hands, i, allow)
    ensures FakesGiven(known, hands, n, allow) == FakesGiven(other, hands, n, allow)
  {
    if n > 0 { SameFakes(known, other, hands, n - 1, allow); }
  }

  /** The tracked users after a frame, read off the book before and the frame: those reported,
      those that were not reported before either and lose no hand, and those that an entry of
      the frame gives to a new hand. */
  lemma TrackedExactly(b: Book, raw: seq<nat>, f: Frame, u: nat)
    ensures u in NextBook(b, raw, f).users <==>
              || u in f.users
              || (u in b.users && u !in raw && !LosesHand(b.hands, HandIds(f.hands), u))
              || GivesUser(b.nextFake, b.hands.Keys, f.hands, |f.hands|, f.allow, u)
  {
    TrackedMidway(b, raw, f, |f.hands|, u);
    assert f.hands[..|f.hands|] == f.hands;
  }

  /** When the owner of a tracked hand is tracked after a frame: always for a hand new in the
      frame; for a hand kept from before exactly in three cases. */
  lemma OwnerTrackedExactly(b: Book, raw: seq<nat>, f: Frame, h: nat)
    requires h in NextBook(b, raw, f).hands
    ensures var d := NextBook(b, raw, f);
      if h in b.hands then
        var u := b.hands[h];
        && d.hands[h] == u
        && (u in d.users <==>
              || u in f.users
              || (u in b.users && u !in raw && !LosesHand(b.hands, HandIds(f.hands), u))
              || GivesUser(b.nextFake, b.hands.Keys, f.hands, |f.hands|, f.allow, u))
      else d.hands[h] in d.users
  {
    NewHandsOnlyAdd(BeforeNewHands(b, raw, f), f.hands, f.allow);
    if h in b.hands { TrackedExactly(b, raw, f, b.hands[h]); }
  }

  /** The tracked hands after a frame: some of those reported, all of them if hands of no user
      are let in, and otherwise at least those of a user. A hand keeps its owner. */
  lemma TrackedHands(b: Book, raw: seq<nat>, f: Frame)
    ensures var d := NextBook(b, raw, f);
      && d.hands.Keys <= HandIds(f.hands)
      && (f.allow ==> d.hands.Keys == HandIds(f.hands))
      && (forall h | h in f.hands && h.userid > 0 :: h.id in d.hands)
      && (forall h | h in b.hands && h in d.hands :: d.hands[h] == b.hands[h])
  {
    var c := BeforeNewHands(b, raw, f);
    NewHandsOnlyAdd(c, f.hands, f.allow);
  }

  // ----- who stays ------------------------------------------------------------------------

  /** A tracked user is lost in a frame that does not report it, if it was reported before or
      loses a hand. */
  predicate LosesUser(b: Book, raw: seq<nat>, f: Frame, u: nat) {
    u !in f.users && (u in raw || LosesHand(b.hands, HandIds(f.hands), u))
  }

  /** The users that are tracked throughout the frame. */
  function Staying(b: Book, raw: seq<nat>, f: Frame): set<nat> {
    set u | u in b.users && !LosesUser(b, raw, f, u)
  }

  lemma StayingIsBeforeNewHands(b: Book, raw: seq<nat>, f: Frame)
    ensures Staying(b, raw, f) == b.users * BeforeNewHands(b, raw, f).users
    ensures StillTracked(b.users, raw, f.users) == b.users * UsersAfter(b.users, raw, f.users)
    ensures Staying(b, raw, f) == StillTracked(b.users, raw, f.users) * BeforeNewHands(b, raw, f).users
    ensures Staying(b, raw, f) <= NextBook(b, raw, f).users
  {
    NewHandsOnlyAdd(BeforeNewHands(b, raw, f), f.hands, f.allow);
  }

  /** The tracked users that own a tracked hand: those in a session between frames. */
  function Holding(b: Book): set<nat> {
    set u | u in b.users && Owns(b.hands, u)
  }

  // ----- all runs -----------------------------------------------------------------------

  /** The book after a run of frames from the start. */
  function Run(frames: seq<Frame>): Book
    decreases |frames|
  {
    if frames == [] then Book({}, map[], FIRST_FAKE)
    else
      var front := frames[..|frames| - 1];
      NextBook(Run(front), LastUsers(front), frames[|frames| - 1])
  }

  function LastUsers(frames: seq<Frame>): seq<nat> {
    if frames == [] then [] else frames[|frames| - 1].users
  }

  lemma RunExtends(frames: seq<Frame>, f: Frame)
    ensures Run(frames + [f]) == NextBook(Run(frames), LastUsers(frames), f) && LastUsers(frames + [f]) == f.users
  {
  }

  /** Every tracked user was reported in the last frame or owns a tracked hand. */
  predicate Grounded(b: Book, raw: seq<nat>) {
    forall u | u in b.users :: u in raw || Owns(b.hands, u)
  }

  predicate Owns(owners: map<nat, nat>, u: nat) {
    exists h | h in owners :: owners[h] == u
  }

  lemma StaysGrounded(b: Book, raw: seq<nat>, f: Frame)
    requires Grounded(b, raw)
    ensures Grounded(NextBook(b, raw, f), f.users)
  {
    var d := NextBook(b, raw, f);
    NewHandsOnlyAdd(BeforeNewHands(b, raw, f), f.hands, f.allow);
    forall u | u in d.users ensures u in f.users || Owns(d.hands, u) {
      TrackedExactly(b, raw, f, u);
      if u !in f.users && u in b.users && u !in raw && !LosesHand(b.hands, HandIds(f.hands), u) {
        var h :| h in b.hands && b.hands[h] == u;
        assert d.hands[h] == u;
      }
    }
  }

  lemma {:induction false} RunsAreGrounded(frames: seq<Frame>)
    ensures Grounded(Run(frames), LastUsers(frames))
    ensures forall u | u in LastUsers(frames) :: u in Run(frames).users
    decreases |frames|
  {
    if frames != [] {
      var front, f := frames[..|frames| - 1], frames[|frames| - 1];
      RunsAreGrounded(front);
      StaysGrounded(Run(front), LastUsers(front), f);
      forall u | u in f.users ensures u in Run(frames).users {
        TrackedExactly(Run(front), LastUsers(front), f, u);
      }
    }
  }

  /** A real user can vanish while its hand stays: the hand then belongs to an untracked id. */
  lemma HandOutlivesUser()
    ensures var hand := Hand(7, 1, 0);
      var b := Run([Frame([1], [hand], true), Frame([], [hand], true)]);
      b.hands == map[7 := 1] && b.users == {}
  {
    var hand := Hand(7, 1, 0);
    var first, second := Frame([1], [hand], true), Frame([], [hand], true);
    var frames := [first, second];
    assert frames[..1] == [first] && frames[..1][..0] == [] && [hand][..0] == [];
    var b := NextBook(Run([]), [], first);
    assert AfterHands(BeforeNewHands(Run([]), [], first), [], true) == Book({1}, map[], FIRST_FAKE);
    assert Run([first]) == b == Book({1}, map[7 := 1], FIRST_FAKE);
    var c := BeforeNewHands(b, [1], second);
    assert c == Book({}, map[7 := 1], FIRST_FAKE);
    assert AfterHands(c, [], true) == c;
  }

  /** When one of two hands of an unreported user goes, the user goes with it, and the other
      hand is left with an untracked id. */
  lemma UserGoesWithOneOfTwoHands()
    ensures var left, right := Hand(7, 1, 0), Hand(8, 1, 0);
      && Run([Frame([], [left, right], true)]) == Book({1}, map[7 := 1, 8 := 1], FIRST_FAKE)
      && Run([Frame([], [left, right], true), Frame([], [left], true)]) == Book({}, map[7 := 1], FIRST_FAKE)
  {
    var left, right := Hand(7, 1, 0), Hand(8, 1, 0);
    var first, second := Frame([], [left, right], true), Frame([], [left], true);
    var frames := [first, second];
    assert frames[..1] == [first] && frames[..1][..0] == [];
    assert [left, right][..1] == [left] && [left][..0] == [];
    var b := NextBook(Run([]), [], first);
    var start := BeforeNewHands(Run([]), [], first);
    assert start == Book({}, map[], FIRST_FAKE) && AfterHands(start, [], true) == start;
    assert AfterHands(start, [left], true) == Book({1}, map[7 := 1], FIRST_FAKE);
    assert Run([first]) == b == Book({1}, map[7 := 1, 8 := 1], FIRST_FAKE);
    var c := BeforeNewHands(b, [], second);
    assert 8 in b.hands && b.hands[8] == 1 && 8 !in HandIds([left]);
    assert c == Book({}, map[7 := 1], FIRST_FAKE);
    assert AfterHands(c, [], true) == c;
  }

  // ----- fake users ---------------------------------------------------------------------

  /** How many hands of no user were let in during a run. */
  function HandsOfNoUser(frames: seq<Frame>): nat
    decreases |frames|
  {
    if frames == [] then 0
    else
      var front, f := frames[..|frames| - 1], frames[|frames| - 1];
      HandsOfNoUser(front) + FakesGiven(Run(front).hands.Keys, f.hands, |f.hands|, f.allow)
  }

  /** The fake ids are given out in order, one for every hand of no user that is let in. */
  lemma {:induction false} NextFakeCounts(frames: seq<Frame>)
    ensures Run(frames).nextFake == FIRST_FAKE + HandsOfNoUser(frames)
    decreases |frames|
  {
    if frames != [] {
      var front, f := frames[..|frames| - 1], frames[|frames| - 1];
      NextFakeCounts(front);
      TrackedMidway(Run(front), LastUsers(front), f, |f.hands|, 0);
      assert f.hands[..|f.hands|] == f.hands;
    }
  }

  /** A hand of no user is given the number FIRST_FAKE plus the count of such hands so far. It
      lands on a user that is tracked already exactly if that number is reported in the frame, or
      is a user kept from before the frame, or is named by an earlier entry that lets a hand in. */
  lemma CollidesExactly(frames: seq<Frame>, f: Frame, i: nat)
    requires i < |f.hands| && LetsIn(Run(frames).hands.Keys, f.hands, i, f.allow) && f.hands[i].userid <= 0
    ensures var b, raw := Run(frames), LastUsers(frames);
      var known := b.hands.Keys;
      var x := FIRST_FAKE + HandsOfNoUser(frames) + FakesGiven(known, f.hands, i, f.allow);
      && f.hands[i].id in NextBook(b, raw, f).hands && NextBook(b, raw, f).hands[f.hands[i].id] == x
      && (x in Midway(b, raw, f, i).users <==>
            || x in f.users
            || (x in b.users && x !in raw && !LosesHand(b.hands, HandIds(f.hands), x))
            || (exists j | 0 <= j < i :: LetsIn(known, f.hands, j, f.allow) && f.hands[j].userid == x))
  {
    hide Run, LetsIn, FakesGiven, LosesHand, GivesUser, HandsOfNoUser, Midway, NextBook;
    var b, raw := Run(frames), LastUsers(frames);
    NextFakeCounts(frames);
    TrackedMidway(b, raw, f, i, b.nextFake + FakesGiven(b.hands.Keys, f.hands, i, f.allow));
    NumberGiven(b, raw, f, i);
    NamedForNumber(b.nextFake, b.hands.Keys, f.hands, i, f.allow);
  }

  /** The hand that entry i lets in has the user given after the frame. */
  lemma NumberGiven(b: Book, raw: seq<nat>, f: Frame, i: nat)
    requires i < |f.hands| && LetsIn(b.hands.Keys, f.hands, i, f.allow)
    ensures var d := NextBook(b, raw, f);
      f.hands[i].id in d.hands && d.hands[f.hands[i].id] == UserGiven(b.nextFake, b.hands.Keys, f.hands, i, f.allow)
  {
    hide LetsIn, FakesGiven;
    var c := BeforeNewHands(b, raw, f);
    NewHandsExactly(c, f.hands, |f.hands|, f.allow);
    KnownInFrame(b, raw, f, |f.hands|);
    KnownInFrame(b, raw, f, i);
    assert f.hands[..|f.hands|] == f.hands;
  }

  /** The number due to entry i is given by an earlier entry only if that entry names it. */
  lemma NamedForNumber(next: nat, known: set<nat>, hands: seq<Hand>, i: nat, allow: bool)
    requires i < |hands|
    ensures var x := next + FakesGiven(known, hands, i, allow);
      GivesUser(next, known, hands, i, allow, x) <==>
        exists j | 0 <= j < i :: LetsIn(known, hands, j, allow) && hands[j].userid == x && x > 0
  {
    hide LetsIn, FakesGiven;
    forall j | 0 <= j < i && LetsIn(known, hands, j, allow) && hands[j].userid <= 0
      ensures FakesGiven(known, hands, j, allow) < FakesGiven(known, hands, i, allow)
    {
      FakesGivenGrow(known, hands, j, i, allow);
    }
  }

  /** Each hand of no user gets a larger number than those before it. */
  lemma {:induction false} FakesGivenGrow(known: set<nat>, hands: seq<Hand>, j: nat, n: nat, allow: bool)
    requires j < n <= |hands| && LetsIn(known, hands, j, allow) && hands[j].userid <= 0
    ensures FakesGiven(known, hands, j, allow) < FakesGiven(known, hands, n, allow)
    decreases n
  {
    hide LetsIn;
    if j < n - 1 { FakesGivenGrow(known, hands, j, n - 1, allow); }
  }

  /** No user id that the frame reports or names is a fake number below n. */
  predicate Clear(f: Frame, n: nat) {
    && (forall u | u in f.users :: !(FIRST_FAKE <= u < n))
    && (forall h | h in f.hands :: !(FIRST_FAKE <= h.userid < n))
  }

  /** The fake users below n and the hands that made them are in bijection. */
  predicate FakesPaired(b: Book, n: nat) {
    && FIRST_FAKE <= b.nextFake <= n
    && (forall u | u in b.users && FIRST_FAKE <= u < n :: u < b.nextFake && Owns(b.hands, u))
    && (forall h | h in b.hands && FIRST_FAKE <= b.hands[h] < n :: b.hands[h] in b.users)
    && (forall h, g | h in b.hands && g in b.hands && FIRST_FAKE <= b.hands[h] == b.hands[g] < n :: h == g)
  }

  lemma NewHandKeepsPairing(c: Book, hand: Hand, allow: bool, n: nat)
    requires FakesPaired(c, n) && !(FIRST_FAKE <= hand.userid < n) && AfterHand(c, hand, allow).nextFake <= n
    ensures FakesPaired(AfterHand(c, hand, allow), n)
  {
    var d := AfterHand(c, hand, allow);
    if d != c {
      var owner := d.hands[hand.id];
      forall u | u in d.users && FIRST_FAKE <= u < n ensures u < d.nextFake && Owns(d.hands, u) {
        if u == owner {
          assert d.hands[hand.id] == u;
        } else {
          var h :| h in c.hands && c.hands[h] == u;
          assert d.hands[h] == u;
        }
      }
      forall h, g | h in d.hands && g in d.hands && FIRST_FAKE <= d.hands[h] == d.hands[g] < n ensures h == g {
        if h == hand.id || g == hand.id {
          assert owner == c.nextFake;
        }
      }
    }
  }

  lemma {:induction false} NewHandsKeepPairing(b: Book, hands: seq<Hand>, allow: bool, n: nat)
    requires FakesPaired(b, n) && AfterHands(b, hands, allow).nextFake <= n
    requires forall h | h in hands :: !(FIRST_FAKE <= h.userid < n)
    ensures FakesPaired(AfterHands(b, hands, allow), n)
    decreases |hands|
  {
    if hands != [] {
      var front, hand := hands[..|hands| - 1], hands[|hands| - 1];
      assert forall h | h in front :: h in hands;
      NewHandsKeepPairing(b, front, allow, n);
      NewHandKeepsPairing(AfterHands(b, front, allow), hand, allow, n);
    }
  }

  lemma LostHandsKeepPairing(b: Book, raw: seq<nat>, f: Frame, n: nat)
    requires FakesPaired(b, n) && Clear(f, n) && forall u | u in raw :: !(FIRST_FAKE <= u < n)
    ensures FakesPaired(BeforeNewHands(b, raw, f), n)
  {
    var c := BeforeNewHands(b, raw, f);
    forall u | u in c.users && FIRST_FAKE <= u < n ensures Owns(c.hands, u) {
      var h :| h in b.hands && b.hands[h] == u;
      assert h in HandIds(f.hands);
      assert c.hands[h] == u;
    }
  }

  /** As long as no reported id is a number given out in the run, fake users and the hands that
      made them are in bijection. */
  lemma {:induction false} RunsPairFakes(frames: seq<Frame>, n: nat)
    requires Run(frames).nextFake <= n && forall f | f in frames :: Clear(f, n)
    ensures FakesPaired(Run(frames), n)
    decreases |frames|
  {
    if frames != [] {
      var front, f := frames[..|frames| - 1], frames[|frames| - 1];
      assert forall g | g in front :: g in frames;
      assert f in frames;
      NewHandsOnlyAdd(BeforeNewHands(Run(front), LastUsers(front), f), f.hands, f.allow);
      RunsPairFakes(front, n);
      assert front != [] ==> front[|front| - 1] in front;
      LostHandsKeepPairing(Run(front), LastUsers(front), f, n);
      NewHandsKeepPairing(BeforeNewHands(Run(front), LastUsers(front), f), f.hands, f.allow, n);
    }
  }

  /** All reported user ids lie below the range of the fake ones. */
  predicate SmallIds(f: Frame) {
    && (forall u | u in f.users :: u < FIRST_FAKE)
    && (forall h | h in f.hands :: h.userid < FIRST_FAKE)
  }

  /** In particular for ids below the range of the fake ones. */
  lemma SmallIdsPairFakes(frames: seq<Frame>)
    requires forall f | f in frames :: SmallIds(f)
    ensures forall n | n >= Run(frames).nextFake :: FakesPaired(Run(frames), n)
  {
    forall n | n >= Run(frames).nextFake ensures FakesPaired(Run(frames), n) {
      RunsPairFakes(frames, n);
    }
  }

  /** The frame reports user u or names it for a hand. */
  predicate Names(f: Frame, u: nat) {
    u in f.users || exists h | h in f.hands :: h.userid == u
  }

  /** A number that was given out, or skipped, and is not tracked is tracked again only when a
      frame names it. */
  lemma {:induction false} FakesAreNotReused(frames: seq<Frame>, n: nat, u: nat)
    requires n <= |frames| && u < Run(frames[..n]).nextFake && u !in Run(frames[..n]).users
    requires forall k | n <= k < |frames| :: !Names(frames[k], u)
    ensures u !in Run(frames).users && u < Run(frames).nextFake
    decreases |frames|
  {
    if n == |frames| {
      assert frames[..n] == frames;
    } else {
      var front, f := frames[..|frames| - 1], frames[|frames| - 1];
      assert front[..n] == frames[..n];
      FakesAreNotReused(front, n, u);
      var b := Run(front);
      assert !Names(f, u);
      TrackedExactly(b, LastUsers(front), f, u);
      NewHandsOnlyAdd(BeforeNewHands(b, LastUsers(front), f), f.hands, f.allow);
      assert forall h | h in f.hands :: h.userid != u;
    }
  }

  /** Once real ids reach the fake range, a hand of no user can land on a real user. */
  lemma FakesCanCollide()
    ensures var b := Run([Frame([FIRST_FAKE], [Hand(7, 0, 0)], true)]);
      b.users == {FIRST_FAKE} && b.hands == map[7 := FIRST_FAKE]
  {
  }

  // ----- events -------------------------------------------------------------------------

  datatype UserEvent = New(user: nat) | Lost(user: nat)

  /** The events account for the tracked users: only untracked users appear, only tracked ones go. */
  predicate Accounts(log: seq<UserEvent>, users: set<nat>)
    decreases |log|
  {
    if log == [] then users == {}
    else
      var front := log[..|log| - 1];
      match log[|log| - 1]
      case New(u) => u in users && Accounts(front, users - {u})
      case Lost(u) => u !in users && Accounts(front, users + {u})
  }

  function About(log: seq<UserEvent>, u: nat): seq<UserEvent>
    decreases |log|
  {
    if log == [] then []
    else About(log[..|log| - 1], u) + (if log[|log| - 1].user == u then [log[|log| - 1]] else [])
  }

  /** The events of each user alternate, starting with new; it is tracked while the last is new. */
  lemma {:induction false} EventsAlternate(log: seq<UserEvent>, users: set<nat>, u: nat)
    requires Accounts(log, users)
    ensures var mine := About(log, u);
      && (forall i | 0 <= i < |mine| :: mine[i] == if i % 2 == 0 then New(u) else Lost(u))
      && (u in users <==> |mine| % 2 == 1)
    decreases |log|
  {
    if log != [] {
      var last := log[|log| - 1];
      var before := if last.New? then users - {last.user} else users + {last.user};
      EventsAlternate(log[..|log| - 1], before, u);
    }
  }

  /** Who goes in a step is announced as lost. */
  ghost predicate Dropped(before: set<nat>, now: set<nat>, log: seq<UserEvent>, logNow: seq<UserEvent>) {
    && now <= before
    && forall u :: About(logNow, u) == About(log, u) + if u in before && u !in now then [Lost(u)] else []
  }

  /** Who comes in a step is announced as new. */
  ghost predicate Came(before: set<nat>, now: set<nat>, log: seq<UserEvent>, logNow: seq<UserEvent>) {
    && before <= now
    && forall u :: About(logNow, u) == About(log, u) + if u in now && u !in before then [New(u)] else []
  }

  /** Some go and are announced, then some come and are. */
  ghost predicate Exchanged(before: set<nat>, left: set<nat>, now: set<nat>, log: seq<UserEvent>, logNow: seq<UserEvent>) {
    exists l :: Dropped(before, left, log, l) && Came(left, now, l, logNow)
  }

  lemma DroppedOn(k0: set<nat>, k1: set<nat>, k2: set<nat>, l0: seq<UserEvent>, l1: seq<UserEvent>, l2: seq<UserEvent>)
    requires Dropped(k0, k1, l0, l1) && Dropped(k1, k2, l1, l2)
    ensures Dropped(k0, k2, l0, l2)
  {
  }

  lemma CameOn(k0: set<nat>, k1: set<nat>, k2: set<nat>, l0: seq<UserEvent>, l1: seq<UserEvent>, l2: seq<UserEvent>)
    requires Came(k0, k1, l0, l1) && Came(k1, k2, l1, l2)
    ensures Came(k0, k2, l0, l2)
  {
  }

  lemma OneGoes(k: set<nat>, u: nat, log: seq<UserEvent>)
    requires u in k
    ensures Dropped(k, k - {u}, log, log + [Lost(u)]) && Dropped(k, k, log, log)
  {
    assert (log + [Lost(u)])[..|log|] == log;
  }

  lemma OneComes(k: set<nat>, u: nat, log: seq<UserEvent>)
    requires u !in k
    ensures Came(k, k + {u}, log, log + [New(u)])
  {
    assert (log + [New(u)])[..|log|] == log;
  }

  lemma NobodyMoves(k: set<nat>, log: seq<UserEvent>)
    ensures Dropped(k, k, log, log) && Came(k, k, log, log)
  {
  }

  /** What a frame announces of one user: that it is lost if it was tracked and does not stay, and
      then that it is new if it is tracked afterwards without having stayed. */
  function Announced(b: Book, raw: seq<nat>, f: Frame, u: nat): seq<UserEvent> {
    var stays := u in Staying(b, raw, f);
    (if u in b.users && !stays then [Lost(u)] else []) +
    (if u in NextBook(b, raw, f).users && !stays then [New(u)] else [])
  }

  ghost predicate Announces(b: Book, raw: seq<nat>, f: Frame, log: seq<UserEvent>, logNow: seq<UserEvent>) {
    forall u :: About(logNow, u) == About(log, u) + Announced(b, raw, f, u)
  }

  /** The steps of a frame announce exactly this. */
  lemma FrameAnnounces(b: Book, raw: seq<nat>, f: Frame, log: seq<UserEvent>, mid: seq<UserEvent>, now: seq<UserEvent>)
    requires Exchanged(b.users, StillTracked(b.users, raw, f.users), UsersAfter(b.users, raw, f.users), log, mid)
    requires Exchanged(UsersAfter(b.users, raw, f.users), BeforeNewHands(b, raw, f).users, NextBook(b, raw, f).users, mid, now)
    ensures Announces(b, raw, f, log, now)
  {
    hide About;
    StayingIsBeforeNewHands(b, raw, f);
    var l :| Dropped(b.users, StillTracked(b.users, raw, f.users), log, l)
             && Came(StillTracked(b.users, raw, f.users), UsersAfter(b.users, raw, f.users), l, mid);
    var m :| Dropped(UsersAfter(b.users, raw, f.users), BeforeNewHands(b, raw, f).users, mid, m)
             && Came(BeforeNewHands(b, raw, f).users, NextBook(b, raw, f).users, m, now);
  }

  /** What a run announces of one user. */
  function Story(frames: seq<Frame>, u: nat): seq<UserEvent>
    decreases |frames|
  {
    if frames == [] then []
    else
      var front := frames[..|frames| - 1];
      Story(front, u) + Announced(Run(front), LastUsers(front), frames[|frames| - 1], u)
  }

  /** The log says of every user what the run announces. */
  ghost predicate Tells(log: seq<UserEvent>, frames: seq<Frame>) {
    forall u :: About(log, u) == Story(frames, u)
  }

  lemma TellsOneMore(log: seq<UserEvent>, now: seq<UserEvent>, frames: seq<Frame>, f: Frame)
    requires Tells(log, frames) && Announces(Run(frames), LastUsers(frames), f, log, now)
    ensures Tells(now, frames + [f])
  {
    hide About, Announced, Run;
    assert (frames + [f])[..|frames|] == frames;
  }
}
