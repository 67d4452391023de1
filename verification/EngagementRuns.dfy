/** Who is engaged over a run of frames, read off the frames alone. */
module EngagementRuns {
  import opened Engagement
  import opened Tracking

  // ----- one frame ------------------------------------------------------------------------

  /** The engaged id after users came and went. */
  function Kept(lasting: set<nat>, was: nat): nat {
    if was in lasting then was else 0
  }

  /** The least element, or 0 if there is none. */
  ghost predicate IsLeast(s: set<nat>, x: nat) {
    if s == {} then x == 0 else x in s && forall y | y in s :: x <= y
  }

  lemma {:induction false} SomeLeast(s: set<nat>) returns (x: nat)
    requires s != {}
    ensures IsLeast(s, x)
  {
    x :| x in s;
    var rest := s - {x};
    if rest != {} {
      var z := SomeLeast(rest);
      if z < x { x := z; }
    }
    assert forall y | y in s :: y in rest || y in s - rest;
  }

  lemma LeastExists(s: set<nat>)
    ensures exists x: nat :: IsLeast(s, x)
  {
    if s == {} {
      assert IsLeast(s, 0);
    } else {
      var x := SomeLeast(s);
    }
  }

  ghost function Least(s: set<nat>): (x: nat)
    ensures IsLeast(s, x)
  {
    LeastExists(s);
    var x: nat :| IsLeast(s, x);
    x
  }

  function Later(s: set<nat>, was: nat): set<nat> {
    set j | j in s && j > was
  }

  /** Who is engaged when all users have noticed their hands: an engaged user stays engaged while
      it has hands; otherwise the first user to join whose turn comes after that of the engaged
      user, if there was one. */
  ghost predicate Engages(was: nat, holding: set<nat>, joining: set<nat>, now: nat) {
    if was != 0 && was in holding then now == was else IsLeast(Later(joining, was), now)
  }

  function EngagementEvents(was: nat, now: nat, focus: int): seq<Event> {
    (if was != 0 && now != was then [Disengaged(was)] else []) +
    (if now != 0 && now != was then [Engaged(now, focus)] else [])
  }

  /** What happens to engagement in a frame: the engaged user may be lost; then the user that is
      still engaged may end its session; then another may be engaged. */
  function FrameEvents(was: nat, kept: nat, now: nat, focus: int): seq<Event> {
    (if was != kept then [LostEngaged(was)] else []) + EngagementEvents(kept, now, focus)
  }

  /** The engaged id after a frame: of the users with hands, the engaged one if it is not lost and
      still has one; else the least that joins a session, after the engaged one if it is not lost. */
  ghost function NextEngaged(b: Book, raw: seq<nat>, f: Frame, was: nat): (now: nat)
    ensures Engages(Kept(Staying(b, raw, f), was), Holding(NextBook(b, raw, f)),
                    Holding(NextBook(b, raw, f)) - Holding(b) * Staying(b, raw, f), now)
  {
    var kept, holding := Kept(Staying(b, raw, f), was), Holding(NextBook(b, raw, f));
    if kept != 0 && kept in holding then kept
    else Least(Later(holding - Holding(b) * Staying(b, raw, f), kept))
  }

  /** The rule determines the engaged id. */
  lemma EngagesOne(was: nat, holding: set<nat>, joining: set<nat>, x: nat, y: nat)
    requires Engages(was, holding, joining, x) && Engages(was, holding, joining, y)
    ensures x == y
  {
  }

  // ----- all runs ---------------------------------------------------------------------------

  /** Who is engaged after a run. */
  ghost function EngagedAfter(frames: seq<Frame>): nat
    decreases |frames|
  {
    if frames == [] then 0
    else
      var front := frames[..|frames| - 1];
      NextEngaged(Run(front), LastUsers(front), frames[|frames| - 1], EngagedAfter(front))
  }

  /** Who of the engaged user and nobody is left before the users of frame k notice their hands. */
  ghost function KeptIn(frames: seq<Frame>, k: nat): nat
    requires k < |frames|
  {
    Kept(Staying(Run(frames[..k]), LastUsers(frames[..k]), frames[k]), EngagedAfter(frames[..k]))
  }

  /** What happens to engagement in frame k, up to the focus point. */
  ghost function EventsIn(frames: seq<Frame>, k: nat): seq<Event>
    requires k < |frames|
  {
    FrameEvents(EngagedAfter(frames[..k]), KeptIn(frames, k), EngagedAfter(frames[..k + 1]), 0)
  }

  /** What happens to engagement over a run, up to the focus points. */
  ghost function Engagements(frames: seq<Frame>): seq<Event>
    decreases |frames|
  {
    if frames == [] then []
    else Engagements(frames[..|frames| - 1]) + EventsIn(frames, |frames| - 1)
  }

  /** Events without their focus points. */
  function Plain(h: seq<Event>): (p: seq<Event>)
    ensures |p| == |h|
  {
    seq(|h|, i requires 0 <= i < |h| => if h[i].Engaged? then Engaged(h[i].user, 0) else h[i])
  }

  /** The engaged user is lost in frame k: the frame does not report it, and it was reported
      before or loses a hand. */
  ghost predicate LosesEngaged(frames: seq<Frame>, k: nat)
    requires k < |frames|
  {
    var u := EngagedAfter(frames[..k]);
    u != 0 && LosesUser(Run(frames[..k]), LastUsers(frames[..k]), frames[k], u)
  }

  /** Frame k engages a user. */
  ghost predicate EngagesIn(frames: seq<Frame>, k: nat)
    requires k < |frames|
  {
    var now := EngagedAfter(frames[..k + 1]);
    now != 0 && now != KeptIn(frames, k)
  }

  /** Nobody is engaged, and the last that was has been lost. */
  ghost predicate LeftOn(frames: seq<Frame>)
    decreases |frames|
  {
    frames != [] && EngagedAfter(frames) == 0 &&
    var front := frames[..|frames| - 1];
    if EngagedAfter(front) != 0 then LosesEngaged(frames, |frames| - 1) else LeftOn(front)
  }

  /** Frame k engages a user after a loss, in the frame or before, and no engagement since. */
  ghost predicate Abrupt(frames: seq<Frame>, k: nat)
    requires k < |frames|
  {
    EngagesIn(frames, k) && (LosesEngaged(frames, k) || LeftOn(frames[..k]))
  }

  // ----- what the frames say of brackets ------------------------------------------------------

  lemma EngagedAfterOneMore(frames: seq<Frame>, f: Frame)
    ensures EngagedAfter(frames + [f]) == NextEngaged(Run(frames), LastUsers(frames), f, EngagedAfter(frames))
    ensures Engagements(frames + [f]) ==
              Engagements(frames) + FrameEvents(EngagedAfter(frames), Kept(Staying(Run(frames), LastUsers(frames), f), EngagedAfter(frames)),
                                                EngagedAfter(frames + [f]), 0)
  {
    assert (frames + [f])[..|frames|] == frames && (frames + [f])[..|frames| + 1] == frames + [f];
  }

  /** The engaged user is tracked. */
  lemma {:induction false} EngagedIsTracked(frames: seq<Frame>)
    ensures EngagedAfter(frames) != 0 ==> EngagedAfter(frames) in Run(frames).users
    decreases |frames|
  {
    if frames != [] {
      var front := frames[..|frames| - 1];
      EngagedIsTracked(front);
    }
  }

  lemma KeptExactly(frames: seq<Frame>, k: nat)
    requires k < |frames|
    ensures KeptIn(frames, k) == if LosesEngaged(frames, k) then 0 else EngagedAfter(frames[..k])
  {
    EngagedIsTracked(frames[..k]);
  }

  /** A frame loses the engaged user exactly if it does not report it and it was reported before
      or loses a hand. */
  lemma LostExactly(frames: seq<Frame>, k: nat, u: nat)
    requires k < |frames|
    ensures var b, raw, f := Run(frames[..k]), LastUsers(frames[..k]), frames[k];
      LostEngaged(u) in EventsIn(frames, k) <==>
        && u == EngagedAfter(frames[..k]) != 0
        && u !in f.users && (u in raw || LosesHand(b.hands, HandIds(f.hands), u))
  {
    KeptExactly(frames, k);
  }

  lemma OneFrameMore(frames: seq<Frame>)
    requires frames != []
    ensures var front, k := frames[..|frames| - 1], |frames| - 1;
      && Engagements(frames) == Engagements(front) + EventsIn(frames, k)
      && frames[..k] == front && frames[..k + 1] == frames
      && LeftOn(frames) == (EngagedAfter(frames) == 0 && if EngagedAfter(front) != 0 then LosesEngaged(frames, k) else LeftOn(front))
  {
  }

  /** The shared controls are on exactly while somebody is engaged or the last was lost. */
  lemma {:induction false} OnExactly(frames: seq<Frame>)
    ensures On(Engagements(frames)) <==> EngagedAfter(frames) != 0 || LeftOn(frames)
    decreases |frames|
  {
    if frames != [] {
      var front, k := frames[..|frames| - 1], |frames| - 1;
      OneFrameMore(frames);
      hide *;
      OnExactly(front);
      LastFrame(frames);
      OnAfter(Engagements(front), EventsIn(frames, k));
      EventsEnd(EngagedAfter(front), KeptIn(frames, k), EngagedAfter(frames));
    }
  }

  lemma OnAfter(h: seq<Event>, es: seq<Event>)
    ensures On(h + es) == if es == [] then On(h) else !es[|es| - 1].Disengaged?
  {
    if es == [] { assert h + es == h; }
  }

  /** The last event is a loss exactly if the shared controls were left on. */
  lemma {:induction false} LossIsLast(frames: seq<Frame>)
    ensures LastIsLoss(Engagements(frames)) <==> LeftOn(frames)
    decreases |frames|
  {
    if frames != [] {
      var front, k := frames[..|frames| - 1], |frames| - 1;
      OneFrameMore(frames);
      hide *;
      LossIsLast(front);
      LastFrame(frames);
      LastOf(Engagements(front), EventsIn(frames, k));
      EventsEnd(EngagedAfter(front), KeptIn(frames, k), EngagedAfter(frames));
    }
  }

  predicate LastIsLoss(h: seq<Event>) {
    h != [] && h[|h| - 1].LostEngaged?
  }

  lemma LastOf(h: seq<Event>, es: seq<Event>)
    ensures LastIsLoss(h + es) == LastIsLoss(if es == [] then h else es)
  {
    if es == [] { assert h + es == h; }
  }

  /** No frame after the first n engages abruptly. */
  ghost predicate NoneAbrupt(frames: seq<Frame>, n: nat) {
    forall k | n <= k < |frames| :: !Abrupt(frames, k)
  }

  /** The events after the first n frames are bracketed with what went before exactly if none of
      the later frames engages abruptly. */
  lemma {:induction false} BracketedExactly(frames: seq<Frame>, n: nat)
    requires n <= |frames|
    ensures |Engagements(frames[..n])| <= |Engagements(frames)|
    ensures Bracketed(Engagements(frames), |Engagements(frames[..n])|) <==> NoneAbrupt(frames, n)
    decreases |frames|
  {
    hide *;
    if n == |frames| {
      assert frames[..n] == frames;
      NothingAfter(frames);
    } else {
      OneFrameMore(frames);
      OneMoreAbrupt(frames, n);
      var front := frames[..|frames| - 1];
      assert front[..n] == frames[..n];
      BracketedExactly(front, n);
      BracketedByFrame(frames, |Engagements(front[..n])|);
    }
  }

  lemma NothingAfter(frames: seq<Frame>)
    ensures Bracketed(Engagements(frames), |Engagements(frames)|) && NoneAbrupt(frames, |frames|)
  {
  }

  lemma OneMoreAbrupt(frames: seq<Frame>, n: nat)
    requires n < |frames|
    ensures NoneAbrupt(frames, n) == (NoneAbrupt(frames[..|frames| - 1], n) && !Abrupt(frames, |frames| - 1))
  {
    hide Abrupt;
    var front, k := frames[..|frames| - 1], |frames| - 1;
    forall j | n <= j < k ensures Abrupt(front, j) == Abrupt(frames, j) {
      SamePrefixes(frames, front, j);
    }
  }

  /** The last frame in terms of who was engaged, who was kept and who is engaged now. */
  lemma LastFrame(frames: seq<Frame>)
    requires frames != []
    ensures var front, k := frames[..|frames| - 1], |frames| - 1;
      var was, now := EngagedAfter(front), EngagedAfter(frames);
      && KeptIn(frames, k) == (if LosesEngaged(frames, k) then 0 else was)
      && EventsIn(frames, k) == FrameEvents(was, KeptIn(frames, k), now, 0)
      && EngagesIn(frames, k) == (now != 0 && now != KeptIn(frames, k))
      && Abrupt(frames, k) == (EngagesIn(frames, k) && (LosesEngaged(frames, k) || LeftOn(front)))
      && (LosesEngaged(frames, k) ==> was != 0) && (LeftOn(front) ==> was == 0)
      && LeftOn(frames) == (now == 0 && if was != 0 then LosesEngaged(frames, k) else LeftOn(front))
  {
    OneFrameMore(frames);
    KeptExactly(frames, |frames| - 1);
  }

  /** What the last of the events of a frame tells. */
  lemma EventsEnd(was: nat, kept: nat, now: nat)
    requires kept == 0 || kept == was
    ensures var es := FrameEvents(was, kept, now, 0);
      && (es == [] <==> was == kept == now)
      && (es != [] ==> !es[|es| - 1].Disengaged? == (now != 0 || kept == 0))
      && (LastIsLoss(es) <==> was != 0 && kept == 0 && now == 0)
  {
  }

  lemma FrameBrackets(was: nat, kept: nat, now: nat, lost: bool, left: bool)
    requires kept == (if lost then 0 else was) && (lost ==> was != 0) && (left ==> was == 0)
    ensures var es := FrameEvents(was, kept, now, 0);
      (es != [] ==> !left) && (forall i | 0 <= i < |es| - 1 :: !es[i].LostEngaged?) <==>
        !(now != 0 && now != kept && (lost || left))
  {
    var es := FrameEvents(was, kept, now, 0);
    if lost && now != 0 {
      assert es[0].LostEngaged?;
    }
  }

  lemma BracketedByFrame(frames: seq<Frame>, since: nat)
    requires frames != [] && since <= |Engagements(frames[..|frames| - 1])|
    ensures Bracketed(Engagements(frames), since) <==>
              Bracketed(Engagements(frames[..|frames| - 1]), since) && !Abrupt(frames, |frames| - 1)
  {
    var front, k := frames[..|frames| - 1], |frames| - 1;
    LossIsLast(front);
    OneFrameMore(frames);
    LastFrame(frames);
    hide *;
    BracketedByEvents(Engagements(front), EventsIn(frames, k), since);
    FrameBrackets(EngagedAfter(front), KeptIn(frames, k), EngagedAfter(frames), LosesEngaged(frames, k), LeftOn(front));
  }

  lemma BracketedByEvents(h: seq<Event>, es: seq<Event>, since: nat)
    requires since <= |h|
    ensures Bracketed(h + es, since) <==>
              && Bracketed(h, since)
              && (es != [] ==> !LastIsLoss(h))
              && forall i | 0 <= i < |es| - 1 :: !es[i].LostEngaged?
  {
    var g := h + es;
    assert forall i | 0 <= i < |h| :: g[i] == h[i];
    assert forall i | 0 <= i < |es| :: g[|h| + i] == es[i];
    if Bracketed(g, since) {
      forall i | 0 <= i < |es| - 1 ensures !es[i].LostEngaged? {
        assert !g[|h| + i].LostEngaged?;
      }
    }
  }

  /** A run from the start is bracketed exactly if no frame engages a user in or after a frame
      that loses the engaged one. */
  lemma BracketedIffNoLossBefore(frames: seq<Frame>)
    ensures Bracketed(Engagements(frames), 0) <==>
            forall i, k | 0 <= i <= k < |frames| :: !(LosesEngaged(frames, i) && EngagesIn(frames, k))
  {
    BracketedExactly(frames, 0);
    assert frames[..0] == [];
    if k :| 0 <= k < |frames| && Abrupt(frames, k) {
      var i := SomeLoss(frames, k);
    }
    if i, k :| 0 <= i <= k < |frames| && LosesEngaged(frames, i) && EngagesIn(frames, k) {
      var j := SomeAbrupt(frames, i, k);
    }
  }

  /** An abrupt frame comes with or after a loss. */
  lemma SomeLoss(frames: seq<Frame>, k: nat) returns (i: nat)
    requires k < |frames| && Abrupt(frames, k)
    ensures i <= k && LosesEngaged(frames, i) && EngagesIn(frames, k)
  {
    i := k;
    if !LosesEngaged(frames, k) {
      i := LossBefore(frames[..k]);
      assert frames[..k][..i] == frames[..i];
    }
  }

  lemma LeftOnSomething(frames: seq<Frame>)
    ensures LeftOn(frames) ==> frames != [] && EngagedAfter(frames) == 0
  {
  }

  lemma {:induction false} LossBefore(frames: seq<Frame>) returns (i: nat)
    requires LeftOn(frames)
    ensures i < |frames| && LosesEngaged(frames, i)
    decreases |frames|
  {
    LeftOnSomething(frames);
    hide *;
    LastFrame(frames);
    var front := frames[..|frames| - 1];
    if EngagedAfter(front) != 0 {
      i := |frames| - 1;
    } else {
      i := LossBefore(front);
      SamePrefixes(frames, front, i);
    }
  }

  /** The first frame that engages a user in or after a loss is abrupt. */
  lemma {:induction false} SomeAbrupt(frames: seq<Frame>, i: nat, k: nat) returns (j: nat)
    requires i <= k < |frames| && LosesEngaged(frames, i) && EngagesIn(frames, k)
    ensures j < |frames| && Abrupt(frames, j)
    decreases k - i
  {
    if m :| i <= m < k && EngagesIn(frames, m) {
      j := SomeAbrupt(frames, i, m);
    } else {
      j := k;
      if i < k { StaysLeftOn(frames, i, k); }
    }
  }

  lemma {:induction false} StaysLeftOn(frames: seq<Frame>, i: nat, k: nat)
    requires i < k <= |frames| && LosesEngaged(frames, i) && forall j | i <= j < k :: !EngagesIn(frames, j)
    ensures LeftOn(frames[..k])
    decreases k
  {
    hide *;
    var now := frames[..k];
    assert now[..k - 1] == frames[..k - 1];
    SamePrefixes(frames, now, k - 1);
    LastFrame(now);
    assert !EngagesIn(frames, k - 1);
    if i < k - 1 {
      StaysLeftOn(frames, i, k - 1);
    }
  }

  lemma SamePrefixes(frames: seq<Frame>, now: seq<Frame>, k: nat)
    requires k < |now| && now <= frames
    ensures EngagesIn(now, k) == EngagesIn(frames, k) && LosesEngaged(now, k) == LosesEngaged(frames, k)
    ensures Abrupt(now, k) == Abrupt(frames, k)
  {
    assert now[..k] == frames[..k] && now[..k + 1] == frames[..k + 1];
  }
}
