/** The plugin's frame pump: one timer tick at a time it reopens the sensor, reads a frame and
    passes status changes and frames on to the listeners, dropping those that have gone. */
module FramePump {
  import opened Common

  const REOPEN_WAIT_FRAMES: nat := 450

  datatype Call = Status(connected: bool) | Image | Depth | LabelMap | Frame

  /** What a listener does in one tick: it is gone, it raises at the call with this number, or
      it takes all calls. */
  datatype Behaviour = Gone | Raises(at: nat) | Fine

  /** What the sensor does in one tick: whether opening succeeds when it is tried, whether the
      open sensor is still valid, and whether it has new data. */
  datatype Weather = Weather(opens: bool, valid: bool, newData: bool)

  class Listener {
    /** Whether the sensor was connected when the listener was added. */
    ghost const joined: bool
    ghost var calls: seq<Call>

    constructor (ghost joined: bool)
      ensures this.joined == joined && calls == []
    {
      this.joined := joined;
      calls := [];
    }

    /** Makes one of the calls of a tick, unless it is not wanted or an earlier one has raised. */
    method Offer(wanted: bool, c: Call, b: Behaviour, n: nat, raised: bool,
                 ghost before: seq<Call>, ghost done: seq<Call>)
      returns (m: nat, nowRaised: bool)
      requires b != Gone && InTick(calls, before, b, done, n, raised)
      modifies this
      ensures InTick(calls, before, b, done + if wanted then [c] else [], m, nowRaised)
    {
      m, nowRaised := n, raised;
      if wanted && !raised {
        nowRaised := b == Raises(n);
        if !nowRaised {
          calls := calls + [c];
          m := n + 1;
        }
      }
    }
  }

  /** Within a tick: the calls offered are done, unless one has raised. */
  ghost predicate InTick(calls: seq<Call>, before: seq<Call>, b: Behaviour, done: seq<Call>, n: nat, raised: bool) {
    calls == before + Received(b, done) && raised == !Stays(b, done) && (!raised ==> n == |done|)
  }

  /** The calls of one tick, in order. */
  function Calls(changed: bool, ok: bool, newData: bool, image: bool, depth: bool, labels: bool): seq<Call> {
    (if changed then [Status(ok)] else []) +
    (if ok && newData && image then [Image] else []) +
    (if ok && newData && depth then [Depth] else []) +
    (if ok && newData && labels then [LabelMap] else []) +
    (if ok && newData then [Frame] else [])
  }

  /** A listener that raises gets the calls before that one. */
  function Received(b: Behaviour, cs: seq<Call>): seq<Call> {
    match b
    case Gone => []
    case Raises(n) => if n < |cs| then cs[..n] else cs
    case Fine => cs
  }

  predicate Stays(b: Behaviour, cs: seq<Call>) {
    b.Fine? || (b.Raises? && b.at >= |cs|)
  }

  lemma NothingReceived(b: Behaviour, cs: seq<Call>)
    requires b == Gone
    ensures Received(b, cs) == [] && !Stays(b, cs)
  {
  }

  lemma StartOfTick(before: seq<Call>, b: Behaviour)
    requires b != Gone
    ensures InTick(before, before, b, [], 0, false)
  {
  }

  lemma EndOfTick(calls: seq<Call>, before: seq<Call>, b: Behaviour, done: seq<Call>, n: nat, raised: bool)
    requires InTick(calls, before, b, done, n, raised)
    ensures calls == before + Received(b, done) && raised == !Stays(b, done)
  {
  }

  // ----- the calls of a tick, told apart ----------------------------------------------------

  /** cs holds the calls that a listener that takes all of them gets: a status if it changed, each
      map that is wanted and a frame if a connected sensor has new data. They come in this order,
      and each comes once. */
  ghost predicate Whole(was: bool, ok: bool, newData: bool, image: bool, depth: bool, labels: bool, cs: seq<Call>) {
    && (forall c :: Status(c) in cs <==> ok != was && c == ok)
    && (Image in cs <==> ok && newData && image)
    && (Depth in cs <==> ok && newData && depth)
    && (LabelMap in cs <==> ok && newData && labels)
    && (Frame in cs <==> ok && newData)
    && InOrder(cs)
  }

  ghost predicate InOrder(cs: seq<Call>) {
    forall i, j | 0 <= i < j < |cs| :: Before(cs[i], cs[j])
  }

  /** A status comes first, then the image, the depth and the label map, and the frame last. */
  ghost predicate Before(x: Call, y: Call) {
    && !y.Status?
    && (y == Image ==> x.Status?)
    && (y == Depth ==> x.Status? || x == Image)
    && (y == LabelMap ==> x.Status? || x == Image || x == Depth)
    && x != Frame
  }

  /** What a listener gains from a tick, and whether it stays. */
  ghost predicate Gains(b: Behaviour, was: bool, ok: bool, newData: bool, image: bool, depth: bool, labels: bool,
                        gained: seq<Call>, stays: bool) {
    exists cs ::
      && Whole(was, ok, newData, image, depth, labels, cs)
      && match b
         case Gone => gained == [] && !stays
         case Raises(n) => if n < |cs| then gained == cs[..n] && !stays else gained == cs && stays
         case Fine => gained == cs && stays
  }

  lemma CallsAreWhole(was: bool, ok: bool, newData: bool, image: bool, depth: bool, labels: bool)
    ensures Whole(was, ok, newData, image, depth, labels, Calls(ok != was, ok, newData, image, depth, labels))
  {
    hide Calls, InOrder;
    CallsInOrder(was, ok, newData, image, depth, labels);
    forall x ensures Status(x) in Calls(ok != was, ok, newData, image, depth, labels) <==> ok != was && x == ok {
      CallsDue(was, ok, newData, image, depth, labels, Status(x));
    }
    CallsDue(was, ok, newData, image, depth, labels, Image);
    CallsDue(was, ok, newData, image, depth, labels, Depth);
    CallsDue(was, ok, newData, image, depth, labels, LabelMap);
    CallsDue(was, ok, newData, image, depth, labels, Frame);
  }

  ghost predicate Due(was: bool, ok: bool, newData: bool, image: bool, depth: bool, labels: bool, c: Call) {
    match c
    case Status(x) => ok != was && x == ok
    case Image => ok && newData && image
    case Depth => ok && newData && depth
    case LabelMap => ok && newData && labels
    case Frame => ok && newData
  }

  lemma CallsDue(was: bool, ok: bool, newData: bool, image: bool, depth: bool, labels: bool, c: Call)
    ensures c in Calls(ok != was, ok, newData, image, depth, labels) <==> Due(was, ok, newData, image, depth, labels, c)
  {
  }

  lemma CallsInOrder(was: bool, ok: bool, newData: bool, image: bool, depth: bool, labels: bool)
    ensures InOrder(Calls(ok != was, ok, newData, image, depth, labels))
  {
    assert InOrder([]);
    hide InOrder;
    CallsAreOffered(was, ok, newData, image, depth, labels);
    hide Offered, Calls, Before;
    var one := Offered([], ok != was, Status(ok));
    var two := Offered(one, ok && newData && image, Image);
    var three := Offered(two, ok && newData && depth, Depth);
    var four := Offered(three, ok && newData && labels, LabelMap);
    OneMore([], ok != was, Status(ok));
    OneMore(one, ok && newData && image, Image);
    OneMore(two, ok && newData && depth, Depth);
    OneMore(three, ok && newData && labels, LabelMap);
    OneMore(four, ok && newData, Frame);
  }

  lemma CallsAreOffered(was: bool, ok: bool, newData: bool, image: bool, depth: bool, labels: bool)
    ensures Calls(ok != was, ok, newData, image, depth, labels) ==
            Offered(Offered(Offered(Offered(Offered([], ok != was, Status(ok)), ok && newData && image, Image),
                    ok && newData && depth, Depth), ok && newData && labels, LabelMap), ok && newData, Frame)
  {
    assert Offered([], ok != was, Status(ok)) == if ok != was then [Status(ok)] else [];
  }

  ghost function Offered(cs: seq<Call>, wanted: bool, c: Call): seq<Call> {
    cs + if wanted then [c] else []
  }

  /** A call that comes later than all so far. */
  lemma OneMore(cs: seq<Call>, wanted: bool, c: Call)
    requires InOrder(cs) && Frame !in cs
    requires (c.Status? ==> cs == []) && c !in cs && (c == Image ==> Depth !in cs) && (c == Image || c == Depth ==> LabelMap !in cs)
    ensures InOrder(Offered(cs, wanted, c)) && forall x :: x in Offered(cs, wanted, c) <==> x in cs || (wanted && x == c)
  {
    forall i | 0 <= i < |cs| ensures Before(cs[i], c) {
      assert cs[i] in cs && cs[i] != c;
    }
    if wanted { GrowsInOrder(cs, c); }
  }

  lemma GrowsInOrder(cs: seq<Call>, c: Call)
    requires InOrder(cs)
    requires forall i | 0 <= i < |cs| :: Before(cs[i], c)
    ensures InOrder(cs + [c])
  {
  }

  /** There is only one such list. */
  lemma {:induction false} WholeIsOne(was: bool, ok: bool, newData: bool, image: bool, depth: bool, labels: bool,
                                      xs: seq<Call>, ys: seq<Call>)
    requires Whole(was, ok, newData, image, depth, labels, xs) && Whole(was, ok, newData, image, depth, labels, ys)
    ensures xs == ys
  {
    forall c ensures c in xs <==> c in ys {
      match c
      case Status(_) =>
      case Image =>
      case Depth =>
      case LabelMap =>
      case Frame =>
    }
    SameInOrder(xs, ys);
  }

  /** Lists in order that hold the same calls are equal. */
  lemma {:induction false} SameInOrder(xs: seq<Call>, ys: seq<Call>)
    requires InOrder(xs) && InOrder(ys) && forall c :: c in xs <==> c in ys
    ensures xs == ys
    decreases |xs|
  {
    if ys != [] {
      assert ys[0] in xs;
    }
    if xs != [] {
      assert xs[0] in ys && ys != [] && ys[0] in xs;
      var i :| 0 <= i < |ys| && ys[i] == xs[0];
      var j :| 0 <= j < |xs| && xs[j] == ys[0];
      assert xs[0] == ys[0];
      forall c ensures c in xs[1..] <==> c in ys[1..] {
        RestHolds(xs, c);
        RestHolds(ys, c);
      }
      SameInOrder(xs[1..], ys[1..]);
      assert xs == [xs[0]] + xs[1..] && ys == [ys[0]] + ys[1..];
    }
  }

  lemma RestHolds(cs: seq<Call>, c: Call)
    requires cs != [] && InOrder(cs)
    ensures c in cs[1..] <==> c in cs && c != cs[0]
  {
    assert cs == [cs[0]] + cs[1..];
  }

  /** A listener gains what it receives of the calls of the tick. */
  lemma GainsExactly(b: Behaviour, was: bool, ok: bool, newData: bool, image: bool, depth: bool, labels: bool,
                     gained: seq<Call>, stays: bool)
    ensures var cs := Calls(ok != was, ok, newData, image, depth, labels);
      Gains(b, was, ok, newData, image, depth, labels, gained, stays) <==> gained == Received(b, cs) && stays == Stays(b, cs)
  {
    var cs := Calls(ok != was, ok, newData, image, depth, labels);
    CallsAreWhole(was, ok, newData, image, depth, labels);
    hide Whole, Calls;
    forall other | Whole(was, ok, newData, image, depth, labels, other) ensures other == cs {
      WholeIsOne(was, ok, newData, image, depth, labels, other, cs);
    }
  }

  /** The same, told apart, and for a listener that stays call by call. */
  lemma ReceivedGains(b: Behaviour, was: bool, ok: bool, newData: bool, image: bool, depth: bool, labels: bool,
                      before: seq<Call>, after: seq<Call>, stays: bool)
    requires var cs := Calls(ok != was, ok, newData, image, depth, labels);
      after == before + Received(b, cs) && stays == Stays(b, cs)
    ensures before <= after
    ensures Gains(b, was, ok, newData, image, depth, labels, after[|before|..], stays)
    ensures b == Gone ==> after == before && !stays
    ensures b == Fine ==> stays
    ensures stays ==> Whole(was, ok, newData, image, depth, labels, after[|before|..])
    ensures var gained := after[|before|..]; stays ==>
              && (forall c :: Status(c) in gained <==> ok != was && c == ok)
              && (Image in gained <==> ok && newData && image)
              && (Depth in gained <==> ok && newData && depth)
              && (LabelMap in gained <==> ok && newData && labels)
              && (Frame in gained <==> ok && newData)
              && InOrder(gained)
  {
    var cs := Calls(ok != was, ok, newData, image, depth, labels);
    CallsAreWhole(was, ok, newData, image, depth, labels);
    hide Calls, InOrder;
    assert after[|before|..] == Received(b, cs);
    GainsExactly(b, was, ok, newData, image, depth, labels, after[|before|..], stays);
    if stays { assert Received(b, cs) == cs; }
  }

  // ----- what a listener may rely on ------------------------------------------------------

  function LastStatus(joined: bool, calls: seq<Call>): bool
    decreases |calls|
  {
    if calls == [] then joined
    else if calls[|calls| - 1].Status? then calls[|calls| - 1].connected
    else LastStatus(joined, calls[..|calls| - 1])
  }

  /** Every status is a change, and frames and maps come only while the sensor is connected. */
  predicate Proper(joined: bool, calls: seq<Call>) {
    forall i | 0 <= i < |calls| ::
      LastStatus(joined, calls[..i]) == if calls[i].Status? then !calls[i].connected else true
  }

  function Statuses(calls: seq<Call>): seq<bool>
    decreases |calls|
  {
    if calls == [] then []
    else
      var last := calls[|calls| - 1];
      Statuses(calls[..|calls| - 1]) + if last.Status? then [last.connected] else []
  }

  /** The statuses alternate: the first differs from that at the time the listener was added. */
  lemma {:induction false} StatusesAlternate(joined: bool, calls: seq<Call>)
    requires Proper(joined, calls)
    ensures forall i | 0 <= i < |Statuses(calls)| :: Statuses(calls)[i] == if i % 2 == 0 then !joined else joined
    ensures LastStatus(joined, calls) == if |Statuses(calls)| % 2 == 0 then joined else !joined
    decreases |calls|
  {
    if calls != [] {
      var front := calls[..|calls| - 1];
      assert forall i | 0 <= i < |front| :: front[..i] == calls[..i];
      StatusesAlternate(joined, front);
    }
  }

  lemma ProperGrows(joined: bool, calls: seq<Call>, c: Call)
    requires Proper(joined, calls)
    requires LastStatus(joined, calls) == if c.Status? then !c.connected else true
    ensures Proper(joined, calls + [c])
    ensures LastStatus(joined, calls + [c]) == if c.Status? then c.connected else LastStatus(joined, calls)
  {
    var more := calls + [c];
    assert more[..|more| - 1] == calls;
    forall i | 0 <= i < |more|
      ensures LastStatus(joined, more[..i]) == if more[i].Status? then !more[i].connected else true
    {
      if i < |calls| { assert more[..i] == calls[..i]; }
    }
  }

  /** The calls of a tick, or any first part of them, suit a listener whose last status is was. */
  lemma {:induction false} TickIsProper(joined: bool, calls: seq<Call>, was: bool, ok: bool, cs: seq<Call>, n: nat)
    requires Proper(joined, calls) && LastStatus(joined, calls) == was && n <= |cs|
    requires forall i | 0 <= i < |cs| :: if cs[i].Status? then i == 0 && cs[i] == Status(ok) && ok != was else ok
    requires ok != was ==> cs != [] && cs[0].Status?
    ensures Proper(joined, calls + cs[..n])
    ensures LastStatus(joined, calls + cs[..n]) == if n == 0 then was else ok
    decreases n
  {
    if n == 0 {
      assert calls + cs[..0] == calls;
    } else {
      TickIsProper(joined, calls, was, ok, cs, n - 1);
      assert calls + cs[..n] == calls + cs[..n - 1] + [cs[n - 1]];
      ProperGrows(joined, calls + cs[..n - 1], cs[n - 1]);
    }
  }

  lemma ReceivedIsProper(joined: bool, calls: seq<Call>, was: bool, ok: bool, newData: bool,
                         image: bool, depth: bool, labels: bool, b: Behaviour)
    requires Proper(joined, calls) && LastStatus(joined, calls) == was
    ensures var cs := Calls(ok != was, ok, newData, image, depth, labels);
      && Proper(joined, calls + Received(b, cs))
      && (Stays(b, cs) ==> LastStatus(joined, calls + Received(b, cs)) == ok)
  {
    var cs := Calls(ok != was, ok, newData, image, depth, labels);
    var n := |Received(b, cs)|;
    assert Received(b, cs) == cs[..n];
    TickIsProper(joined, calls, was, ok, cs, n);
  }

  // ----- waiting to reopen -------------------------------------------------------------------

  /** The counter after n ticks that began without a sensor. */
  function RestCount(n: nat): nat {
    if n == 0 then REOPEN_WAIT_FRAMES else (n - 1) % (REOPEN_WAIT_FRAMES + 1)
  }

  lemma OneTickLess(n: nat)
    ensures RestCount(n) + 1 > REOPEN_WAIT_FRAMES <==> n % (REOPEN_WAIT_FRAMES + 1) == 0
    ensures RestCount(n + 1) == if RestCount(n) + 1 > REOPEN_WAIT_FRAMES then 0 else RestCount(n) + 1
  {
  }

  // ----- the pump --------------------------------------------------------------------------

  class Pump {
    var sensor: bool
    var wasSensorConnected: bool
    var frameRestCount: nat
    var listeners: seq<Listener>
    var getImage: bool
    var getDepth: bool
    var getLabelmap: bool
    /** How many ticks began without a sensor, and all listeners ever added. */
    ghost var sensorless: nat
    ghost var known: set<Listener>

    ghost predicate Valid()
      reads this, known
    {
      && wasSensorConnected == sensor
      && frameRestCount == RestCount(sensorless)
      && ListenersOk()
    }

    /** Listeners that are still on the list know the present status; all ever added have heard
        a proper sequence of calls. */
    ghost predicate ListenersOk()
      reads this`listeners, this`known, this`wasSensorConnected, known
    {
      && NoRepeats(listeners)
      && (forall l | l in listeners :: l in known && LastStatus(l.joined, l.calls) == wasSensorConnected)
      && (forall l | l in known :: Proper(l.joined, l.calls))
    }

    constructor ()
      ensures Valid() && !sensor && listeners == [] && sensorless == 0 && known == {}
    {
      sensor, wasSensorConnected, frameRestCount, listeners := false, false, REOPEN_WAIT_FRAMES, [];
      getImage, getDepth, getLabelmap := false, false, false;
      sensorless, known := 0, {};
    }

    method AddListener(l: Listener)
      requires Valid() && l !in known && l.joined == wasSensorConnected && l.calls == []
      modifies this`listeners, this`known
      ensures Valid() && listeners == old(listeners) + [l] && known == old(known) + {l}
    {
      listeners := listeners + [l];
      known := known + {l};
    }

    method SetStreams(getDepth: bool, getImage: bool, getLabelmap: bool)
      requires Valid()
      modifies this`getDepth, this`getImage, this`getLabelmap
      ensures Valid()
      ensures this.getDepth == getDepth && this.getImage == getImage && this.getLabelmap == getLabelmap
    {
      this.getImage := getImage;
      this.getDepth := getDepth;
      this.getLabelmap := getLabelmap;
    }

    /** One tick. Opening is tried in the first sensorless tick and then in every 451st. */
    method ReadFrame(weather: Weather, behaviours: map<Listener, Behaviour>) returns (tried: bool)
      requires Valid() && Covers(behaviours, listeners)
      modifies this`sensor, this`wasSensorConnected, this`frameRestCount, this`listeners, this`sensorless, listeners
      ensures Valid()
      ensures sensorless == old(sensorless) + if old(sensor) then 0 else 1
      ensures tried <==> !old(sensor) && old(sensorless) % (REOPEN_WAIT_FRAMES + 1) == 0
      ensures sensor == ((old(sensor) || (tried && weather.opens)) && weather.valid)
      ensures var cs := Calls(sensor != old(sensor), sensor, sensor && weather.newData, getImage, getDepth, getLabelmap);
        if old(sensor) || tried then
          && listeners == Staying(old(listeners), behaviours, cs)
          && forall l | l in old(listeners) :: l.calls == old(l.calls) + Received(behaviours[l], cs)
        else
          listeners == old(listeners) && forall l | l in listeners :: l.calls == old(l.calls)
      ensures tried <==> !old(sensor) && old(sensorless) % 451 == 0
      ensures old(sensor) || tried ==>
                && (forall l | l in listeners :: l in old(listeners))
                && SameOrder<Listener>(old(listeners), listeners)
                && forall l | l in old(listeners) ::
                     && old(l.calls) <= l.calls
                     && Gains(behaviours[l], old(sensor), sensor, weather.newData, getImage, getDepth, getLabelmap,
                              l.calls[|old(l.calls)|..], l in listeners)
      ensures old(sensor) || tried ==> forall l | l in old(listeners) ::
                && (behaviours[l] == Gone ==> l !in listeners && l.calls == old(l.calls))
                && (behaviours[l] == Fine ==> l in listeners)
      ensures old(sensor) || tried ==> forall l | l in listeners ::
                var gained := l.calls[|old(l.calls)|..];
                && (forall c :: Status(c) in gained <==> sensor != old(sensor) && c == sensor)
                && (Image in gained <==> sensor && weather.newData && getImage)
                && (Depth in gained <==> sensor && weather.newData && getDepth)
                && (LabelMap in gained <==> sensor && weather.newData && getLabelmap)
                && (Frame in gained <==> sensor && weather.newData)
                && InOrder(gained)
    {
      hide Calls, Received, Staying, RestCount, NoRepeats, Proper, LastStatus, Gains, InOrder, SameOrder;
      ghost var heard := CallsOf(SetOf(listeners));
      tried := Tick(weather, behaviours);
      if old(sensor) || tried {
        TickGains(old(listeners), listeners, behaviours, heard, CallsOf(SetOf(old(listeners))), old(sensor), sensor,
                  weather.newData, getImage, getDepth, getLabelmap);
      }
    }

    /** The steps of one tick. */
    method Tick(weather: Weather, behaviours: map<Listener, Behaviour>) returns (tried: bool)
      requires Valid() && Covers(behaviours, listeners)
      modifies this`sensor, this`wasSensorConnected, this`frameRestCount, this`listeners, this`sensorless, listeners
      ensures Valid()
      ensures sensorless == old(sensorless) + if old(sensor) then 0 else 1
      ensures tried <==> !old(sensor) && old(sensorless) % (REOPEN_WAIT_FRAMES + 1) == 0
      ensures sensor == ((old(sensor) || (tried && weather.opens)) && weather.valid)
      ensures var cs := Calls(sensor != old(sensor), sensor, sensor && weather.newData, getImage, getDepth, getLabelmap);
        if old(sensor) || tried then
          && listeners == Staying(old(listeners), behaviours, cs)
          && forall l | l in old(listeners) :: l.calls == old(l.calls) + Received(behaviours[l], cs)
        else
          listeners == old(listeners) && forall l | l in listeners :: l.calls == old(l.calls)
    {
      hide ListenersOk, Calls, Received, Staying, RestCount;
      var isSensorOk := true;
      var newDataAvailable := false;
      tried := false;
      if !sensor {
        isSensorOk := false;
        OneTickLess(sensorless);
        sensorless := sensorless + 1;
        frameRestCount := frameRestCount + 1;
        if frameRestCount > REOPEN_WAIT_FRAMES {
          tried := true;
          sensor := weather.opens;
          frameRestCount := 0;
          if sensor { isSensorOk := true; }
        } else {
          return;
        }
      }
      if isSensorOk && !weather.valid {
        sensor := false;
        isSensorOk := false;
      }
      if isSensorOk && weather.newData {
        newDataAvailable := true;
      }
      Broadcast(isSensorOk, newDataAvailable, behaviours);
    }

    /** The loop over the listeners, and the new status. */
    method Broadcast(ok: bool, newData: bool, behaviours: map<Listener, Behaviour>)
      requires ListenersOk() && Covers(behaviours, listeners)
      modifies this`listeners, this`wasSensorConnected, listeners
      ensures ListenersOk() && wasSensorConnected == ok
      ensures var cs := Calls(ok != old(wasSensorConnected), ok, newData, getImage, getDepth, getLabelmap);
        && listeners == Staying(old(listeners), behaviours, cs)
        && forall l | l in old(listeners) :: l.calls == old(l.calls) + Received(behaviours[l], cs)
    {
      hide NoRepeats, Calls, Proper, Received, LastStatus, Stays;
      ghost var cs := Calls(ok != wasSensorConnected, ok, newData, getImage, getDepth, getLabelmap);
      NotifyListeners(ok, newData, behaviours, SetOf(listeners));
      StayingElements(old(listeners), behaviours, cs);
      forall l | l in old(listeners)
        ensures Proper(l.joined, l.calls) && (l in listeners ==> LastStatus(l.joined, l.calls) == ok)
      {
        ReceivedIsProper(l.joined, old(l.calls), wasSensorConnected, ok, newData, getImage, getDepth, getLabelmap, behaviours[l]);
      }
      wasSensorConnected := ok;
    }

    /** Passes the changes of this tick on to every listener, erasing those that are gone or raise. */
    method NotifyListeners(ok: bool, newData: bool, behaviours: map<Listener, Behaviour>, ghost those: set<Listener>)
      requires NoRepeats(listeners) && Covers(behaviours, listeners)
      requires those == SetOf(listeners)
      modifies this`listeners, those
      ensures var cs := Calls(ok != wasSensorConnected, ok, newData, getImage, getDepth, getLabelmap);
        && listeners == Staying(old(listeners), behaviours, cs)
        && forall l | l in those :: l in behaviours && l.calls == old(l.calls) + Received(behaviours[l], cs)
    {
      hide Staying, Received, Stays, Calls, NoRepeats, Told, AtPlace, SetOf, Covers;
      ghost var cs := Calls(ok != wasSensorConnected, ok, newData, getImage, getDepth, getLabelmap);
      ghost var all := listeners;
      ghost var heard := CallsOf(those);
      ghost var k := 0;
      var i: nat := 0;
      FirstPlace(all, behaviours, cs);
      NobodyTold(all, behaviours, cs, heard);
      while i < |listeners|
        invariant k <= |all| && AtPlace(all, k, behaviours, cs, listeners, i)
        invariant Told(all, k, behaviours, cs, heard, CallsOf(those))
        decreases |all| - k
      {
        PlaceLeft(all, k, behaviours, cs, listeners, i);
        i := Visit(i, ok, newData, behaviours, all, k, cs, those, heard);
        k := k + 1;
      }
      LastPlace(all, k, behaviours, cs, listeners, i);
      AllTold(all, behaviours, cs, heard, CallsOf(those));
    }

    /** Notifies the listener at place i, erases it if it does not stay, and gives the next place. */
    method Visit(i: nat, ok: bool, newData: bool, behaviours: map<Listener, Behaviour>, ghost all: seq<Listener>,
                 ghost k: nat, ghost cs: seq<Call>, ghost those: set<Listener>, ghost heard: Heard) returns (j: nat)
      requires NoRepeats(all) && Covers(behaviours, all) && those == SetOf(all) && k < |all| && i < |listeners|
      requires cs == Calls(ok != wasSensorConnected, ok, newData, getImage, getDepth, getLabelmap)
      requires AtPlace(all, k, behaviours, cs, listeners, i) && Told(all, k, behaviours, cs, heard, CallsOf(those))
      modifies this`listeners, those
      ensures AtPlace(all, k + 1, behaviours, cs, listeners, j)
      ensures Told(all, k + 1, behaviours, cs, heard, CallsOf(those))
    {
      hide Staying, Received, Stays, Calls, NoRepeats, Told, AtPlace, SetOf, Covers;
      NextPlace(all, k, behaviours, cs, listeners, i);
      var l := listeners[i];
      ghost var before := CallsOf(those);
      var stays := Notify(l, behaviours[l], ok, newData);
      if stays {
        j := i + 1;
      } else {
        j := i;
        listeners := listeners[..i] + listeners[i + 1..];
      }
      OneTold(all, k, behaviours, cs, heard, before, CallsOf(those));
    }

    /** The calls to one listener, up to the first that raises. */
    method Notify(l: Listener, b: Behaviour, ok: bool, newData: bool) returns (stays: bool)
      modifies l
      ensures var cs := Calls(ok != wasSensorConnected, ok, newData, getImage, getDepth, getLabelmap);
        l.calls == old(l.calls) + Received(b, cs) && stays == Stays(b, cs)
      ensures old(l.calls) <= l.calls
      ensures Gains(b, wasSensorConnected, ok, newData, getImage, getDepth, getLabelmap, l.calls[|old(l.calls)|..], stays)
      ensures b == Gone ==> l.calls == old(l.calls) && !stays
      ensures b == Fine ==> stays
      ensures stays ==> var gained := l.calls[|old(l.calls)|..];
                && (forall c :: Status(c) in gained <==> ok != wasSensorConnected && c == ok)
                && (Image in gained <==> ok && newData && getImage)
                && (Depth in gained <==> ok && newData && getDepth)
                && (LabelMap in gained <==> ok && newData && getLabelmap)
                && (Frame in gained <==> ok && newData)
                && InOrder(gained)
    {
      hide Calls, Received, Stays, Whole, InOrder;
      ghost var before := l.calls;
      stays := OfferAll(l, b, ok, newData);
      ReceivedGains(b, wasSensorConnected, ok, newData, getImage, getDepth, getLabelmap, before, l.calls, stays);
    }

    /** The calls that are wanted, one after the other. */
    method OfferAll(l: Listener, b: Behaviour, ok: bool, newData: bool) returns (stays: bool)
      modifies l
      ensures var cs := Calls(ok != wasSensorConnected, ok, newData, getImage, getDepth, getLabelmap);
        l.calls == old(l.calls) + Received(b, cs) && stays == Stays(b, cs)
    {
      hide InTick, Received, Stays;
      if b == Gone {
        NothingReceived(b, Calls(ok != wasSensorConnected, ok, newData, getImage, getDepth, getLabelmap));
        return false;
      }
      var live := ok && newData;
      ghost var before := l.calls;
      StartOfTick(before, b);
      ghost var done := [];
      var n, raised := l.Offer(ok != wasSensorConnected, Status(ok), b, 0, false, before, done);
      done := done + if ok != wasSensorConnected then [Status(ok)] else [];
      n, raised := l.Offer(live && getImage, Image, b, n, raised, before, done);
      done := done + if live && getImage then [Image] else [];
      n, raised := l.Offer(live && getDepth, Depth, b, n, raised, before, done);
      done := done + if live && getDepth then [Depth] else [];
      n, raised := l.Offer(live && getLabelmap, LabelMap, b, n, raised, before, done);
      done := done + if live && getLabelmap then [LabelMap] else [];
      n, raised := l.Offer(live, Frame, b, n, raised, before, done);
      done := done + if live then [Frame] else [];
      assert done == Calls(ok != wasSensorConnected, ok, newData, getImage, getDepth, getLabelmap);
      EndOfTick(l.calls, before, b, done, n, raised);
      return !raised;
    }
  }

  predicate Covers(behaviours: map<Listener, Behaviour>, ls: seq<Listener>) {
    forall l | l in ls :: l in behaviours
  }

  ghost function SetOf(ls: seq<Listener>): set<Listener> {
    set l | l in ls
  }

  /** The listeners that are left after a tick. */
  function Staying(ls: seq<Listener>, behaviours: map<Listener, Behaviour>, cs: seq<Call>): seq<Listener>
    requires Covers(behaviours, ls)
    decreases |ls|
  {
    if ls == [] then []
    else
      var last := ls[|ls| - 1];
      Staying(ls[..|ls| - 1], behaviours, cs) + if Stays(behaviours[last], cs) then [last] else []
  }

  type Heard = map<Listener, seq<Call>>

  ghost function CallsOf(those: set<Listener>): Heard
    reads those
  {
    map l | l in those :: l.calls
  }

  /** The first k listeners have received the calls of this tick, the others nothing yet. */
  ghost predicate Told(all: seq<Listener>, k: nat, behaviours: map<Listener, Behaviour>, cs: seq<Call>,
                       heard: Heard, now: Heard)
    requires Covers(behaviours, all)
  {
    forall j | 0 <= j < |all| ::
      all[j] in heard && all[j] in now
      && now[all[j]] == if j < k then heard[all[j]] + Received(behaviours[all[j]], cs) else heard[all[j]]
  }

  lemma NobodyTold(all: seq<Listener>, behaviours: map<Listener, Behaviour>, cs: seq<Call>, heard: Heard)
    requires Covers(behaviours, all) && heard.Keys == SetOf(all)
    ensures Told(all, 0, behaviours, cs, heard, heard)
  {
  }

  lemma OneTold(all: seq<Listener>, k: nat, behaviours: map<Listener, Behaviour>, cs: seq<Call>,
                heard: Heard, before: Heard, now: Heard)
    requires NoRepeats(all) && k < |all| && Covers(behaviours, all)
    requires Told(all, k, behaviours, cs, heard, before) && now.Keys == before.Keys
    requires forall l | l in now ::
               now[l] == if l == all[k] then before[l] + Received(behaviours[l], cs) else before[l]
    ensures Told(all, k + 1, behaviours, cs, heard, now)
  {
  }

  lemma AllTold(all: seq<Listener>, behaviours: map<Listener, Behaviour>, cs: seq<Call>, heard: Heard, now: Heard)
    requires Covers(behaviours, all) && Told(all, |all|, behaviours, cs, heard, now)
    ensures forall l | l in SetOf(all) ::
              l in behaviours && l in now && l in heard && now[l] == heard[l] + Received(behaviours[l], cs)
  {
  }

  /** The loop over the list now, at place i, has dealt with the first k listeners of all. */
  ghost predicate AtPlace(all: seq<Listener>, k: nat, behaviours: map<Listener, Behaviour>, cs: seq<Call>,
                          now: seq<Listener>, i: nat)
    requires k <= |all| && Covers(behaviours, all)
  {
    now == Staying(all[..k], behaviours, cs) + all[k..] && i == |Staying(all[..k], behaviours, cs)|
  }

  lemma FirstPlace(all: seq<Listener>, behaviours: map<Listener, Behaviour>, cs: seq<Call>)
    requires Covers(behaviours, all)
    ensures AtPlace(all, 0, behaviours, cs, all, 0)
  {
  }

  lemma NextPlace(all: seq<Listener>, k: nat, behaviours: map<Listener, Behaviour>, cs: seq<Call>,
                  now: seq<Listener>, i: nat)
    requires k <= |all| && Covers(behaviours, all)
    requires AtPlace(all, k, behaviours, cs, now, i) && i < |now|
    ensures k < |all| && now[i] == all[k] && all[k] in SetOf(all) && all[k] in behaviours
    ensures if Stays(behaviours[all[k]], cs) then AtPlace(all, k + 1, behaviours, cs, now, i + 1)
            else AtPlace(all, k + 1, behaviours, cs, now[..i] + now[i + 1..], i)
  {
    assert all[..k + 1][..k] == all[..k];
    assert all[k..] == [all[k]] + all[k + 1..];
  }

  lemma PlaceLeft(all: seq<Listener>, k: nat, behaviours: map<Listener, Behaviour>, cs: seq<Call>,
                  now: seq<Listener>, i: nat)
    requires k <= |all| && Covers(behaviours, all) && AtPlace(all, k, behaviours, cs, now, i) && i < |now|
    ensures k < |all|
  {
  }

  lemma LastPlace(all: seq<Listener>, k: nat, behaviours: map<Listener, Behaviour>, cs: seq<Call>,
                  now: seq<Listener>, i: nat)
    requires k <= |all| && Covers(behaviours, all)
    requires AtPlace(all, k, behaviours, cs, now, i) && i >= |now|
    ensures k == |all| && now == Staying(all, behaviours, cs)
  {
    assert all[..|all|] == all;
  }

  lemma {:induction false} StayingElements(ls: seq<Listener>, behaviours: map<Listener, Behaviour>, cs: seq<Call>)
    requires NoRepeats(ls) && Covers(behaviours, ls)
    ensures NoRepeats(Staying(ls, behaviours, cs))
    ensures forall l :: l in Staying(ls, behaviours, cs) <==> l in ls && Stays(behaviours[l], cs)
    ensures forall i | 0 <= i < |Staying(ls, behaviours, cs)| :: Staying(ls, behaviours, cs)[i] in ls
    decreases |ls|
  {
    if ls != [] {
      var front := ls[..|ls| - 1];
      assert ls == front + [ls[|ls| - 1]];
      assert forall l | l in front :: l in ls;
      StayingElements(front, behaviours, cs);
    }
  }

  lemma {:induction false} StayingKeepsOrder(ls: seq<Listener>, behaviours: map<Listener, Behaviour>, cs: seq<Call>)
    requires NoRepeats(ls) && Covers(behaviours, ls)
    ensures SameOrder<Listener>(ls, Staying(ls, behaviours, cs))
    decreases |ls|
  {
    if ls != [] {
      var front, last := ls[..|ls| - 1], ls[|ls| - 1];
      assert ls == front + [last];
      StayingKeepsOrder(front, behaviours, cs);
      StayingElements(front, behaviours, cs);
      hide SameOrder, Stays;
      OrderGrows<Listener>(front, last, Staying(front, behaviours, cs));
    }
  }

  /** Who stays, in what order, and what everyone gains. */
  lemma TickGains(all: seq<Listener>, left: seq<Listener>, behaviours: map<Listener, Behaviour>, heard: Heard, now: Heard,
                  was: bool, ok: bool, newData: bool, image: bool, depth: bool, labels: bool)
    requires NoRepeats(all) && Covers(behaviours, all) && heard.Keys == now.Keys == SetOf(all)
    requires var cs := Calls(ok != was, ok, ok && newData, image, depth, labels);
      && left == Staying(all, behaviours, cs)
      && forall l | l in all :: now[l] == heard[l] + Received(behaviours[l], cs)
    ensures forall l | l in left :: l in all
    ensures SameOrder<Listener>(all, left)
    ensures forall l | l in all ::
              && heard[l] <= now[l]
              && Gains(behaviours[l], was, ok, newData, image, depth, labels, now[l][|heard[l]|..], l in left)
              && (behaviours[l] == Gone ==> l !in left && now[l] == heard[l])
              && (behaviours[l] == Fine ==> l in left)
              && (l in left ==> Whole(was, ok, newData, image, depth, labels, now[l][|heard[l]|..]))
  {
    var cs := Calls(ok != was, ok, ok && newData, image, depth, labels);
    assert cs == Calls(ok != was, ok, newData, image, depth, labels);
    hide Calls, Received, Stays, Whole, Gains, NoRepeats, SameOrder;
    StayingElements(all, behaviours, cs);
    StayingKeepsOrder(all, behaviours, cs);
    forall l | l in all
      ensures && heard[l] <= now[l]
              && Gains(behaviours[l], was, ok, newData, image, depth, labels, now[l][|heard[l]|..], l in left)
              && (behaviours[l] == Gone ==> l !in left && now[l] == heard[l])
              && (behaviours[l] == Fine ==> l in left)
              && (l in left ==> Whole(was, ok, newData, image, depth, labels, now[l][|heard[l]|..]))
    {
      ReceivedGains(behaviours[l], was, ok, newData, image, depth, labels, heard[l], now[l], l in left);
    }
  }
}
