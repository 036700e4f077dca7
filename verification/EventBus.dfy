/** The event journal and its live fan-out. An event gets its number from the
    journal outside the subscriber mutex and is fanned out under it later, so
    two events may be fanned out in the other order. A subscriber's channel
    holds 32 events; one that is full when an event comes is closed and dropped. */
module EventBus {
  import opened Wrappers

  const CAPACITY: int := 32

  /** A subscriber's channel. `joined` counts the events fanned out before it
      subscribed; `received` is what was taken out of the buffer. */
  datatype Channel = Channel(joined: nat, received: seq<int>, buffer: seq<int>, closed: bool, cancelled: bool)

  /** `panicked` records a send on a closed channel or a second close. */
  datatype Bus = Bus(journal: nat, pending: set<int>, log: seq<int>, channels: seq<Channel>, subscribers: set<int>, panicked: bool)

  const EMPTY: Bus := Bus(0, {}, [], [], {}, false)

  function Offer(c: Channel, event: int): Channel {
    if |c.buffer| < CAPACITY then c.(buffer := c.buffer + [event]) else c.(closed := true)
  }

  /** One event is offered to every subscriber; the full ones are dropped. */
  function FanOut(b: Bus, event: int): Bus {
    b.(pending := b.pending - {event},
       log := b.log + [event],
       channels := seq(|b.channels|, i requires 0 <= i < |b.channels| =>
         if i in b.subscribers then Offer(b.channels[i], event) else b.channels[i]),
       subscribers := (set i | i in b.subscribers && 0 <= i < |b.channels| && |b.channels[i].buffer| < CAPACITY),
       panicked := b.panicked || (exists i :: 0 <= i < |b.channels| && i in b.subscribers && b.channels[i].closed))
  }

  function Subscribe(b: Bus): Bus {
    b.(channels := b.channels + [Channel(|b.log|, [], [], false, false)], subscribers := b.subscribers + {|b.channels|})
  }

  function Cancel(b: Bus, i: nat): Bus
    requires i < |b.channels|
  {
    if i !in b.subscribers then b
    else b.(channels := b.channels[i := b.channels[i].(closed := true, cancelled := true)],
            subscribers := b.subscribers - {i},
            panicked := b.panicked || b.channels[i].closed)
  }

  /** Taking the next event out; an empty channel gives none. */
  function Receive(b: Bus, i: nat): Bus
    requires i < |b.channels|
  {
    var c := b.channels[i];
    if c.buffer == [] then b
    else b.(channels := b.channels[i := c.(received := c.received + [c.buffer[0]], buffer := c.buffer[1..])])
  }

  function Append(b: Bus): Bus {
    b.(journal := b.journal + 1, pending := b.pending + {b.journal + 1})
  }

  datatype Action = Appends | FansOut(event: int) | Subscribes | Cancels(channel: nat) | Receives(channel: nat)

  /** Only a journaled event that is still pending is fanned out. */
  function After(b: Bus, a: Action): Bus {
    match a
    case Appends => Append(b)
    case FansOut(event) => if event in b.pending then FanOut(b, event) else b
    case Subscribes => Subscribe(b)
    case Cancels(i) => if i < |b.channels| then Cancel(b, i) else b
    case Receives(i) => if i < |b.channels| then Receive(b, i) else b
  }

  function Run(actions: seq<Action>): Bus {
    if actions == [] then EMPTY else After(Run(actions[..|actions| - 1]), actions[|actions| - 1])
  }

  // ---- Every interleaving ----

  function Sent(c: Channel): seq<int> { c.received + c.buffer }

  /** What was sent is a piece of the log without a gap, beginning where the
      subscriber joined. While it is subscribed it misses nothing; once dropped
      it may only be short. */
  predicate Followed(log: seq<int>, c: Channel) {
    && c.joined + |Sent(c)| <= |log|
    && Sent(c) == log[c.joined..c.joined + |Sent(c)|]
    && |c.buffer| <= CAPACITY && (c.cancelled ==> c.closed)
    && (!c.closed ==> c.joined + |Sent(c)| == |log|)
    && (c.closed && !c.cancelled ==> c.joined + |Sent(c)| < |log|)
  }

  /** Numbers fanned out or pending are journaled ones, each fanned out at most
      once. */
  predicate Numbered(b: Bus) {
    && (forall e :: e in b.pending ==> 1 <= e <= b.journal)
    && (forall k :: 0 <= k < |b.log| ==> 1 <= b.log[k] <= b.journal && b.log[k] !in b.pending)
    && (forall j, k :: 0 <= j < k < |b.log| ==> b.log[j] != b.log[k])
  }

  /** No channel was closed twice or sent to after closing, and a channel is open
      exactly while it is subscribed. */
  predicate Sound(b: Bus) {
    && !b.panicked
    && (forall i :: i in b.subscribers ==> 0 <= i < |b.channels|)
    && (forall i :: 0 <= i < |b.channels| ==> (i in b.subscribers <==> !b.channels[i].closed))
    && (forall i :: 0 <= i < |b.channels| ==> Followed(b.log, b.channels[i]))
    && Numbered(b)
  }

  lemma OfferKeepsFollowed(log: seq<int>, c: Channel, event: int)
    requires Followed(log, c) && !c.closed
    ensures Followed(log + [event], Offer(c, event))
  {
    var sent, after := Sent(c), Offer(c, event);
    if |c.buffer| < CAPACITY {
      assert Sent(after) == sent + [event];
      assert (log + [event])[c.joined..c.joined + |sent| + 1] == log[c.joined..c.joined + |sent|] + [event];
    } else {
      assert Sent(after) == sent;
      assert (log + [event])[c.joined..c.joined + |sent|] == log[c.joined..c.joined + |sent|];
    }
  }

  lemma ClosedStaysFollowed(log: seq<int>, c: Channel, event: int)
    requires Followed(log, c) && c.closed
    ensures Followed(log + [event], c)
  {
    assert (log + [event])[c.joined..c.joined + |Sent(c)|] == log[c.joined..c.joined + |Sent(c)|];
  }

  lemma FanOutKeepsSound(b: Bus, event: int)
    requires Sound(b) && event in b.pending
    ensures Sound(FanOut(b, event))
  {
    var t := FanOut(b, event);
    forall i | 0 <= i < |t.channels| ensures Followed(t.log, t.channels[i]) {
      if i in b.subscribers {
        OfferKeepsFollowed(b.log, b.channels[i], event);
      } else {
        ClosedStaysFollowed(b.log, b.channels[i], event);
      }
    }
    hide Followed;
    assert forall i :: 0 <= i < |t.channels| ==> (i in t.subscribers <==> !t.channels[i].closed);
  }

  lemma ReceiveKeepsFollowed(log: seq<int>, c: Channel)
    requires Followed(log, c) && c.buffer != []
    ensures Followed(log, c.(received := c.received + [c.buffer[0]], buffer := c.buffer[1..]))
  {
    assert c.received + [c.buffer[0]] + c.buffer[1..] == Sent(c);
  }

  lemma ActionKeepsSound(b: Bus, a: Action)
    requires Sound(b)
    ensures Sound(After(b, a))
  {
    match a
    case Appends =>
    case FansOut(event) =>
      if event in b.pending {
        FanOutKeepsSound(b, event);
      }
    case Subscribes =>
      assert b.log[|b.log|..|b.log|] == [];
    case Cancels(i) =>
    case Receives(i) =>
      if i < |b.channels| && b.channels[i].buffer != [] {
        ReceiveKeepsFollowed(b.log, b.channels[i]);
      }
  }

  /** In every interleaving of publishing, subscribing, receiving and cancelling:
      no channel is closed twice or sent to after closing, and what a subscriber
      was sent is a gap-free piece of the fan-out beginning where it joined. */
  lemma {:induction false} EveryRunIsSound(actions: seq<Action>)
    ensures Sound(Run(actions))
  {
    hide Sound, After;
    if actions == [] {
      EmptyIsSound();
    } else {
      EveryRunIsSound(actions[..|actions| - 1]);
      ActionKeepsSound(Run(actions[..|actions| - 1]), actions[|actions| - 1]);
    }
  }

  lemma EmptyIsSound()
    ensures Sound(EMPTY)
  {
  }

  /** A fan-out closes exactly the subscribers with 32 events unread, and the first
      event such a subscriber misses is this one; every other subscriber is sent it,
      and nobody else's channel is touched. */
  lemma DropsExactlyTheSlow(b: Bus, event: int, i: nat)
    requires Sound(b) && event in b.pending && i < |b.channels|
    ensures |FanOut(b, event).channels| == |b.channels|
    ensures var t := FanOut(b, event);
            var was, c := b.channels[i], t.channels[i];
            && (c.closed && !was.closed <==> i in b.subscribers && |was.buffer| == 32)
            && (i in b.subscribers && c.closed ==> t.log[c.joined + |Sent(c)|] == event && i !in t.subscribers)
            && (i in b.subscribers && !c.closed ==> Sent(c) == Sent(was) + [event] && c.received == was.received && i in t.subscribers)
            && (i !in b.subscribers ==> c == was && i !in t.subscribers)
  {
    assert Followed(b.log, b.channels[i]);
  }

  /** What counts as a panic: a send on, or the closing of, a channel that is closed
      already. */
  lemma PanicsOnClosedChannels(b: Bus, event: int, i: nat)
    ensures FanOut(b, event).panicked
       <==> b.panicked || exists k :: 0 <= k < |b.channels| && k in b.subscribers && b.channels[k].closed
    ensures i < |b.channels| && i in b.subscribers ==> (Cancel(b, i).panicked <==> b.panicked || b.channels[i].closed)
    ensures Subscribe(b).panicked == Append(b).panicked == b.panicked
  {
    if k :| 0 <= k < |b.channels| && k in b.subscribers && b.channels[k].closed {
      assert FanOut(b, event).panicked;
    }
  }

  // ---- A client that asks for a replay first ----

  /** The numbers a replay after `after` answers: at most 200, in order. */
  predicate Replayed(journal: nat, after: int, limit: nat, e: int) {
    after < e <= journal && e <= after + limit && 1 <= e
  }

  /** The client asked for a replay when the bus was `asked` and subscribed when
      it was `joined`. */
  predicate Reaches(asked: Bus, joined: Bus, now: Bus, after: int, limit: nat, e: int) {
    || Replayed(asked.journal, after, limit, e)
    || exists k :: |joined.log| <= k < |now.log| && now.log[k] == e
  }

  /** An event fanned out by now passes the client by exactly when it was fanned out
      before the client subscribed and is not in the replay: it was not newer than
      `after`, or not yet journaled, or over the limit, when that was answered. */
  lemma MissedBetweenReplayAndSubscription(asked: Bus, joined: Bus, now: Bus, after: nat, limit: nat, e: int)
    requires Sound(now) && joined.log <= now.log
    requires e in now.log
    ensures !Reaches(asked, joined, now, after, limit, e)
       <==> e in joined.log && (e <= after || e > asked.journal || e > after + limit)
  {
    var k :| 0 <= k < |now.log| && now.log[k] == e;
    assert k < |joined.log| ==> joined.log[k] == e;
    if e in joined.log {
      var j :| 0 <= j < |joined.log| && joined.log[j] == e;
      assert now.log[j] == e;
    }
  }

  /** It does happen: the replay is answered, an event is published, the client
      subscribes. */
  lemma AnEventSlipsThrough()
    ensures var asked, now := Run([]), Run([Appends, FansOut(1), Subscribes]);
            && 1 in now.log
            && !Reaches(asked, now, now, 0, 200, 1)
  {
    var one: seq<Action>, two: seq<Action>, three: seq<Action> := [Appends], [Appends, FansOut(1)], [Appends, FansOut(1), Subscribes];
    assert three[..2] == two && two[..1] == one && one[..0] == [];
    assert Run(one) == Append(EMPTY);
    assert Run(two) == FanOut(Append(EMPTY), 1);
    assert Run(three) == Subscribe(Run(two));
    assert Run(two).log == [1];
  }

  // ---- Journal order and fan-out order ----

  /** Two numbers in the wrong order. */
  predicate Inverted(s: seq<int>) { exists i, j :: 0 <= i < j < |s| && s[i] > s[j] }

  /** Turn `n` fans out `later` while `earlier`, a lower number, is still pending. */
  predicate Overtakes(actions: seq<Action>, n: nat, earlier: int, later: int) {
    && n < |actions|
    && actions[n] == FansOut(later)
    && later in Run(actions[..n]).pending && earlier in Run(actions[..n]).pending
    && earlier < later
  }

  /** Every journaled event is pending or was fanned out. */
  predicate Accounted(b: Bus) {
    forall e :: 1 <= e <= b.journal ==> e in b.pending || e in b.log
  }

  lemma {:induction false} EveryRunIsAccounted(actions: seq<Action>)
    ensures Accounted(Run(actions))
  {
    if actions != [] {
      var b := Run(actions[..|actions| - 1]);
      EveryRunIsAccounted(actions[..|actions| - 1]);
      hide Run;
      AfterIsAccounted(b, actions[|actions| - 1]);
    }
  }

  lemma AfterIsAccounted(b: Bus, a: Action)
    requires Accounted(b)
    ensures Accounted(After(b, a))
  {
    hide Offer;
    if a.FansOut? && a.event in b.pending {
      forall e | 1 <= e <= b.journal ensures e in b.pending - {a.event} || e in b.log + [a.event] {
        assert e == a.event ==> (b.log + [a.event])[|b.log|] == e;
      }
    }
  }

  lemma {:induction false} LogGrows(actions: seq<Action>, n: nat)
    requires n <= |actions|
    ensures Run(actions[..n]).log <= Run(actions).log
  {
    if n == |actions| {
      assert actions[..n] == actions;
    } else {
      var front := actions[..|actions| - 1];
      assert front[..n] == actions[..n];
      LogGrows(front, n);
      AfterGrowsLog(Run(front), actions[|actions| - 1]);
    }
  }

  lemma AfterGrowsLog(b: Bus, a: Action)
    ensures After(b, a).log == if a.FansOut? && a.event in b.pending then b.log + [a.event] else b.log
  {
    hide Offer;
  }

  /** The turn that fanned out the k-th entry of the log. */
  lemma {:induction false} TurnOf(actions: seq<Action>, k: nat) returns (n: nat)
    requires k < |Run(actions).log|
    ensures n < |actions| && actions[n] == FansOut(Run(actions).log[k])
    ensures Run(actions).log[k] in Run(actions[..n]).pending && |Run(actions[..n]).log| == k
  {
    var front, last := actions[..|actions| - 1], actions[|actions| - 1];
    AfterGrowsLog(Run(front), last);
    if k < |Run(front).log| {
      n := TurnOf(front, k);
      assert front[..n] == actions[..n];
    } else {
      n := |front|;
    }
  }

  lemma InversionIsOvertaking(actions: seq<Action>, i: nat, j: nat) returns (n: nat)
    requires i < j < |Run(actions).log| && Run(actions).log[i] > Run(actions).log[j]
    ensures n < |actions|
    ensures var log := Run(actions).log;
            Overtakes(actions, n, log[j], log[i]) && |Run(actions[..n]).log| == i
  {
    var log := Run(actions).log;
    n := TurnOf(actions, i);
    LogGrows(actions, n);
    EveryRunIsSound(actions);
    EveryRunIsSound(actions[..n]);
    EveryRunIsAccounted(actions[..n]);
    hide Run, Followed;
    var before := Run(actions[..n]);
    assert 1 <= log[j] <= before.journal;
    forall k | 0 <= k < |before.log| ensures before.log[k] != log[j] {
      assert before.log[k] == log[k];
    }
  }

  lemma OvertakingIsInversion(actions: seq<Action>, n: nat, earlier: int, later: int, j: nat)
    requires Overtakes(actions, n, earlier, later)
    requires j < |Run(actions).log| && Run(actions).log[j] == earlier
    ensures var i := |Run(actions[..n]).log|; i < j && Run(actions).log[i] == later
  {
    var before, log := Run(actions[..n]), Run(actions).log;
    assert actions[..n + 1][..n] == actions[..n];
    AfterGrowsLog(before, actions[n]);
    LogGrows(actions, n + 1);
    EveryRunIsSound(actions[..n]);
    assert before.log + [later] <= log;
    hide Run, Followed, After;
    forall k | 0 <= k < |before.log| ensures log[k] != earlier {
      assert before.log[k] == log[k];
    }
    assert log[|before.log|] == later;
  }

  /** Some event was fanned out, as number `from` or later, while a lower number
      among these was still pending. */
  ghost predicate Overtaken(actions: seq<Action>, from: nat, among: seq<int>) {
    exists n: nat, earlier: int, later: int ::
      n < |actions| && Overtakes(actions, n, earlier, later) && |Run(actions[..n]).log| >= from && earlier in among
  }

  lemma InvertedIsOvertaken(actions: seq<Action>, from: nat, to: nat, i: nat, j: nat)
    requires from <= to <= |Run(actions).log| && i < j < to - from
    requires Run(actions).log[from..to][i] > Run(actions).log[from..to][j]
    ensures Overtaken(actions, from, Run(actions).log[from..to])
  {
    hide Run, Overtakes;
    var log := Run(actions).log;
    var stretch := log[from..to];
    assert stretch[i] == log[from + i] && stretch[j] == log[from + j];
    var n := InversionIsOvertaking(actions, from + i, from + j);
    assert stretch[j] in stretch;
  }

  lemma OvertakenIsInverted(actions: seq<Action>, from: nat, to: nat, n: nat, earlier: int, later: int)
    requires from <= to <= |Run(actions).log|
    requires n < |actions| && Overtakes(actions, n, earlier, later) && |Run(actions[..n]).log| >= from
    requires earlier in Run(actions).log[from..to]
    ensures Inverted(Run(actions).log[from..to])
  {
    var stretch := Run(actions).log[from..to];
    var order := earlier < later;
    hide Run, Overtakes;
    var j :| 0 <= j < |stretch| && stretch[j] == earlier;
    OvertakingIsInversion(actions, n, earlier, later, from + j);
    var i := |Run(actions[..n]).log| - from;
    assert 0 <= i < j && stretch[i] == later;
  }

  /** A stretch of the fan-out is out of journal order exactly when, since it
      began, some event overtook a lower number of the stretch. */
  lemma StretchInvertedExactlyWhenOvertaken(actions: seq<Action>, from: nat, to: nat)
    requires from <= to <= |Run(actions).log|
    ensures Inverted(Run(actions).log[from..to]) <==> Overtaken(actions, from, Run(actions).log[from..to])
  {
    hide Run, Overtakes;
    var stretch := Run(actions).log[from..to];
    if Inverted(stretch) {
      var i, j :| 0 <= i < j < |stretch| && stretch[i] > stretch[j];
      InvertedIsOvertaken(actions, from, to, i, j);
    }
    if Overtaken(actions, from, stretch) {
      var n: nat, earlier: int, later: int :|
        n < |actions| && Overtakes(actions, n, earlier, later) && |Run(actions[..n]).log| >= from && earlier in stretch;
      OvertakenIsInverted(actions, from, to, n, earlier, later);
    }
  }

  /** The fan-out as a whole is out of journal order exactly when some event was
      fanned out while a lower number, fanned out by now, was still pending. */
  lemma LogInvertedExactlyWhenOvertaken(actions: seq<Action>)
    ensures Inverted(Run(actions).log)
       <==> exists n: nat, earlier: int, later: int :: Overtakes(actions, n, earlier, later) && earlier in Run(actions).log
  {
    var log := Run(actions).log;
    StretchInvertedExactlyWhenOvertaken(actions, 0, |log|);
    assert log[0..|log|] == log;
    hide Run;
  }

  lemma FollowsTheLog(b: Bus, i: nat)
    requires Sound(b) && i < |b.channels|
    ensures var c := b.channels[i];
            c.joined + |Sent(c)| <= |b.log| && Sent(c) == b.log[c.joined..c.joined + |Sent(c)|]
  {
    assert Followed(b.log, b.channels[i]);
    hide Sent;
  }

  /** A subscriber was sent events out of journal order exactly when one of them
      was overtaken after it joined. */
  lemma SubscriberSeesInversion(actions: seq<Action>, i: nat)
    requires i < |Run(actions).channels|
    ensures var c := Run(actions).channels[i]; Inverted(Sent(c)) <==> Overtaken(actions, c.joined, Sent(c))
  {
    hide *;
    EveryRunIsSound(actions);
    FollowsTheLog(Run(actions), i);
    var c := Run(actions).channels[i];
    StretchInvertedExactlyWhenOvertaken(actions, c.joined, c.joined + |Sent(c)|);
  }

  /** And a subscriber may see two events out of their journal order. */
  lemma OrderMayDiffer()
    ensures var b := Run([Subscribes, Appends, Appends, FansOut(2), FansOut(1)]);
            |b.channels| == 1 && b.channels[0].buffer == [2, 1]
  {
    var five := [Subscribes, Appends, Appends, FansOut(2), FansOut(1)];
    var four, three, two, one := five[..4], five[..3], five[..2], five[..1];
    assert four[..3] == three && three[..2] == two && two[..1] == one && one[..0] == [];
    assert Run(one) == Subscribe(EMPTY);
    assert Run(two) == Append(Run(one));
    assert Run(three) == Append(Run(two));
    assert 2 in Run(three).pending && 1 in Run(three).pending;
    assert Run(four) == FanOut(Run(three), 2);
    assert Run(four).channels[0].buffer == [2];
    assert Run(five) == FanOut(Run(four), 1);
  }

  // ---- The service's side ----

  /** The fan-out with the subscribers in `left` still to come. */
  ghost predicate Halfway(before: Bus, event: int, left: set<int>, channels: seq<Channel>, subscribers: set<int>) {
    && |channels| == |before.channels|
    && (forall i :: 0 <= i < |channels| ==>
          channels[i] == if i in before.subscribers && i !in left then Offer(before.channels[i], event) else before.channels[i])
    && (forall i :: i in subscribers ==> i in before.subscribers)
    && (forall i :: 0 <= i < |channels| && i in before.subscribers ==>
          (i in subscribers <==> i in left || |before.channels[i].buffer| < CAPACITY))
  }

  lemma HalfwayStep(before: Bus, event: int, left: set<int>, channels: seq<Channel>, subscribers: set<int>)
    requires Sound(before) && Halfway(before, event, left, channels, subscribers) && left <= before.subscribers
    ensures forall i :: i in left ==>
              && 0 <= i < |channels| && !channels[i].closed
              && Halfway(before, event, left - {i}, channels[i := Offer(channels[i], event)],
                         if |channels[i].buffer| >= CAPACITY then subscribers - {i} else subscribers)
  {
    hide Followed, Numbered, Offer;
  }

  lemma HalfwayEnd(before: Bus, event: int, channels: seq<Channel>, subscribers: set<int>)
    requires Sound(before) && Halfway(before, event, {}, channels, subscribers)
    ensures channels == FanOut(before, event).channels && subscribers == FanOut(before, event).subscribers
    ensures !FanOut(before, event).panicked
  {
    hide Followed, Numbered, Offer;
    var t := FanOut(before, event);
    forall i | true ensures i in subscribers <==> i in t.subscribers {
      assert i in before.subscribers ==> 0 <= i < |channels|;
    }
  }

  /** The subscriber map under its mutex; `pending` and `log` are history, which
      the service does not keep. */
  class Hub {
    var journal: nat
    var pending: set<int>
    var log: seq<int>
    var channels: seq<Channel>
    var subscribers: set<int>
    var panicked: bool

    ghost function State(): Bus reads this { Bus(journal, pending, log, channels, subscribers, panicked) }

    constructor ()
      ensures State() == EMPTY
    {
      journal, pending, log, channels, subscribers, panicked := 0, {}, [], [], {}, false;
    }

    /** The journal's part of publishing: it numbers the event. */
    method Journal() returns (event: int)
      modifies this
      ensures State() == Append(old(State())) && event == old(journal) + 1
    {
      journal := journal + 1;
      event := journal;
      pending := pending + {event};
    }

    /** The loop over the subscribers, in whatever order the map gives them. */
    method Deliver(event: int)
      requires Sound(State()) && event in pending
      modifies this
      ensures State() == FanOut(old(State()), event) && Sound(State())
    {
      ghost var before := State();
      FanOutKeepsSound(before, event);
      hide Followed, Numbered, FanOut, Offer;
      var left := subscribers;
      while exists i :: i in left
        invariant left <= before.subscribers
        invariant journal == before.journal && pending == before.pending && log == before.log && !panicked
        invariant Halfway(before, event, left, channels, subscribers)
        decreases |left|
      {
        HalfwayStep(before, event, left, channels, subscribers);
        var i :| i in left;
        left := left - {i};
        var c := channels[i];
        panicked := panicked || c.closed;
        channels := channels[i := Offer(c, event)];
        if |c.buffer| >= CAPACITY {
          subscribers := subscribers - {i};
        }
      }
      assert left == {};
      HalfwayEnd(before, event, channels, subscribers);
      pending := pending - {event};
      log := log + [event];
    }

    method Join() returns (i: nat)
      modifies this
      ensures State() == Subscribe(old(State())) && i == |old(channels)|
    {
      i := |channels|;
      channels := channels + [Channel(|log|, [], [], false, false)];
      subscribers := subscribers + {i};
    }

    /** The function a subscriber gets to cancel with; it may be called twice. */
    method Leave(i: nat)
      requires i < |channels|
      modifies this
      ensures State() == Cancel(old(State()), i)
    {
      if i in subscribers {
        if channels[i].closed { panicked := true; }
        subscribers := subscribers - {i};
        channels := channels[i := channels[i].(closed := true, cancelled := true)];
      }
    }
  }
}
