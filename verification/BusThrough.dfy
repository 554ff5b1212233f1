/** What one publication does when nobody interferes, and that whatever a subscription holds can always
    reach the consumer, in order. */
module BusThrough {
  import opened Wrappers
  import opened EventBus
  import opened BusSafety
  import opened BusProgress
  import opened BusOrder
  import opened BusDelivery
  import opened BusClosing

  // ---------------------------------------------------------------- one publication

  /** The subscription is there and open, and the actor is free to publish. */
  predicate Open(b: Bus, a: Actor) {
    && !b.panicked && PcAt(b.pcs, a) == Idle && a !in b.lock.readers && a !in b.tally.owing
    && b.lock.writer == None && b.life.routed && !b.life.closed && b.life.channelCloses == 0
  }

  /** A run from b to a state with this pipe and these losses, everybody back where they were. */
  ghost predicate Publishes(cfg: Config, b: Bus, a: Actor, env: Envelope, states: seq<Bus>, pipe: Pipe, lost: seq<Envelope>) {
    && |states| > 0 && states[0] == b && Steps(cfg, states)
    && states[|states| - 1] ==
         b.(pcs := b.pcs[a := Idle], pipe := pipe,
            tally := b.tally.(published := b.tally.published + [env], lost := b.tally.lost + lost, dropped := b.tally.dropped + |lost|))
  }

  /** A publisher that is about to unlock goes home. */
  lemma GoesHome(cfg: Config, states: seq<Bus>, a: Actor, env: Envelope) returns (all: seq<Bus>)
    requires |states| > 0 && Steps(cfg, states)
    requires var b := states[|states| - 1]; !b.panicked && PcAt(b.pcs, a) == Publishing(UnlockShared, env)
    ensures var b := states[|states| - 1];
            all == states + [b.(pcs := b.pcs[a := Idle], lock := b.lock.(readers := b.lock.readers - {a}))]
    ensures Steps(cfg, all)
  {
    var b := states[|states| - 1];
    var b' := b.(pcs := b.pcs[a := Idle], lock := b.lock.(readers := b.lock.readers - {a}));
    assert ActorNext(cfg, b, b', a);
    assert Steps(cfg, [b, b']);
    hide Next, ActorNext;
    StepsConcat(cfg, states, [b, b']);
    assert [b, b'][1..] == [b'];
    all := states + [b'];
  }

  lemma Sent(cfg: Config, b: Bus, s: Bus, a: Actor, env: Envelope) returns (states: seq<Bus>)
    requires Open(b, a) && cfg.strategy != Overflow && |b.pipe.channel| < cfg.channelCap
    requires s.pcs == b.pcs[a := Publishing(FastSend, env)] && s == b.(pcs := s.pcs, lock := s.lock)
    ensures states == [s, Goto(Put(s, env), a, Publishing(UnlockShared, env))] && Steps(cfg, states)
  {
    var s' := Goto(Put(s, env), a, Publishing(UnlockShared, env));
    assert PublishNext(cfg, s, s', a, FastSend, env);
    assert ActorNext(cfg, s, s', a);
    states := [s, s'];
  }

  lemma TurnedDown(cfg: Config, b: Bus, s: Bus, a: Actor, env: Envelope) returns (states: seq<Bus>)
    requires Open(b, a) && cfg.strategy == DropNewest && |b.pipe.channel| >= cfg.channelCap
    requires s.pcs == b.pcs[a := Publishing(FastSend, env)] && s == b.(pcs := s.pcs, lock := s.lock)
    ensures |states| == 3 && states[0] == s && Steps(cfg, states)
    ensures states[2] == Goto(Count(Lose(s, a, env), a), a, Publishing(UnlockShared, env))
  {
    var s1 := Goto(Lose(s, a, env), a, Publishing(CountDropped, env));
    var s2 := Goto(Count(s1, a), a, Publishing(UnlockShared, env));
    assert PublishNext(cfg, s, s1, a, FastSend, env) && PublishNext(cfg, s1, s2, a, CountDropped, env);
    assert ActorNext(cfg, s, s1, a) && ActorNext(cfg, s1, s2, a);
    assert s2.pcs == s.pcs[a := Publishing(UnlockShared, env)];
    states := [s, s1, s2];
  }

  lemma MadeRoom(cfg: Config, b: Bus, s: Bus, a: Actor, env: Envelope) returns (states: seq<Bus>)
    requires Open(b, a) && cfg.strategy == DropOldest && |b.pipe.channel| == cfg.channelCap > 0
    requires s.pcs == b.pcs[a := Publishing(FastSend, env)] && s == b.(pcs := s.pcs, lock := s.lock)
    ensures |states| == 5 && states[0] == s && Steps(cfg, states)
    ensures var oldest, rest := s.pipe.channel[0], s.pipe.channel[1..];
            states[4] == s.(pcs := s.pcs[a := Publishing(UnlockShared, env)], pipe := s.pipe.(channel := rest + [env]),
              tally := s.tally.(published := s.tally.published + [env], lost := s.tally.lost + [oldest], dropped := s.tally.dropped + 1))
  {
    var s1 := Goto(s, a, Publishing(Evict, env));
    var s2 := Goto(s1, a, Publishing(CountEvicted, env))
                .(pipe := s.pipe.(channel := s.pipe.channel[1..]),
                  tally := s.tally.(lost := s.tally.lost + [s.pipe.channel[0]], owing := s.tally.owing + {a}));
    var s3 := Goto(Count(s2, a), a, Publishing(Enqueue, env));
    var s4 := Goto(Put(s3, env), a, Publishing(UnlockShared, env));
    assert PublishNext(cfg, s, s1, a, FastSend, env) && PublishNext(cfg, s1, s2, a, Evict, env);
    assert PublishNext(cfg, s2, s3, a, CountEvicted, env) && PublishNext(cfg, s3, s4, a, Enqueue, env);
    assert ActorNext(cfg, s, s1, a) && ActorNext(cfg, s1, s2, a) && ActorNext(cfg, s2, s3, a) && ActorNext(cfg, s3, s4, a);
    assert s4.pcs == s.pcs[a := Publishing(UnlockShared, env)];
    assert s4.tally.owing == s.tally.owing;
    states := [s, s1, s2, s3, s4];
  }

  lemma PutBehind(cfg: Config, b: Bus, s: Bus, a: Actor, env: Envelope) returns (states: seq<Bus>)
    requires Open(b, a) && cfg.strategy == Overflow && |b.pipe.ring| < cfg.ringCap
    requires s.pcs == b.pcs[a := Publishing(Push, env)] && s == b.(pcs := s.pcs, lock := s.lock)
    ensures |states| == 3 && states[0] == s && Steps(cfg, states)
    ensures states[2] == s.(pcs := s.pcs[a := Publishing(UnlockShared, env)],
              pipe := s.pipe.(ring := s.pipe.ring + [env], notify := true),
              tally := s.tally.(published := s.tally.published + [env]))
  {
    var s1 := Goto(s, a, Publishing(Signal, env))
                .(pipe := s.pipe.(ring := s.pipe.ring + [env]), tally := s.tally.(published := s.tally.published + [env]));
    var s2 := Goto(s1, a, Publishing(UnlockShared, env)).(pipe := s1.pipe.(notify := true));
    assert PublishNext(cfg, s, s1, a, Push, env) && PublishNext(cfg, s1, s2, a, Signal, env);
    assert ActorNext(cfg, s, s1, a) && ActorNext(cfg, s1, s2, a);
    assert s2.pcs == s.pcs[a := Publishing(UnlockShared, env)];
    states := [s, s1, s2];
  }

  /** A publication that runs by itself: with room in the channel the envelope is appended.  In a full
      channel, drop-newest leaves the channel and gives up the envelope, drop-oldest gives up the oldest
      and appends; an overflow subscription appends to its ring as long as there is room. */
  lemma PublishedAlone(cfg: Config, b: Bus, a: Actor, env: Envelope) returns (states: seq<Bus>)
    requires Open(b, a) && |b.pipe.channel| <= cfg.channelCap && cfg.channelCap > 0
    requires cfg.strategy == Overflow ==> |b.pipe.ring| < cfg.ringCap
    ensures var channel := b.pipe.channel;
            && (cfg.strategy == Overflow ==>
                  Publishes(cfg, b, a, env, states, b.pipe.(ring := b.pipe.ring + [env], notify := true), []))
            && (cfg.strategy != Overflow && |channel| < cfg.channelCap ==>
                  Publishes(cfg, b, a, env, states, b.pipe.(channel := channel + [env]), []))
            && (cfg.strategy == DropNewest && |channel| == cfg.channelCap ==>
                  Publishes(cfg, b, a, env, states, b.pipe, [env]))
            && (cfg.strategy == DropOldest && |channel| == cfg.channelCap ==>
                  Publishes(cfg, b, a, env, states, b.pipe.(channel := channel[1..] + [env]), [channel[0]]))
  {
    hide Next, PcAt;
    var asking := ReachesSend(cfg, b, a, env);
    var s := asking[5];
    var sending;
    if cfg.strategy == Overflow {
      sending := PutBehind(cfg, b, s, a, env);
    } else if |b.pipe.channel| < cfg.channelCap {
      sending := Sent(cfg, b, s, a, env);
    } else if cfg.strategy == DropNewest {
      sending := TurnedDown(cfg, b, s, a, env);
    } else {
      sending := MadeRoom(cfg, b, s, a, env);
    }
    StepsConcat(cfg, asking, sending);
    var before := asking + sending[1..];
    var end := sending[|sending| - 1];
    assert before[|before| - 1] == end;
    assert PcAt(end.pcs, a) == Publishing(UnlockShared, env) by { Stands(end, s, a, env); }
    states := GoesHome(cfg, before, a, env);
    assert end.pcs[a := Idle] == b.pcs[a := Idle];
    assert end.tally.owing == b.tally.owing;
    assert end.lock.readers - {a} == b.lock.readers;
    assert b.tally.lost + [] == b.tally.lost;
  }

  lemma Stands(b: Bus, s: Bus, a: Actor, env: Envelope)
    requires b.pcs == s.pcs[a := Publishing(UnlockShared, env)]
    ensures PcAt(b.pcs, a) == Publishing(UnlockShared, env)
  {}

  // ---------------------------------------------------------------- getting through

  /** Nothing stands in the way of what the subscription holds. */
  predicate Clear(cfg: Config, b: Bus) {
    && !b.panicked && cfg.channelCap > 0 && |b.pipe.channel| <= cfg.channelCap
    && (if b.pipe.drain.DrainExited? then b.pipe.drain == DrainExited(None) && b.pipe.ring == []
        else b.life.channelCloses == 0 && (b.pipe.drain.DrainWait? && b.pipe.ring != [] ==> b.pipe.notify))
  }

  /** How many steps are left at most. */
  function Left(pipe: Pipe): nat {
    4 * |pipe.ring| + 3 * |Held(pipe.drain)| + |pipe.channel|
    + (if pipe.drain == DrainPop then 1 else if pipe.drain.DrainWait? && pipe.ring != [] then 2 else 0)
  }

  /** The next step on the way to the consumer. */
  function Onward(pipe: Pipe): Pipe
    requires pipe.channel != [] || !pipe.drain.DrainExited?
  {
    if pipe.channel != [] then pipe.(channel := pipe.channel[1..], received := pipe.received + [pipe.channel[0]])
    else match pipe.drain
      case DrainPop =>
        if pipe.ring == [] then pipe.(drain := DrainWait) else pipe.(drain := DrainSend(pipe.ring[0]), ring := pipe.ring[1..])
      case DrainSend(env) => pipe.(drain := DrainPop, channel := pipe.channel + [env])
      case _ => pipe.(drain := DrainPop, notify := false)
  }

  lemma OnwardSteps(cfg: Config, b: Bus)
    requires Clear(cfg, b) && Left(b.pipe) > 0
    ensures b.pipe.channel != [] || !b.pipe.drain.DrainExited?
    ensures var b' := b.(pipe := Onward(b.pipe));
            && Next(cfg, b, b') && Clear(cfg, b') && Left(b'.pipe) < Left(b.pipe)
            && InOrder(b'.pipe) == InOrder(b.pipe)
  {
    hide InOrder;
    assert b.pipe.drain.DrainExited? ==> Held(b.pipe.drain) == [];
    var b' := b.(pipe := Onward(b.pipe));
    if b.pipe.channel != [] {
      assert ConsumeNext(b, b');
      ConsumeStays(b, b');
    } else {
      assert DrainNext(cfg, b, b');
      DrainStays(cfg, b, b');
    }
  }

  lemma {:induction false} GetsThrough(cfg: Config, b: Bus) returns (states: seq<Bus>)
    requires Clear(cfg, b)
    ensures |states| > 0 && states[0] == b && Steps(cfg, states)
    ensures var last := states[|states| - 1];
            last == b.(pipe := last.pipe) && last.pipe.received == InOrder(b.pipe) && Left(last.pipe) == 0
    decreases Left(b.pipe)
  {
    hide Next, Clear;
    if Left(b.pipe) == 0 {
      hide Left;
      states := [b];
      NothingLeft(b.pipe);
    } else {
      hide Left, InOrder, Onward;
      OnwardSteps(cfg, b);
      var b' := b.(pipe := Onward(b.pipe));
      var rest := GetsThrough(cfg, b');
      assert Steps(cfg, [b, b']);
      StepsConcat(cfg, [b, b'], rest);
      states := [b, b'] + rest[1..];
    }
  }

  lemma NothingLeft(pipe: Pipe)
    requires Left(pipe) == 0
    ensures InOrder(pipe) == pipe.received && pipe.ring == [] && pipe.channel == [] && Held(pipe.drain) == []
  {}

  /** From every state that a run can reach, unless the subscription is being closed or somebody is still
      about to wake the drain goroutine: the run can go on so that everything kept is received, in its
      order; and that is everything published, when no push has been refused. */
  lemma EverythingGetsThrough(cfg: Config, states: seq<Bus>) returns (more: seq<Bus>)
    requires Interleaving(cfg, states) && cfg.channelCap > 0
    requires var last := states[|states| - 1];
             !last.life.cancelled && forall a :: !AboutToSignal(PcAt(last.pcs, a))
    ensures Interleaving(cfg, states + more)
    ensures var last, end := states[|states| - 1], (states + more)[|states + more| - 1];
            && end.pipe.received == InOrder(last.pipe) && end.pipe.channel == [] && end.pipe.ring == []
            && end.tally == last.tally && end.pcs == last.pcs
            && (cfg.strategy == Overflow && !last.tally.refused ==> end.pipe.received == last.tally.published)
  {
    var last := states[|states| - 1];
    assert Clear(cfg, last) && (cfg.strategy == Overflow && !last.tally.refused ==> InOrder(last.pipe) == last.tally.published) by {
      hide Next, Subscribed, InOrder;
      WorkInEveryRun(cfg, states);
      EveryInterleavingIsSafe(cfg, states);
      IsClear(cfg, last);
    }
    hide Next, Subscribed, Clear, InOrder, Left, AboutToSignal, PcAt;
    var rest := GetsThrough(cfg, last);
    NothingLeft(rest[|rest| - 1].pipe);
    more := rest[1..];
    StepsConcat(cfg, states, rest);
    assert (states + more)[0] == states[0];
    if more == [] { assert states + more == states; }
  }

  lemma IsClear(cfg: Config, b: Bus)
    requires Inv(cfg, b) && WinnersWork(cfg, b) && cfg.channelCap > 0
    requires !b.life.cancelled && forall a :: !AboutToSignal(PcAt(b.pcs, a))
    ensures Clear(cfg, b)
    ensures cfg.strategy == Overflow && !b.tally.refused ==> InOrder(b.pipe) == b.tally.published
  {
    hide Places, NothingVanishes, CounterExact, InOrder, DoneIsOpen, ChannelIsOpen;
  }
}
