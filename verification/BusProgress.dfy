/** Nobody waits for ever on the bus: as long as an operation is unfinished, some actor that is not
    idle, or the drain goroutine, can move.  And what goes wrong once the ring refuses an envelope. */
module BusProgress {
  import opened Wrappers
  import opened EventBus
  import opened BusSafety

  /** The drain goroutine, once cancelled, can always move. */
  lemma CancelledDrainMoves(cfg: Config, b: Bus)
    requires b.life.cancelled && !b.pipe.drain.DrainExited?
    ensures exists b' :: DrainNext(cfg, b, b')
  {
    var b' :=
      match b.pipe.drain
      case DrainPop => b.(pipe := if b.pipe.ring == [] then b.pipe.(drain := DrainWait)
                                  else b.pipe.(drain := DrainSend(b.pipe.ring[0]), ring := b.pipe.ring[1..]))
      case DrainSend(env) => b.(pipe := b.pipe.(drain := DrainExited(Some(env))))
      case _ => b.(pipe := b.pipe.(drain := DrainExited(None)));
    assert DrainNext(cfg, b, b');
  }

  lemma SendMoves(cfg: Config, b: Bus, a: Actor, env: Envelope, full: Bus)
    ensures exists b' :: Send(cfg, b, b', a, env, full)
  {
    if b.life.channelCloses > 0 {
      assert Send(cfg, b, b.(panicked := true), a, env, full);
    } else if |b.pipe.channel| < cfg.channelCap {
      assert Send(cfg, b, Goto(Put(b, env), a, Publishing(UnlockShared, env)), a, env, full);
    } else {
      assert Send(cfg, b, full, a, env, full);
    }
  }

  /** A publisher that holds the lock never waits: delivery does not block. */
  lemma PublisherMoves(cfg: Config, b: Bus, a: Actor, p: PublishStep, env: Envelope)
    requires p != LockShared || b.lock.writer == None
    ensures exists b' :: PublishNext(cfg, b, b', a, p, env)
  {
    var lost := Goto(Lose(b, a, env), a, Publishing(CountDropped, env));
    match p
    case LockShared =>
      assert PublishNext(cfg, b, Goto(b, a, Publishing(Lookup, env)).(lock := b.lock.(readers := b.lock.readers + {a})), a, p, env);
    case Lookup => assert PublishNext(cfg, b, Goto(b, a, Publishing(if b.life.routed then CheckClosed else UnlockShared, env)), a, p, env);
    case CheckClosed => assert PublishNext(cfg, b, Goto(b, a, Publishing(if b.life.closed then UnlockShared else CheckContext, env)), a, p, env);
    case CheckContext => assert PublishNext(cfg, b, Goto(b, a, Publishing(UnlockShared, env)), a, p, env);
    case Push =>
      if |b.pipe.ring| >= cfg.ringCap {
        assert PublishNext(cfg, b, Goto(b, a, Publishing(Evict, env)).(tally := b.tally.(refused := true)), a, p, env);
      } else {
        assert PublishNext(cfg, b, Goto(b, a, Publishing(Signal, env))
                   .(pipe := b.pipe.(ring := b.pipe.ring + [env]), tally := b.tally.(published := b.tally.published + [env])), a, p, env);
      }
    case Signal => assert PublishNext(cfg, b, Goto(b, a, Publishing(UnlockShared, env)).(pipe := b.pipe.(notify := true)), a, p, env);
    case FastSend =>
      var full := if cfg.strategy == DropNewest then lost else Goto(b, a, Publishing(Evict, env));
      SendMoves(cfg, b, a, env, full);
      var b' :| Send(cfg, b, b', a, env, full);
      assert PublishNext(cfg, b, b', a, p, env);
    case Evict =>
      if b.pipe.channel != [] {
        assert PublishNext(cfg, b, Goto(b, a, Publishing(CountEvicted, env))
                .(pipe := b.pipe.(channel := b.pipe.channel[1..]),
                  tally := b.tally.(lost := b.tally.lost + [b.pipe.channel[0]], owing := b.tally.owing + {a})), a, p, env);
      } else if b.life.channelCloses > 0 {
        assert PublishNext(cfg, b, Goto(b, a, Publishing(CountEvicted, env)).(tally := b.tally.(owing := b.tally.owing + {a})), a, p, env);
      } else {
        assert PublishNext(cfg, b, Goto(b, a, Publishing(Enqueue, env)), a, p, env);
      }
    case CountEvicted => assert PublishNext(cfg, b, Goto(Count(b, a), a, Publishing(Enqueue, env)), a, p, env);
    case Enqueue =>
      SendMoves(cfg, b, a, env, lost);
      var b' :| Send(cfg, b, b', a, env, lost);
      assert PublishNext(cfg, b, b', a, p, env);
    case CountDropped => assert PublishNext(cfg, b, Goto(Count(b, a), a, Publishing(UnlockShared, env)), a, p, env);
    case UnlockShared => assert PublishNext(cfg, b, Goto(b, a, Idle).(lock := b.lock.(readers := b.lock.readers - {a})), a, p, env);
  }

  lemma CloserMoves(cfg: Config, b: Bus, a: Actor, c: CloseStep)
    requires CloserAt(b, a, c) && (c == AwaitDrain ==> b.pipe.drain.DrainExited?)
    requires c == LockBus ==> b.lock.writer == None && b.lock.readers == {}
    ensures exists b' :: CloseNext(b, b', a, c)
  {
    match c
    case LoadClosed => assert CloseNext(b, Goto(b, a, if b.life.closed then Idle else Closing(SwapClosed)), a, c);
    case SwapClosed =>
      if b.life.closed { assert CloseNext(b, Goto(b, a, Idle), a, c); }
      else { assert CloseNext(b, Goto(b, a, Closing(Cancel)).(life := b.life.(closed := true, winner := Some(a))), a, c); }
    case Cancel => assert CloseNext(b, Goto(b, a, Closing(AwaitDrain)).(life := b.life.(cancelled := true)), a, c);
    case AwaitDrain => assert CloseNext(b, Goto(b, a, Closing(CloseDone)), a, c);
    case CloseDone => assert CloseNext(b, Goto(b, a, Closing(LockBus)).(life := b.life.(doneCloses := 1)), a, c);
    case LockBus => assert CloseNext(b, Goto(b, a, Closing(Unroute)).(lock := b.lock.(writer := Some(a))), a, c);
    case Unroute => assert CloseNext(b, Goto(b, a, Closing(CloseChannel)).(life := b.life.(routed := false)), a, c);
    case CloseChannel => assert CloseNext(b, Goto(b, a, Closing(UnlockBus)).(life := b.life.(channelCloses := 1)), a, c);
    case UnlockBus => assert CloseNext(b, Goto(b, a, Idle).(lock := b.lock.(writer := None)), a, c);
  }

  lemma ShutterMoves(cfg: Config, b: Bus, a: Actor, c: CloseStep)
    requires ShutterAt(b, a, c) && (c == AwaitDrain ==> b.pipe.drain.DrainExited?)
    requires c == LockBus ==> b.lock.writer == None && b.lock.readers == {}
    ensures exists b' :: ShutdownNext(b, b', a, c)
  {
    match c
    case LockBus => assert ShutdownNext(b, Goto(b, a, ShuttingDown(IsRouted)).(lock := b.lock.(writer := Some(a))), a, c);
    case IsRouted => assert ShutdownNext(b, Goto(b, a, ShuttingDown(if b.life.routed then SwapClosed else UnlockBus)), a, c);
    case SwapClosed =>
      if b.life.closed { assert ShutdownNext(b, Goto(b, a, ShuttingDown(Unroute)), a, c); }
      else { assert ShutdownNext(b, Goto(b, a, ShuttingDown(Cancel)).(life := b.life.(closed := true, winner := Some(a))), a, c); }
    case Cancel => assert ShutdownNext(b, Goto(b, a, ShuttingDown(AwaitDrain)).(life := b.life.(cancelled := true)), a, c);
    case AwaitDrain => assert ShutdownNext(b, Goto(b, a, ShuttingDown(CloseDone)), a, c);
    case CloseDone => assert ShutdownNext(b, Goto(b, a, ShuttingDown(CloseChannel)).(life := b.life.(doneCloses := 1)), a, c);
    case CloseChannel => assert ShutdownNext(b, Goto(b, a, ShuttingDown(Unroute)).(life := b.life.(channelCloses := 1)), a, c);
    case Unroute => assert ShutdownNext(b, Goto(b, a, ShuttingDown(UnlockBus)).(life := b.life.(routed := false)), a, c);
    case UnlockBus => assert ShutdownNext(b, Goto(b, a, Idle).(lock := b.lock.(writer := None)), a, c);
  }

  /** Some actor that is not idle, or the drain goroutine, can take a step. */
  ghost predicate CanMove(cfg: Config, b: Bus) {
    || (exists b' :: DrainNext(cfg, b, b'))
    || (exists a, b' :: PcAt(b.pcs, a) != Idle && ActorNext(cfg, b, b', a))
  }

  /** An actor that waits for neither the lock nor the drain goroutine moves. */
  lemma ActorMoves(cfg: Config, b: Bus, a: Actor)
    requires Local(cfg, b, a, PcAt(b.pcs, a)) && PcAt(b.pcs, a) != Idle
    requires Waits(PcAt(b.pcs, a)) ==> b.pipe.drain.DrainExited?
    requires WantsLock(PcAt(b.pcs, a)) ==> b.lock.writer == None && b.lock.readers == {}
    ensures CanMove(cfg, b)
  {
    hide PublishNext, CloseNext, ShutdownNext;
    match PcAt(b.pcs, a)
    case Publishing(p, env) =>
      PublisherMoves(cfg, b, a, p, env);
      var b' :| PublishNext(cfg, b, b', a, p, env);
      assert ActorNext(cfg, b, b', a);
    case Closing(c) =>
      CloserMoves(cfg, b, a, c);
      var b' :| CloseNext(b, b', a, c);
      assert ActorNext(cfg, b, b', a);
    case ShuttingDown(c) =>
      ShutterMoves(cfg, b, a, c);
      var b' :| ShutdownNext(b, b', a, c);
      assert ActorNext(cfg, b, b', a);
  }

  predicate Waits(pc: Pc) {
    (pc.Closing? || pc.ShuttingDown?) && pc.c == AwaitDrain
  }

  predicate WantsLock(pc: Pc) {
    (pc.Publishing? && pc.p == LockShared) || ((pc.Closing? || pc.ShuttingDown?) && pc.c == LockBus)
  }

  /** Who waits for the drain goroutine has cancelled it. */
  lemma WaitingMoves(cfg: Config, b: Bus, a: Actor)
    requires Local(cfg, b, a, PcAt(b.pcs, a)) && PcAt(b.pcs, a) != Idle && !WantsLock(PcAt(b.pcs, a))
    ensures CanMove(cfg, b)
  {
    if Waits(PcAt(b.pcs, a)) && !b.pipe.drain.DrainExited? {
      CancelledDrainMoves(cfg, b);
    } else {
      ActorMoves(cfg, b, a);
    }
  }

  lemma BusyStateMoves(cfg: Config, b: Bus, a: Actor)
    requires Global(cfg, b) && Places(cfg, b) && PcAt(b.pcs, a) != Idle
    ensures CanMove(cfg, b)
  {
    hide CanMove, DrainNext, ActorNext;
    assert Local(cfg, b, a, PcAt(b.pcs, a));
    if !WantsLock(PcAt(b.pcs, a)) {
      WaitingMoves(cfg, b, a);
    } else if b.lock.writer.Some? {
      var w := b.lock.writer.value;
      assert Local(cfg, b, w, PcAt(b.pcs, w));
      WaitingMoves(cfg, b, w);
    } else if b.lock.readers != {} {
      var r := Member(b.lock.readers);
      assert Local(cfg, b, r, PcAt(b.pcs, r));
      WaitingMoves(cfg, b, r);
    } else {
      ActorMoves(cfg, b, a);
    }
  }

  /** No interleaving ends in a deadlock: while any operation is unfinished, something can move. */
  lemma NoDeadlock(cfg: Config, states: seq<Bus>, a: Actor)
    requires Interleaving(cfg, states) && PcAt(states[|states| - 1].pcs, a) != Idle
    ensures CanMove(cfg, states[|states| - 1])
  {
    hide CanMove, Next, Places, Global, NoLostWakeup, FifoUntilRefused, NothingVanishes, CounterExact;
    EveryInterleavingIsSafe(cfg, states);
    BusyStateMoves(cfg, states[|states| - 1], a);
  }

  // ---------------------------------------------------------------- once the ring is full

  /** Five steps of a publisher that finds the subscription open. */
  lemma ReachesSend(cfg: Config, b: Bus, a: Actor, env: Envelope) returns (states: seq<Bus>)
    requires !b.panicked && PcAt(b.pcs, a) == Idle
    requires b.lock.writer == None && b.life.routed && !b.life.closed
    ensures |states| == 6 && states[0] == b && Steps(cfg, states)
    ensures states[5].pcs == b.pcs[a := Publishing(if cfg.strategy == Overflow then Push else FastSend, env)]
    ensures states[5].(pcs := b.pcs, lock := b.lock) == b && states[5].lock == b.lock.(readers := b.lock.readers + {a})
  {
    var s1 := Goto(b, a, Publishing(LockShared, env));
    var s2 := Goto(s1, a, Publishing(Lookup, env)).(lock := s1.lock.(readers := s1.lock.readers + {a}));
    var s3 := Goto(s2, a, Publishing(CheckClosed, env));
    var s4 := Goto(s3, a, Publishing(CheckContext, env));
    var sending := Publishing(if cfg.strategy == Overflow then Push else FastSend, env);
    var s5 := Goto(s4, a, sending);
    assert ActorNext(cfg, b, s1, a) && ActorNext(cfg, s1, s2, a) && ActorNext(cfg, s2, s3, a);
    assert ActorNext(cfg, s3, s4, a) && ActorNext(cfg, s4, s5, a);
    assert s5.pcs == b.pcs[a := sending];
    states := [b, s1, s2, s3, s4, s5];
  }

  ghost predicate Steps(cfg: Config, states: seq<Bus>) {
    forall i :: 0 < i < |states| ==> Next(cfg, states[i - 1], states[i])
  }

  lemma StepsConcat(cfg: Config, s: seq<Bus>, t: seq<Bus>)
    requires Steps(cfg, s) && Steps(cfg, t) && |s| > 0 && |t| > 0 && s[|s| - 1] == t[0]
    ensures Steps(cfg, s + t[1..])
  {
    hide Next;
    var u := s + t[1..];
    forall i | 0 < i < |u| ensures Next(cfg, u[i - 1], u[i]) {
      if i >= |s| {
        var k := i - |s| + 1;
        assert u[i] == t[k] && u[i - 1] == t[k - 1];
      }
    }
  }

  /** With one place in the ring and one in the channel, two publishers and the consumer: the second
      envelope overtakes the first.  Nothing is lost, but the order is gone. */
  lemma OvertakenOnceRefused() returns (states: seq<Bus>)
    ensures Interleaving(Config(Overflow, 1, 1), states)
    ensures var last := states[|states| - 1];
            && last.tally.published == [1, 2] && last.tally.lost == [] && last.tally.refused
            && last.pipe.received == [2] && last.pipe.ring == [1]
  {
    hide Next;
    var cfg := Config(Overflow, 1, 1);
    var s0 := Subscribed(cfg);
    var first := ReachesSend(cfg, s0, 1, 1);
    var p1 := first[5];
    var pushed := Pushed(p1, 1, 1);
    PushStep(cfg, p1, 1, 1);
    var second := ReachesSend(cfg, pushed, 2, 2);
    var rest := Refused(cfg, second[5], 2, 2);
    StepsConcat(cfg, first, [p1, pushed]);
    StepsConcat(cfg, first + [p1, pushed][1..], second);
    StepsConcat(cfg, first + [p1, pushed][1..] + second[1..], rest);
    states := first + [p1, pushed][1..] + second[1..] + rest[1..];
  }

  function Pushed(b: Bus, a: Actor, env: Envelope): Bus {
    Goto(b, a, Publishing(Signal, env))
      .(pipe := b.pipe.(ring := b.pipe.ring + [env]), tally := b.tally.(published := b.tally.published + [env]))
  }

  lemma PushStep(cfg: Config, b: Bus, a: Actor, env: Envelope)
    requires !b.panicked && PcAt(b.pcs, a) == Publishing(Push, env) && |b.pipe.ring| < cfg.ringCap
    ensures Next(cfg, b, Pushed(b, a, env))
  {
    assert ActorNext(cfg, b, Pushed(b, a, env), a);
  }

  /** The ring is full and the channel empty: the envelope goes straight to the consumer. */
  lemma Refused(cfg: Config, b: Bus, a: Actor, env: Envelope) returns (states: seq<Bus>)
    requires !b.panicked && PcAt(b.pcs, a) == Publishing(Push, env) && |b.pipe.ring| >= cfg.ringCap
    requires b.pipe.channel == [] && b.life.channelCloses == 0 && cfg.channelCap > 0
    ensures |states| == 5 && states[0] == b && Steps(cfg, states)
    ensures states[4].tally == b.tally.(refused := true, published := b.tally.published + [env])
    ensures states[4].pipe == b.pipe.(received := b.pipe.received + [env])
  {
    var s1 := Goto(b, a, Publishing(Evict, env)).(tally := b.tally.(refused := true));
    var s2 := Goto(s1, a, Publishing(Enqueue, env));
    var s3 := Goto(Put(s2, env), a, Publishing(UnlockShared, env));
    var s4 := s3.(pipe := s3.pipe.(channel := s3.pipe.channel[1..], received := s3.pipe.received + [s3.pipe.channel[0]]));
    assert ActorNext(cfg, b, s1, a) && ActorNext(cfg, s1, s2, a);
    assert ActorNext(cfg, s2, s3, a) by { assert PublishNext(cfg, s2, s3, a, Enqueue, env); }
    assert ConsumeNext(s3, s4);
    assert s3.pipe.channel == [env] && s4.pipe.channel == [];
    states := [b, s1, s2, s3, s4];
  }

  /** With two places in the channel the same refusal does no harm when the drain goroutine clears the
      ring before the refused envelope is sent. */
  lemma RefusedYetInOrder() returns (states: seq<Bus>)
    ensures Interleaving(Config(Overflow, 2, 1), states)
    ensures var last := states[|states| - 1];
            && last.tally.published == [1, 2] && last.tally.lost == [] && last.tally.refused
            && last.pipe.received == [] && last.pipe.channel == [1, 2] && last.pipe.ring == []
  {
    hide Next;
    var cfg := Config(Overflow, 2, 1);
    var first := ReachesSend(cfg, Subscribed(cfg), 1, 1);
    var p1 := first[5];
    var pushed := Pushed(p1, 1, 1);
    PushStep(cfg, p1, 1, 1);
    var second := ReachesSend(cfg, pushed, 2, 2);
    var rest := RefusedThenCleared(cfg, second[5], 2, 2, 1);
    StepsConcat(cfg, first, [p1, pushed]);
    StepsConcat(cfg, first + [p1, pushed][1..], second);
    StepsConcat(cfg, first + [p1, pushed][1..] + second[1..], rest);
    states := first + [p1, pushed][1..] + second[1..] + rest[1..];
  }

  /** The ring is full with one envelope, which reaches the channel before the refused one does. */
  lemma RefusedThenCleared(cfg: Config, b: Bus, a: Actor, env: Envelope, older: Envelope) returns (states: seq<Bus>)
    requires !b.panicked && PcAt(b.pcs, a) == Publishing(Push, env) && b.pipe.ring == [older] && cfg.ringCap == 1
    requires b.pipe.channel == [] && b.life.channelCloses == 0 && b.pipe.drain == DrainPop && cfg.channelCap == 2
    ensures |states| == 6 && states[0] == b && Steps(cfg, states)
    ensures states[5].tally == b.tally.(refused := true, published := b.tally.published + [env])
    ensures states[5].pipe == b.pipe.(channel := [older, env], ring := [])
  {
    var s1 := Goto(b, a, Publishing(Evict, env)).(tally := b.tally.(refused := true));
    var s2 := Goto(s1, a, Publishing(Enqueue, env));
    var s3 := s2.(pipe := s2.pipe.(drain := DrainSend(older), ring := []));
    var s4 := s3.(pipe := s3.pipe.(drain := DrainPop, channel := [older]));
    var s5 := Goto(Put(s4, env), a, Publishing(UnlockShared, env));
    assert ActorNext(cfg, b, s1, a) && ActorNext(cfg, s1, s2, a);
    assert DrainNext(cfg, s2, s3) && DrainNext(cfg, s3, s4);
    assert ActorNext(cfg, s4, s5, a) by { assert PublishNext(cfg, s4, s5, a, Enqueue, env); }
    assert s4.pipe.channel + [env] == [older, env];
    states := [b, s1, s2, s3, s4, s5];
  }
}
