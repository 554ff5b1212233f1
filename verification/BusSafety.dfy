/** What holds in every state that any interleaving of publishers, closers, drain goroutine and
    consumer can reach. */
module BusSafety {
  import opened Wrappers
  import opened EventBus

  // ---------------------------------------------------------------- the invariant

  predicate InDeliver(p: PublishStep) {
    p != LockShared && p != Lookup && p != UnlockShared
  }

  /** On the way that pushes an older envelope out. */
  predicate Displacing(p: PublishStep) {
    p == Evict || p == CountEvicted || p == Enqueue || p == CountDropped
  }

  /** A publisher past the lock shares it; inside deliver the subscription is routed, the path is
      that of the strategy, and the counter is owed an increment just before it is made. */
  ghost predicate PublisherAt(cfg: Config, b: Bus, a: Actor, p: PublishStep) {
    && (a in b.lock.readers <==> p != LockShared) && b.lock.writer != Some(a)
    && (InDeliver(p) ==> b.life.routed)
    && (p == FastSend ==> cfg.strategy != Overflow)
    && (p == Push || p == Signal ==> cfg.strategy == Overflow)
    && (Displacing(p) && cfg.strategy == Overflow ==> b.tally.refused)
    && (a in b.tally.owing <==> p == CountEvicted || p == CountDropped)
  }

  /** Between its swap of the close flag and its close of a channel, the winner finds the channel
      open; it has cancelled the drain goroutine and seen it leave before going on. */
  ghost predicate WinnerAt(b: Bus, a: Actor, c: CloseStep) {
    && b.life.winner == Some(a) && b.life.channelCloses == 0
    && (c == Cancel || c == AwaitDrain || c == CloseDone ==> b.life.doneCloses == 0)
    && (c == AwaitDrain ==> b.life.cancelled)
    && (c != Cancel && c != AwaitDrain ==> b.pipe.drain.DrainExited?)
  }

  ghost predicate CloserAt(b: Bus, a: Actor, c: CloseStep) {
    && a !in b.lock.readers && a !in b.tally.owing && c != IsRouted
    && (b.lock.writer == Some(a) <==> c == Unroute || c == CloseChannel || c == UnlockBus)
    && (c != LoadClosed && c != SwapClosed && c != UnlockBus ==> WinnerAt(b, a, c))
    && (c == CloseChannel || c == UnlockBus ==> !b.life.routed)
  }

  ghost predicate ShutterAt(b: Bus, a: Actor, c: CloseStep) {
    && a !in b.lock.readers && a !in b.tally.owing && c != LoadClosed
    && (b.lock.writer == Some(a) <==> c != LockBus)
    && (c == Cancel || c == AwaitDrain || c == CloseDone || c == CloseChannel ==> WinnerAt(b, a, c))
    && (c == UnlockBus ==> !b.life.routed)
  }

  /** What an actor's place says about the shared state. */
  ghost predicate Local(cfg: Config, b: Bus, a: Actor, pc: Pc) {
    match pc
    case Idle => a !in b.lock.readers && b.lock.writer != Some(a) && a !in b.tally.owing
    case Publishing(p, _) => PublisherAt(cfg, b, a, p)
    case Closing(c) => CloserAt(b, a, c)
    case ShuttingDown(c) => ShutterAt(b, a, c)
  }

  ghost predicate Places(cfg: Config, b: Bus) {
    forall a :: Local(cfg, b, a, PcAt(b.pcs, a))
  }

  ghost predicate Global(cfg: Config, b: Bus) {
    && !b.panicked
    && (b.lock.writer.Some? ==> b.lock.readers == {})
    && (b.life.closed <==> b.life.winner.Some?)
    && (!b.life.closed ==> b.life.doneCloses == 0 && b.life.channelCloses == 0)
    && (b.life.channelCloses > 0 ==> b.pipe.drain.DrainExited?)
    // a closed channel is out of the routing table, or the writer is just about to take it out
    && (b.life.channelCloses > 0 && b.life.routed ==>
          b.lock.writer.Some? && PcAt(b.pcs, b.lock.writer.value) == ShuttingDown(Unroute))
    && (cfg.strategy != Overflow ==> b.pipe.ring == [] && b.pipe.drain == DrainExited(None))
    && |b.pipe.channel| <= cfg.channelCap && |b.pipe.ring| <= cfg.ringCap
  }

  predicate AboutToSignal(pc: Pc) {
    pc.Publishing? && pc.p == Signal
  }

  /** If the drain goroutine waits while the ring is not empty, a token is there, or a publisher
      about to leave one, or the context is cancelled. */
  ghost predicate NoLostWakeup(b: Bus) {
    b.pipe.drain.DrainWait? && b.pipe.ring != [] ==>
      b.pipe.notify || b.life.cancelled || exists a :: AboutToSignal(PcAt(b.pcs, a))
  }

  function Held(d: Drain): seq<Envelope> {
    match d
    case DrainSend(env) => [env]
    case DrainExited(Some(env)) => [env]
    case _ => []
  }

  /** Received, in the channel, in hand, in the ring. */
  function InOrder(pipe: Pipe): seq<Envelope> {
    pipe.received + pipe.channel + Held(pipe.drain) + pipe.ring
  }

  /** Until a push is refused, an overflow subscription has everything, in order. */
  ghost predicate FifoUntilRefused(cfg: Config, b: Bus) {
    cfg.strategy == Overflow && !b.tally.refused ==> InOrder(b.pipe) == b.tally.published && b.tally.lost == []
  }

  /** Every envelope decided on is received, on its way, or lost. */
  ghost predicate NothingVanishes(b: Bus) {
    multiset(b.tally.published) == multiset(InOrder(b.pipe)) + multiset(b.tally.lost)
  }

  /** The counter is behind the losses by exactly the increments under way. */
  ghost predicate CounterExact(b: Bus) {
    b.tally.dropped + |b.tally.owing| == |b.tally.lost|
  }

  ghost predicate Inv(cfg: Config, b: Bus) {
    && Global(cfg, b) && Places(cfg, b)
    && NoLostWakeup(b) && FifoUntilRefused(cfg, b) && NothingVanishes(b) && CounterExact(b)
  }

  // ---------------------------------------------------------------- the others stay in place

  /** What a publisher's step leaves as it was for actor x. */
  ghost predicate PublishFrame(b: Bus, b': Bus, x: Actor) {
    && b'.life == b.life && b'.pipe.drain == b.pipe.drain && b'.lock.writer == b.lock.writer
    && (x in b'.lock.readers <==> x in b.lock.readers) && (x in b'.tally.owing <==> x in b.tally.owing)
    && (b.tally.refused ==> b'.tally.refused)
    && PcAt(b'.pcs, x) == PcAt(b.pcs, x)
  }

  lemma PublishFrames(cfg: Config, b: Bus, b': Bus, a: Actor, p: PublishStep, env: Envelope, x: Actor)
    requires PublishNext(cfg, b, b', a, p, env) && x != a
    ensures PublishFrame(b, b', x)
  {
    match p
    case LockShared => return;
    case Lookup => return;
    case CheckClosed => return;
    case CheckContext => return;
    case Push => return;
    case Signal => return;
    case FastSend => return;
    case Evict => return;
    case CountEvicted => return;
    case Enqueue => return;
    case CountDropped => return;
    case UnlockShared => return;
  }

  lemma PublishFrameLocal(cfg: Config, b: Bus, b': Bus, x: Actor)
    requires PublishFrame(b, b', x) && Local(cfg, b, x, PcAt(b.pcs, x))
    ensures Local(cfg, b', x, PcAt(b'.pcs, x))
  {
    hide InDeliver, Displacing, PcAt;
  }

  /** Inside deliver the channel is open: this is why no send on it can panic. */
  lemma DeliverFindsItOpen(cfg: Config, b: Bus, a: Actor, p: PublishStep, env: Envelope)
    requires Global(cfg, b) && Local(cfg, b, a, Publishing(p, env)) && InDeliver(p)
    ensures b.life.channelCloses == 0
  {
    hide PcAt, Displacing;
    assert a in b.lock.readers;
  }

  lemma PublishSelf(cfg: Config, b: Bus, b': Bus, a: Actor, p: PublishStep, env: Envelope)
    requires Global(cfg, b) && Local(cfg, b, a, Publishing(p, env)) && PublishNext(cfg, b, b', a, p, env)
    ensures Local(cfg, b', a, PcAt(b'.pcs, a))
  {
    match p
    case LockShared => return;
    case Lookup => return;
    case CheckClosed => return;
    case CheckContext => return;
    case Push => return;
    case Signal => return;
    case FastSend => return;
    case Evict => return;
    case CountEvicted => return;
    case Enqueue => return;
    case CountDropped => return;
    case UnlockShared => return;
  }

  lemma PublishGlobal(cfg: Config, b: Bus, b': Bus, a: Actor, p: PublishStep, env: Envelope)
    requires Global(cfg, b) && Local(cfg, b, a, Publishing(p, env)) && PublishNext(cfg, b, b', a, p, env)
    ensures Global(cfg, b')
  {
    match p
    case LockShared => return;
    case Lookup => return;
    case CheckClosed => return;
    case CheckContext => return;
    case Push => return;
    case Signal => return;
    case FastSend => return;
    case Evict => return;
    case CountEvicted => return;
    case Enqueue => return;
    case CountDropped => return;
    case UnlockShared => return;
  }

  // ---------------------------------------------------------------- closing

  /** What a closer's step leaves as it was for actor x: its place, its hold on the lock, the route as
      long as it reads, and what it has won. */
  ghost predicate CloseFrame(b: Bus, b': Bus, x: Actor) {
    && b'.pipe == b.pipe && b'.tally == b.tally && PcAt(b'.pcs, x) == PcAt(b.pcs, x)
    && LockFrame(b, b', x) && WinnerFrame(b, b', x)
  }

  ghost predicate LockFrame(b: Bus, b': Bus, x: Actor) {
    && b'.lock.readers == b.lock.readers
    && (b'.lock.writer == Some(x) <==> b.lock.writer == Some(x))
    && (x in b.lock.readers && b.life.routed ==> b'.life.routed)
    && (!b.life.routed ==> !b'.life.routed)
  }

  ghost predicate WinnerFrame(b: Bus, b': Bus, x: Actor) {
    b.life.winner == Some(x) ==>
      && b'.life.winner == Some(x)
      && b'.life.doneCloses == b.life.doneCloses && b'.life.channelCloses == b.life.channelCloses
      && (b.life.cancelled ==> b'.life.cancelled)
  }

  lemma CloseFrameLocal(cfg: Config, b: Bus, b': Bus, x: Actor)
    requires CloseFrame(b, b', x) && Local(cfg, b, x, PcAt(b.pcs, x))
    ensures Local(cfg, b', x, PcAt(b'.pcs, x))
  {
    hide InDeliver, Displacing, PcAt;
    if PcAt(b.pcs, x).Publishing? { InDeliverReads(cfg, b, x); }
  }

  lemma InDeliverReads(cfg: Config, b: Bus, x: Actor)
    requires Local(cfg, b, x, PcAt(b.pcs, x)) && PcAt(b.pcs, x).Publishing?
    ensures InDeliver(PcAt(b.pcs, x).p) ==> x in b.lock.readers
  {}

  lemma CloseFrames(cfg: Config, b: Bus, b': Bus, a: Actor, c: CloseStep, x: Actor)
    requires Global(cfg, b) && CloserAt(b, a, c) && CloseNext(b, b', a, c) && x != a
    ensures CloseFrame(b, b', x)
  {
    match c
    case LoadClosed => return;
    case SwapClosed => return;
    case Cancel => return;
    case AwaitDrain => return;
    case CloseDone => return;
    case LockBus => return;
    case IsRouted => return;
    case Unroute => return;
    case CloseChannel => return;
    case UnlockBus => return;
  }

  lemma CloseSelf(cfg: Config, b: Bus, b': Bus, a: Actor, c: CloseStep)
    requires Global(cfg, b) && Local(cfg, b, a, Closing(c)) && CloseNext(b, b', a, c)
    ensures Local(cfg, b', a, PcAt(b'.pcs, a)) && Global(cfg, b')
  {
    match c
    case LoadClosed => return;
    case SwapClosed => return;
    case Cancel => return;
    case AwaitDrain => return;
    case CloseDone => return;
    case LockBus => return;
    case IsRouted => return;
    case Unroute => return;
    case CloseChannel => return;
    case UnlockBus => return;
  }

  lemma ShutdownFrames(cfg: Config, b: Bus, b': Bus, a: Actor, c: CloseStep, x: Actor)
    requires Global(cfg, b) && ShutterAt(b, a, c) && ShutdownNext(b, b', a, c) && x != a
    ensures CloseFrame(b, b', x)
  {
    match c
    case LoadClosed => return;
    case SwapClosed => return;
    case Cancel => return;
    case AwaitDrain => return;
    case CloseDone => return;
    case LockBus => return;
    case IsRouted => return;
    case Unroute => return;
    case CloseChannel => return;
    case UnlockBus => return;
  }

  lemma ShutdownSelf(cfg: Config, b: Bus, b': Bus, a: Actor, c: CloseStep)
    requires Global(cfg, b) && Local(cfg, b, a, ShuttingDown(c)) && ShutdownNext(b, b', a, c)
    requires PcAt(b.pcs, a) == ShuttingDown(c)
    ensures Local(cfg, b', a, PcAt(b'.pcs, a)) && Global(cfg, b')
  {
    match c
    case LoadClosed => return;
    case SwapClosed => return;
    case Cancel => return;
    case AwaitDrain => return;
    case CloseDone => return;
    case LockBus => return;
    case IsRouted => return;
    case Unroute => return;
    case CloseChannel => return;
    case UnlockBus => return;
  }

  // ---------------------------------------------------------------- drain goroutine and consumer

  lemma DrainKeepsPlaces(cfg: Config, b: Bus, b': Bus)
    requires Global(cfg, b) && DrainNext(cfg, b, b')
    ensures Global(cfg, b') && forall x :: Local(cfg, b, x, PcAt(b.pcs, x)) ==> Local(cfg, b', x, PcAt(b'.pcs, x))
  {
    match b.pipe.drain
    case DrainPop => return;
    case DrainSend(_) => return;
    case DrainWait => return;
    case DrainExited(_) => return;
  }

  lemma ConsumeKeepsPlaces(cfg: Config, b: Bus, b': Bus)
    requires Global(cfg, b) && ConsumeNext(b, b')
    ensures Global(cfg, b') && forall x :: Local(cfg, b, x, PcAt(b.pcs, x)) ==> Local(cfg, b', x, PcAt(b'.pcs, x))
  {}

  lemma EnterKeepsPlaces(cfg: Config, b: Bus, b': Bus, a: Actor)
    requires Global(cfg, b) && Places(cfg, b)
    requires PcAt(b.pcs, a) == Idle && ActorNext(cfg, b, b', a)
    ensures Global(cfg, b') && Places(cfg, b')
  {
    assert Local(cfg, b, a, Idle);
    assert Global(cfg, b') by {
      if b.lock.writer.Some? { assert Local(cfg, b, b.lock.writer.value, PcAt(b.pcs, b.lock.writer.value)); }
    }
    forall x ensures Local(cfg, b', x, PcAt(b'.pcs, x)) {
      assert Local(cfg, b, x, PcAt(b.pcs, x));
    }
  }

  lemma ActorKeepsPlaces(cfg: Config, b: Bus, b': Bus, a: Actor)
    requires Global(cfg, b) && Places(cfg, b) && ActorNext(cfg, b, b', a)
    ensures Global(cfg, b') && Places(cfg, b')
  {
    hide Global, CloserAt, ShutterAt, PublisherAt, PublishNext, CloseNext, ShutdownNext, PcAt, PublishFrame, CloseFrame;
    assert Local(cfg, b, a, PcAt(b.pcs, a));
    match PcAt(b.pcs, a)
    case Idle => EnterKeepsPlaces(cfg, b, b', a);
    case Publishing(p, env) =>
      PublishSelf(cfg, b, b', a, p, env);
      PublishGlobal(cfg, b, b', a, p, env);
      forall x ensures Local(cfg, b', x, PcAt(b'.pcs, x)) {
        if x != a {
          PublishFrames(cfg, b, b', a, p, env, x);
          PublishFrameLocal(cfg, b, b', x);
        }
      }
    case Closing(c) =>
      CloseSelf(cfg, b, b', a, c);
      forall x ensures Local(cfg, b', x, PcAt(b'.pcs, x)) {
        if x != a {
          CloseFrames(cfg, b, b', a, c, x);
          CloseFrameLocal(cfg, b, b', x);
        }
      }
    case ShuttingDown(c) =>
      ShutdownSelf(cfg, b, b', a, c);
      forall x ensures Local(cfg, b', x, PcAt(b'.pcs, x)) {
        if x != a {
          ShutdownFrames(cfg, b, b', a, c, x);
          CloseFrameLocal(cfg, b, b', x);
        }
      }
  }

  // ---------------------------------------------------------------- wake-ups

  lemma DrainKeepsWakeup(cfg: Config, b: Bus, b': Bus)
    requires NoLostWakeup(b) && DrainNext(cfg, b, b')
    ensures NoLostWakeup(b')
  {
    hide AboutToSignal, PcAt;
    match b.pipe.drain
    case DrainPop => return;
    case DrainSend(_) => return;
    case DrainWait => return;
    case DrainExited(_) => return;
  }

  /** What a step needs so as not to lose a wake-up: whoever was about to signal still is, or has
      done it; and who pushes is about to signal. */
  ghost predicate KeepsSignals(b: Bus, b': Bus, a: Actor) {
    && b'.pipe.drain == b.pipe.drain
    && (b.life.cancelled ==> b'.life.cancelled)
    && (b.pipe.notify || AboutToSignal(PcAt(b.pcs, a)) ==> b'.pipe.notify || AboutToSignal(PcAt(b'.pcs, a)))
    && (b'.pipe.ring != b.pipe.ring ==> AboutToSignal(PcAt(b'.pcs, a)))
    && (forall x :: x != a ==> PcAt(b'.pcs, x) == PcAt(b.pcs, x))
  }

  lemma SignalsKeepWakeup(b: Bus, b': Bus, a: Actor)
    requires NoLostWakeup(b) && KeepsSignals(b, b', a)
    ensures NoLostWakeup(b')
  {
    hide AboutToSignal, PcAt;
    if b'.pipe.drain.DrainWait? && b'.pipe.ring != [] && !b'.pipe.notify && !b'.life.cancelled {
      if b'.pipe.ring == b.pipe.ring && !b.pipe.notify {
        var x :| AboutToSignal(PcAt(b.pcs, x));
        assert x != a ==> AboutToSignal(PcAt(b'.pcs, x));
      }
    }
  }

  lemma ActorKeepsSignals(cfg: Config, b: Bus, b': Bus, a: Actor)
    requires Global(cfg, b) && Local(cfg, b, a, PcAt(b.pcs, a)) && ActorNext(cfg, b, b', a)
    ensures KeepsSignals(b, b', a)
  {
    match PcAt(b.pcs, a)
    case Idle => return;
    case Publishing(p, env) => PublishKeepsSignals(cfg, b, b', a, p, env);
    case Closing(c) => CloseKeepsSignals(cfg, b, b', a, c);
    case ShuttingDown(c) => CloseKeepsSignals(cfg, b, b', a, c);
  }

  lemma CloseKeepsSignals(cfg: Config, b: Bus, b': Bus, a: Actor, c: CloseStep)
    requires PcAt(b.pcs, a) == Closing(c) || PcAt(b.pcs, a) == ShuttingDown(c)
    requires ActorNext(cfg, b, b', a)
    ensures KeepsSignals(b, b', a)
  {
    match c
    case LoadClosed => return;
    case SwapClosed => return;
    case Cancel => return;
    case AwaitDrain => return;
    case CloseDone => return;
    case LockBus => return;
    case IsRouted => return;
    case Unroute => return;
    case CloseChannel => return;
    case UnlockBus => return;
  }

  lemma PublishKeepsSignals(cfg: Config, b: Bus, b': Bus, a: Actor, p: PublishStep, env: Envelope)
    requires PcAt(b.pcs, a) == Publishing(p, env) && PublishNext(cfg, b, b', a, p, env)
    ensures KeepsSignals(b, b', a)
  {
    match p
    case LockShared => return;
    case Lookup => return;
    case CheckClosed => return;
    case CheckContext => return;
    case Push => return;
    case Signal => return;
    case FastSend => return;
    case Evict => return;
    case CountEvicted => return;
    case Enqueue => return;
    case CountDropped => return;
    case UnlockShared => return;
  }

  // ---------------------------------------------------------------- what becomes of the envelopes

  ghost predicate Accounts(cfg: Config, b: Bus) {
    FifoUntilRefused(cfg, b) && NothingVanishes(b) && CounterExact(b)
  }

  lemma InOrderMultiset(pipe: Pipe)
    ensures multiset(InOrder(pipe))
         == multiset(pipe.received) + multiset(pipe.channel) + multiset(Held(pipe.drain)) + multiset(pipe.ring)
  {}

  lemma FirstAndRest(s: seq<Envelope>)
    requires s != []
    ensures s == [s[0]] + s[1..] && multiset(s) == multiset{s[0]} + multiset(s[1..])
  {
    assert s == [s[0]] + s[1..];
  }

  /** Envelopes only move along: nothing decided, nothing lost. */
  lemma MovedAlong(cfg: Config, b: Bus, b': Bus)
    requires Accounts(cfg, b) && b'.tally == b.tally && InOrder(b'.pipe) == InOrder(b.pipe)
    ensures Accounts(cfg, b')
  {}

  lemma DrainKeepsAccounts(cfg: Config, b: Bus, b': Bus)
    requires Accounts(cfg, b) && DrainNext(cfg, b, b')
    ensures Accounts(cfg, b')
  {
    hide Accounts;
    var pipe, pipe' := b.pipe, b'.pipe;
    match pipe.drain
    case DrainPop =>
      if pipe.ring != [] {
        FirstAndRest(pipe.ring);
        assert InOrder(pipe') == pipe.received + pipe.channel + [pipe.ring[0]] + pipe.ring[1..];
      }
      MovedAlong(cfg, b, b');
    case DrainSend(env) => MovedAlong(cfg, b, b');
    case DrainWait => MovedAlong(cfg, b, b');
    case DrainExited(_) =>
  }

  lemma ConsumeKeepsAccounts(cfg: Config, b: Bus, b': Bus)
    requires Accounts(cfg, b) && ConsumeNext(b, b')
    ensures Accounts(cfg, b')
  {
    hide Accounts, Held;
    FirstAndRest(b.pipe.channel);
    assert b'.pipe.received + b'.pipe.channel == b.pipe.received + b.pipe.channel;
    MovedAlong(cfg, b, b');
  }

  lemma PutKeepsAccounts(cfg: Config, b: Bus, env: Envelope)
    requires Accounts(cfg, b) && (cfg.strategy == Overflow ==> b.tally.refused)
    ensures Accounts(cfg, Put(b, env))
  {
    InOrderMultiset(b.pipe);
    InOrderMultiset(Put(b, env).pipe);
  }

  lemma PushKeepsAccounts(cfg: Config, b: Bus, b': Bus, env: Envelope)
    requires Accounts(cfg, b)
    requires b'.pipe == b.pipe.(ring := b.pipe.ring + [env])
    requires b'.tally == b.tally.(published := b.tally.published + [env])
    ensures Accounts(cfg, b')
  {
    InOrderMultiset(b.pipe);
    InOrderMultiset(b'.pipe);
    assert InOrder(b'.pipe) == InOrder(b.pipe) + [env];
  }

  lemma LoseKeepsAccounts(cfg: Config, b: Bus, a: Actor, env: Envelope)
    requires Accounts(cfg, b) && (cfg.strategy == Overflow ==> b.tally.refused) && a !in b.tally.owing
    ensures Accounts(cfg, Lose(b, a, env))
  {
    hide InOrder;
  }

  lemma CountKeepsAccounts(cfg: Config, b: Bus, a: Actor)
    requires Accounts(cfg, b) && a in b.tally.owing
    ensures Accounts(cfg, Count(b, a))
  {
    hide InOrder;
  }

  lemma EvictKeepsAccounts(cfg: Config, b: Bus, b': Bus, a: Actor)
    requires Accounts(cfg, b) && (cfg.strategy == Overflow ==> b.tally.refused) && a !in b.tally.owing
    requires b.pipe.channel != []
    requires b'.pipe == b.pipe.(channel := b.pipe.channel[1..])
    requires b'.tally == b.tally.(lost := b.tally.lost + [b.pipe.channel[0]], owing := b.tally.owing + {a})
    ensures Accounts(cfg, b')
  {
    InOrderMultiset(b.pipe);
    InOrderMultiset(b'.pipe);
    FirstAndRest(b.pipe.channel);
    hide InOrder;
  }

  lemma SameAccounts(cfg: Config, b: Bus, b': Bus)
    requires b'.tally == b.tally && b'.pipe == b.pipe.(notify := b'.pipe.notify)
    ensures Accounts(cfg, b) ==> Accounts(cfg, b')
  {
    assert InOrder(b'.pipe) == InOrder(b.pipe);
  }

  lemma RefusalKeepsAccounts(cfg: Config, b: Bus, b': Bus)
    requires b'.tally == b.tally.(refused := true) && b'.pipe == b.pipe
    ensures Accounts(cfg, b) ==> Accounts(cfg, b')
  {}

  lemma SendKeepsAccounts(cfg: Config, b: Bus, b': Bus, a: Actor, env: Envelope, full: Bus)
    requires Accounts(cfg, b) && Accounts(cfg, full) && (cfg.strategy == Overflow ==> b.tally.refused)
    requires Send(cfg, b, b', a, env, full)
    ensures Accounts(cfg, b')
  {
    hide Accounts;
    PutKeepsAccounts(cfg, b, env);
    SameAccounts(cfg, b, b.(panicked := true));
    SameAccounts(cfg, Put(b, env), Goto(Put(b, env), a, Publishing(UnlockShared, env)));
  }

  lemma PublishKeepsAccounts(cfg: Config, b: Bus, b': Bus, a: Actor, p: PublishStep, env: Envelope)
    requires Accounts(cfg, b) && Global(cfg, b) && Local(cfg, b, a, Publishing(p, env)) && PublishNext(cfg, b, b', a, p, env)
    ensures Accounts(cfg, b')
  {
    if InDeliver(p) { DeliverFindsItOpen(cfg, b, a, p, env); }
    assert PublisherAt(cfg, b, a, p);
    hide Accounts, Global, Local, Send;
    match p
    case LockShared => SameAccounts(cfg, b, b');
    case Lookup => SameAccounts(cfg, b, b');
    case CheckClosed => SameAccounts(cfg, b, b');
    case CheckContext => SameAccounts(cfg, b, b');
    case Push =>
      if |b.pipe.ring| >= cfg.ringCap { RefusalKeepsAccounts(cfg, b, b'); } else { PushKeepsAccounts(cfg, b, b', env); }
    case Signal => SameAccounts(cfg, b, b');
    case FastSend =>
      LoseKeepsAccounts(cfg, b, a, env);
      SameAccounts(cfg, Lose(b, a, env), Goto(Lose(b, a, env), a, Publishing(CountDropped, env)));
      SameAccounts(cfg, b, Goto(b, a, Publishing(Evict, env)));
      SendKeepsAccounts(cfg, b, b', a, env,
        if cfg.strategy == DropNewest then Goto(Lose(b, a, env), a, Publishing(CountDropped, env))
        else Goto(b, a, Publishing(Evict, env)));
    case Evict =>
      if b.pipe.channel != [] { EvictKeepsAccounts(cfg, b, b', a); } else { SameAccounts(cfg, b, b'); }
    case CountEvicted =>
      CountKeepsAccounts(cfg, b, a);
      SameAccounts(cfg, Count(b, a), b');
    case Enqueue =>
      LoseKeepsAccounts(cfg, b, a, env);
      SameAccounts(cfg, Lose(b, a, env), Goto(Lose(b, a, env), a, Publishing(CountDropped, env)));
      SendKeepsAccounts(cfg, b, b', a, env, Goto(Lose(b, a, env), a, Publishing(CountDropped, env)));
    case CountDropped =>
      CountKeepsAccounts(cfg, b, a);
      SameAccounts(cfg, Count(b, a), b');
    case UnlockShared => SameAccounts(cfg, b, b');
  }

  lemma CloseKeepsPipe(cfg: Config, b: Bus, b': Bus, a: Actor)
    requires !PcAt(b.pcs, a).Publishing? && ActorNext(cfg, b, b', a)
    ensures b'.pipe == b.pipe && b'.tally == b.tally
  {
    match PcAt(b.pcs, a)
    case Idle => return;
    case Closing(c) => return;
    case ShuttingDown(c) => return;
  }

  // ---------------------------------------------------------------- every reachable state

  lemma StepInv(cfg: Config, b: Bus, b': Bus)
    requires Inv(cfg, b) && Next(cfg, b, b')
    ensures Inv(cfg, b')
  {
    hide Global, Local, FifoUntilRefused, NothingVanishes, CounterExact, NoLostWakeup, DrainNext, ConsumeNext, ActorNext, PcAt;
    assert Accounts(cfg, b);
    if DrainNext(cfg, b, b') {
      DrainKeepsPlaces(cfg, b, b');
      DrainKeepsWakeup(cfg, b, b');
      DrainKeepsAccounts(cfg, b, b');
    } else if ConsumeNext(b, b') {
      ConsumeKeepsPlaces(cfg, b, b');
      ConsumeKeepsWakeup(b, b');
      ConsumeKeepsAccounts(cfg, b, b');
    } else {
      var a :| ActorNext(cfg, b, b', a);
      assert Local(cfg, b, a, PcAt(b.pcs, a));
      ActorKeepsPlaces(cfg, b, b', a);
      ActorKeepsSignals(cfg, b, b', a);
      SignalsKeepWakeup(b, b', a);
      ActorKeepsAccounts(cfg, b, b', a);
    }
  }

  lemma ConsumeKeepsWakeup(b: Bus, b': Bus)
    requires NoLostWakeup(b) && ConsumeNext(b, b')
    ensures NoLostWakeup(b')
  {}

  lemma ActorKeepsAccounts(cfg: Config, b: Bus, b': Bus, a: Actor)
    requires Accounts(cfg, b) && Global(cfg, b) && Local(cfg, b, a, PcAt(b.pcs, a)) && ActorNext(cfg, b, b', a)
    ensures Accounts(cfg, b')
  {
    hide Accounts, Global, Local, PublishNext, CloseNext, ShutdownNext, PcAt;
    match PcAt(b.pcs, a)
    case Publishing(p, env) => PublishKeepsAccounts(cfg, b, b', a, p, env);
    case _ =>
      CloseKeepsPipe(cfg, b, b', a);
      SameAccounts(cfg, b, b');
  }

  lemma SubscribedInv(cfg: Config)
    ensures Inv(cfg, Subscribed(cfg))
  {}

  /** In every reachable state: no send on a closed channel and no second close has happened, no
      wake-up is lost, envelopes are in order until one is refused, none vanishes, and the drop
      counter is exact. */
  lemma {:induction false} EveryInterleavingIsSafe(cfg: Config, states: seq<Bus>)
    requires Interleaving(cfg, states)
    ensures Inv(cfg, states[|states| - 1])
    decreases |states|
  {
    hide Inv, Next, Subscribed;
    if |states| == 1 {
      SubscribedInv(cfg);
    } else {
      var before := states[..|states| - 1];
      EveryInterleavingIsSafe(cfg, before);
      assert Next(cfg, states[|states| - 2], states[|states| - 1]);
      StepInv(cfg, states[|states| - 2], states[|states| - 1]);
    }
  }
}
