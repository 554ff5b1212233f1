/** Delivery to one subscription of the event bus, as small steps: any number of publishers and
    closers, one drain goroutine and the consumer, over the bus lock, the subscription channel, the
    overflow ring and its wake-up channel.  A send on a closed channel, or a second close of a
    channel, sets `panicked`. */
module EventBus {
  import opened Wrappers

  type Actor = int
  type Envelope = int

  datatype Strategy = DropOldest | DropNewest | Overflow

  datatype Config = Config(strategy: Strategy, channelCap: nat, ringCap: nat)

  /** The steps of `publish` and, from CheckClosed to CountDropped, of `deliver`. */
  datatype PublishStep =
    | LockShared | Lookup | CheckClosed | CheckContext | Push | Signal | FastSend
    | Evict | CountEvicted | Enqueue | CountDropped | UnlockShared

  /** The steps of `Close`, and in another order those of `Shutdown` with `closeLocked`. */
  datatype CloseStep =
    | LoadClosed | SwapClosed | Cancel | AwaitDrain | CloseDone | LockBus | IsRouted | Unroute | CloseChannel | UnlockBus

  /** Where an actor is. */
  datatype Pc = Idle | Publishing(p: PublishStep, env: Envelope) | Closing(c: CloseStep) | ShuttingDown(c: CloseStep)

  /** Where the drain goroutine is; it may leave holding an envelope it could not deliver. */
  datatype Drain = DrainPop | DrainSend(env: Envelope) | DrainWait | DrainExited(held: Option<Envelope>)

  /** The read/write lock of the bus. */
  datatype Lock = Lock(readers: set<Actor>, writer: Option<Actor>)

  /** Routing table entry, close flag, drain context, and how often `done` and the event channel
      have been closed; `winner` is the actor whose swap of the close flag succeeded. */
  datatype Life = Life(
    routed: bool, closed: bool, cancelled: bool, doneCloses: nat, channelCloses: nat, winner: Option<Actor>)

  /** Where envelopes are. */
  datatype Pipe = Pipe(channel: seq<Envelope>, ring: seq<Envelope>, notify: bool, drain: Drain, received: seq<Envelope>)

  /** The drop counter, and what has happened: the envelopes decided on and lost, in order, who owes
      the counter an increment, and whether the ring ever refused an envelope. */
  datatype Tally = Tally(
    dropped: nat, published: seq<Envelope>, lost: seq<Envelope>, owing: set<Actor>, refused: bool)

  datatype Bus = Bus(pcs: map<Actor, Pc>, lock: Lock, life: Life, pipe: Pipe, tally: Tally, panicked: bool)

  function PcAt(pcs: map<Actor, Pc>, a: Actor): Pc {
    if a in pcs then pcs[a] else Idle
  }

  /** The subscription as `Subscribe` leaves it; without an overflow buffer there is no drain
      goroutine to wait for. */
  function Subscribed(cfg: Config): Bus {
    Bus(map[], Lock({}, None), Life(true, false, false, 0, 0, None),
        Pipe([], [], false, if cfg.strategy == Overflow then DrainPop else DrainExited(None), []),
        Tally(0, [], [], {}, false), false)
  }

  // ---------------------------------------------------------------- publishing

  /** The actor moves; `b'` is otherwise `b`, with what the step says. */
  function Goto(b: Bus, a: Actor, pc: Pc): Bus {
    b.(pcs := b.pcs[a := pc])
  }

  function Put(b: Bus, env: Envelope): Bus {
    b.(pipe := b.pipe.(channel := b.pipe.channel + [env]), tally := b.tally.(published := b.tally.published + [env]))
  }

  /** The envelope is given up; the actor will count it. */
  function Lose(b: Bus, a: Actor, env: Envelope): Bus {
    b.(tally := b.tally.(published := b.tally.published + [env], lost := b.tally.lost + [env], owing := b.tally.owing + {a}))
  }

  function Count(b: Bus, a: Actor): Bus {
    b.(tally := b.tally.(dropped := b.tally.dropped + 1, owing := b.tally.owing - {a}))
  }

  /** A non-blocking send: on a closed channel it panics. */
  predicate Send(cfg: Config, b: Bus, b': Bus, a: Actor, env: Envelope, full: Bus) {
    if b.life.channelCloses > 0 then b' == b.(panicked := true)
    else if |b.pipe.channel| < cfg.channelCap then b' == Goto(Put(b, env), a, Publishing(UnlockShared, env))
    else b' == full
  }

  /** One step of `publish` by actor a. */
  predicate PublishNext(cfg: Config, b: Bus, b': Bus, a: Actor, p: PublishStep, env: Envelope) {
    match p
    case LockShared =>
      && b.lock.writer == None
      && b' == Goto(b, a, Publishing(Lookup, env)).(lock := b.lock.(readers := b.lock.readers + {a}))
    case Lookup => b' == Goto(b, a, Publishing(if b.life.routed then CheckClosed else UnlockShared, env))
    case CheckClosed => b' == Goto(b, a, Publishing(if b.life.closed then UnlockShared else CheckContext, env))
    case CheckContext =>
      // the context of the caller may be done
      || b' == Goto(b, a, Publishing(UnlockShared, env))
      || b' == Goto(b, a, Publishing(if cfg.strategy == Overflow then Push else FastSend, env))
    case Push =>
      if |b.pipe.ring| >= cfg.ringCap
      then b' == Goto(b, a, Publishing(Evict, env)).(tally := b.tally.(refused := true))
      else b' == Goto(b, a, Publishing(Signal, env))
                   .(pipe := b.pipe.(ring := b.pipe.ring + [env]), tally := b.tally.(published := b.tally.published + [env]))
    case Signal => b' == Goto(b, a, Publishing(UnlockShared, env)).(pipe := b.pipe.(notify := true))
    case FastSend =>
      Send(cfg, b, b', a, env,
           if cfg.strategy == DropNewest then Goto(Lose(b, a, env), a, Publishing(CountDropped, env))
           else Goto(b, a, Publishing(Evict, env)))
    case Evict =>
      if b.pipe.channel != [] then
        b' == Goto(b, a, Publishing(CountEvicted, env))
                .(pipe := b.pipe.(channel := b.pipe.channel[1..]),
                  tally := b.tally.(lost := b.tally.lost + [b.pipe.channel[0]], owing := b.tally.owing + {a}))
      else if b.life.channelCloses > 0 then
        b' == Goto(b, a, Publishing(CountEvicted, env)).(tally := b.tally.(owing := b.tally.owing + {a}))
      else b' == Goto(b, a, Publishing(Enqueue, env))
    case CountEvicted => b' == Goto(Count(b, a), a, Publishing(Enqueue, env))
    case Enqueue => Send(cfg, b, b', a, env, Goto(Lose(b, a, env), a, Publishing(CountDropped, env)))
    case CountDropped => b' == Goto(Count(b, a), a, Publishing(UnlockShared, env))
    case UnlockShared => b' == Goto(b, a, Idle).(lock := b.lock.(readers := b.lock.readers - {a}))
  }

  // ---------------------------------------------------------------- closing

  predicate Acquire(b: Bus, b': Bus, a: Actor, next: Pc) {
    && b.lock.writer == None && b.lock.readers == {}
    && b' == Goto(b, a, next).(lock := b.lock.(writer := Some(a)))
  }

  predicate Release(b: Bus, b': Bus, a: Actor) {
    b' == Goto(b, a, Idle).(lock := b.lock.(writer := None))
  }

  /** Compare-and-swap of the close flag. */
  predicate Swap(b: Bus, b': Bus, a: Actor, won: Pc, beaten: Pc) {
    if b.life.closed then b' == Goto(b, a, beaten)
    else b' == Goto(b, a, won).(life := b.life.(closed := true, winner := Some(a)))
  }

  predicate CloseOnce(b: Bus, b': Bus, a: Actor, step: CloseStep, next: Pc) {
    if step == CloseDone then
      if b.life.doneCloses > 0 then b' == b.(panicked := true)
      else b' == Goto(b, a, next).(life := b.life.(doneCloses := 1))
    else
      if b.life.channelCloses > 0 then b' == b.(panicked := true)
      else b' == Goto(b, a, next).(life := b.life.(channelCloses := 1))
  }

  /** One step of `Close` by actor a. */
  predicate CloseNext(b: Bus, b': Bus, a: Actor, c: CloseStep) {
    match c
    case LoadClosed => b' == Goto(b, a, if b.life.closed then Idle else Closing(SwapClosed))
    case SwapClosed => Swap(b, b', a, Closing(Cancel), Idle)
    case Cancel => b' == Goto(b, a, Closing(AwaitDrain)).(life := b.life.(cancelled := true))
    case AwaitDrain => b.pipe.drain.DrainExited? && b' == Goto(b, a, Closing(CloseDone))
    case CloseDone => CloseOnce(b, b', a, c, Closing(LockBus))
    case LockBus => Acquire(b, b', a, Closing(Unroute))
    case Unroute => b' == Goto(b, a, Closing(CloseChannel)).(life := b.life.(routed := false))
    case CloseChannel => CloseOnce(b, b', a, c, Closing(UnlockBus))
    case UnlockBus => Release(b, b', a)
    case IsRouted => false
  }

  /** One step of `Shutdown` by actor a. */
  predicate ShutdownNext(b: Bus, b': Bus, a: Actor, c: CloseStep) {
    match c
    case LockBus => Acquire(b, b', a, ShuttingDown(IsRouted))
    case IsRouted => b' == Goto(b, a, ShuttingDown(if b.life.routed then SwapClosed else UnlockBus))
    case SwapClosed => Swap(b, b', a, ShuttingDown(Cancel), ShuttingDown(Unroute))
    case Cancel => b' == Goto(b, a, ShuttingDown(AwaitDrain)).(life := b.life.(cancelled := true))
    case AwaitDrain => b.pipe.drain.DrainExited? && b' == Goto(b, a, ShuttingDown(CloseDone))
    case CloseDone => CloseOnce(b, b', a, c, ShuttingDown(CloseChannel))
    case CloseChannel => CloseOnce(b, b', a, c, ShuttingDown(Unroute))
    case Unroute => b' == Goto(b, a, ShuttingDown(UnlockBus)).(life := b.life.(routed := false))
    case UnlockBus => Release(b, b', a)
    case LoadClosed => false
  }

  // ---------------------------------------------------------------- drain goroutine and consumer

  /** One step of `drainLoop`; a select takes either of two ready cases. */
  predicate DrainNext(cfg: Config, b: Bus, b': Bus) {
    match b.pipe.drain
    case DrainPop =>
      b' == b.(pipe := if b.pipe.ring == [] then b.pipe.(drain := DrainWait)
                       else b.pipe.(drain := DrainSend(b.pipe.ring[0]), ring := b.pipe.ring[1..]))
    case DrainSend(env) =>
      || (b.life.cancelled && b' == b.(pipe := b.pipe.(drain := DrainExited(Some(env)))))
      || (b.life.channelCloses > 0 && b' == b.(panicked := true))
      || (b.life.channelCloses == 0 && |b.pipe.channel| < cfg.channelCap
          && b' == b.(pipe := b.pipe.(drain := DrainPop, channel := b.pipe.channel + [env])))
    case DrainWait =>
      || (b.life.cancelled && b' == b.(pipe := b.pipe.(drain := DrainExited(None))))
      || (b.pipe.notify && b' == b.(pipe := b.pipe.(drain := DrainPop, notify := false)))
    case DrainExited(_) => false
  }

  predicate ConsumeNext(b: Bus, b': Bus) {
    && b.pipe.channel != []
    && b' == b.(pipe := b.pipe.(channel := b.pipe.channel[1..], received := b.pipe.received + [b.pipe.channel[0]]))
  }

  /** An idle actor enters one of the three operations. */
  predicate Enters(pc: Pc) {
    (pc.Publishing? && pc.p == LockShared) || pc == Closing(LoadClosed) || pc == ShuttingDown(LockBus)
  }

  /** One step of actor a. */
  predicate ActorNext(cfg: Config, b: Bus, b': Bus, a: Actor) {
    match PcAt(b.pcs, a)
    case Idle => a in b'.pcs && Enters(b'.pcs[a]) && b' == Goto(b, a, b'.pcs[a])
    case Publishing(p, env) => PublishNext(cfg, b, b', a, p, env)
    case Closing(c) => CloseNext(b, b', a, c)
    case ShuttingDown(c) => ShutdownNext(b, b', a, c)
  }

  /** One step of the whole; nothing moves after a panic. */
  ghost predicate Next(cfg: Config, b: Bus, b': Bus) {
    && !b.panicked
    && (DrainNext(cfg, b, b') || ConsumeNext(b, b') || exists a :: ActorNext(cfg, b, b', a))
  }

  /** An interleaving: it starts at a fresh subscription and every state follows from the last. */
  ghost predicate Interleaving(cfg: Config, states: seq<Bus>) {
    && |states| > 0 && states[0] == Subscribed(cfg)
    && forall i :: 0 < i < |states| ==> Next(cfg, states[i - 1], states[i])
  }
}
