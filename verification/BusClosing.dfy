/** What closing leaves behind, in every run: whoever sets the close flag first does all of the work
    exactly once, and from then on nothing enters the subscription. */
module BusClosing {
  import opened Wrappers
  import opened EventBus
  import opened BusSafety
  import opened BusDelivery

  /** The winner of the close flag has yet to close `done`, and with it the event channel. */
  predicate DoneIsOpen(pc: Pc) {
    (pc.Closing? || pc.ShuttingDown?) && (pc.c == Cancel || pc.c == AwaitDrain || pc.c == CloseDone)
  }

  /** The winner has yet to close the event channel. */
  predicate ChannelIsOpen(pc: Pc) {
    DoneIsOpen(pc) || pc == Closing(LockBus) || pc == Closing(Unroute) || pc == Closing(CloseChannel) || pc == ShuttingDown(CloseChannel)
  }

  /** How far the winner has come says exactly what has been cancelled, closed and unrouted. */
  ghost predicate WinnersWork(cfg: Config, b: Bus) {
    && (cfg.strategy == Overflow && b.pipe.drain.DrainExited? ==> b.life.cancelled)
    && match b.life.winner
       case None => !b.life.cancelled && b.life.doneCloses == 0 && b.life.channelCloses == 0
       case Some(w) =>
         var pc := PcAt(b.pcs, w);
         && (b.life.cancelled <==> pc != Closing(Cancel) && pc != ShuttingDown(Cancel))
         && b.life.doneCloses == (if DoneIsOpen(pc) then 0 else 1)
         && b.life.channelCloses == (if ChannelIsOpen(pc) then 0 else 1)
         && (!ChannelIsOpen(pc) && b.life.routed ==> pc == ShuttingDown(Unroute))
  }

  lemma CloserWorks(cfg: Config, b: Bus, b': Bus, a: Actor, c: CloseStep)
    requires Global(cfg, b) && CloserAt(b, a, c) && WinnersWork(cfg, b)
    requires PcAt(b.pcs, a) == Closing(c) && CloseNext(b, b', a, c)
    ensures WinnersWork(cfg, b')
  {
    match c
    case LoadClosed => return;
    case SwapClosed => return;
    case Cancel => return;
    case AwaitDrain => return;
    case CloseDone => return;
    case LockBus => return;
    case Unroute => return;
    case CloseChannel => return;
    case UnlockBus => return;
    case IsRouted =>
  }

  lemma ShutterWorks(cfg: Config, b: Bus, b': Bus, a: Actor, c: CloseStep)
    requires Global(cfg, b) && ShutterAt(b, a, c) && WinnersWork(cfg, b)
    requires PcAt(b.pcs, a) == ShuttingDown(c) && ShutdownNext(b, b', a, c)
    ensures WinnersWork(cfg, b')
  {
    match c
    case LockBus => return;
    case IsRouted => return;
    case SwapClosed => return;
    case Cancel => return;
    case AwaitDrain => return;
    case CloseDone => return;
    case CloseChannel => return;
    case Unroute => return;
    case UnlockBus => return;
    case LoadClosed =>
  }

  lemma IdleWorks(cfg: Config, b: Bus, b': Bus, a: Actor)
    requires WinnersWork(cfg, b) && PcAt(b.pcs, a) == Idle && ActorNext(cfg, b, b', a)
    ensures WinnersWork(cfg, b')
  {}

  /** The work is that of the winner: who never stands at a closing step does none of it. */
  lemma OthersWork(cfg: Config, b: Bus, b': Bus, a: Actor)
    requires WinnersWork(cfg, b) && b'.life == b.life && b'.pipe.drain == b.pipe.drain
    requires !PcAt(b.pcs, a).Closing? && !PcAt(b.pcs, a).ShuttingDown?
    requires !PcAt(b'.pcs, a).Closing? && !PcAt(b'.pcs, a).ShuttingDown?
    requires forall x :: x != a ==> PcAt(b'.pcs, x) == PcAt(b.pcs, x)
    ensures WinnersWork(cfg, b')
  {
    hide PcAt;
  }

  lemma PublisherWorks(cfg: Config, b: Bus, b': Bus, a: Actor, p: PublishStep, env: Envelope)
    requires WinnersWork(cfg, b) && At(b, a, p, env) && PublishNext(cfg, b, b', a, p, env)
    ensures WinnersWork(cfg, b')
  {
    hide PublishNext, WinnersWork;
    PublishFrames(cfg, b, b', a, p, env, a + 1);
    PublisherNeverCloses(cfg, b, b', a, p, env);
    OthersStay(cfg, b, b', a);
    OthersWork(cfg, b, b', a);
  }

  lemma PublisherNeverCloses(cfg: Config, b: Bus, b': Bus, a: Actor, p: PublishStep, env: Envelope)
    requires At(b, a, p, env) && PublishNext(cfg, b, b', a, p, env)
    ensures !PcAt(b'.pcs, a).Closing? && !PcAt(b'.pcs, a).ShuttingDown?
  {
    match p
    case LockShared => return;
    case Lookup => return;
    case CheckClosed => return;
    case CheckContext => return;
    case Push => return;
    case Signal => return;
    case FastSend => return;
    case Evict => return;
    case CountEvicted => return;
    case Enqueue => return;
    case CountDropped => return;
    case UnlockShared => return;
  }

  lemma DrainLeavesCancelled(cfg: Config, b: Bus, b': Bus)
    requires DrainNext(cfg, b, b')
    ensures b'.life == b.life && b'.pcs == b.pcs
    ensures b'.pipe.drain.DrainExited? ==> b.life.cancelled
  {
    match b.pipe.drain
    case DrainPop => return;
    case DrainSend(_) => return;
    case DrainWait => return;
    case DrainExited(_) =>
  }

  lemma ActorWorks(cfg: Config, b: Bus, b': Bus, a: Actor)
    requires Inv(cfg, b) && WinnersWork(cfg, b) && ActorNext(cfg, b, b', a)
    ensures WinnersWork(cfg, b')
  {
    hide Global, NoLostWakeup, FifoUntilRefused, NothingVanishes, CounterExact, WinnersWork, CloserAt, ShutterAt, PublisherAt;
    hide PublishNext, CloseNext, ShutdownNext;
    assert Local(cfg, b, a, PcAt(b.pcs, a));
    match PcAt(b.pcs, a)
    case Idle => IdleWorks(cfg, b, b', a);
    case Publishing(p, env) => PublisherWorks(cfg, b, b', a, p, env);
    case Closing(c) => CloserWorks(cfg, b, b', a, c);
    case ShuttingDown(c) => ShutterWorks(cfg, b, b', a, c);
  }

  lemma StepWorks(cfg: Config, b: Bus, b': Bus)
    requires Inv(cfg, b) && WinnersWork(cfg, b) && Next(cfg, b, b')
    ensures WinnersWork(cfg, b')
  {
    hide Inv, DrainNext, ActorNext, PcAt, DoneIsOpen, ChannelIsOpen;
    if DrainNext(cfg, b, b') {
      DrainLeavesCancelled(cfg, b, b');
    } else if !ConsumeNext(b, b') {
      var a :| ActorNext(cfg, b, b', a);
      ActorWorks(cfg, b, b', a);
    }
  }

  lemma {:induction false} WorkInEveryRun(cfg: Config, states: seq<Bus>)
    requires Interleaving(cfg, states)
    ensures WinnersWork(cfg, states[|states| - 1])
    decreases |states|
  {
    hide Inv, Next;
    var n := |states| - 1;
    if n > 0 {
      hide WinnersWork;
      WorkInEveryRun(cfg, states[..n]);
      Reached(cfg, states, n);
      StepWorks(cfg, states[n - 1], states[n]);
    }
  }

  /** Whoever sets the close flag first and is back, or about to release the lock, has left everything
      closed: `done` and the event channel exactly once, the drain goroutine gone, the route gone. */
  lemma CloseIsComplete(cfg: Config, states: seq<Bus>, w: Actor)
    requires Interleaving(cfg, states)
    requires var last := states[|states| - 1];
             last.life.winner == Some(w) && PcAt(last.pcs, w) in {Idle, Closing(UnlockBus), ShuttingDown(UnlockBus)}
    ensures var last := states[|states| - 1];
            && last.life.closed && last.life.cancelled && !last.life.routed
            && last.life.doneCloses == 1 && last.life.channelCloses == 1 && last.pipe.drain.DrainExited?
  {
    hide Next, Places, NoLostWakeup, FifoUntilRefused, NothingVanishes, CounterExact;
    WorkInEveryRun(cfg, states);
    assert |states| > 0;
    Reached(cfg, states, |states| - 1);
  }

  lemma UnroutedStep(cfg: Config, b: Bus, b': Bus)
    requires Inv(cfg, b) && Next(cfg, b, b') && !b.life.routed
    ensures !b'.life.routed && b'.tally.published == b.tally.published && b'.tally.lost == b.tally.lost
  {
    hide NoLostWakeup, FifoUntilRefused, NothingVanishes, CounterExact, ConsumeNext, ActorNext, Global;
    if DrainNext(cfg, b, b') {
      DrainLeavesCancelled(cfg, b, b');
      DrainDecidesNothing(cfg, b, b');
    } else if ConsumeNext(b, b') {
      TakenStaysInLine(b, b');
      ConsumerClosesNothing(b, b');
    } else {
      var a :| ActorNext(cfg, b, b', a);
      assert Local(cfg, b, a, PcAt(b.pcs, a));
      UnroutedActor(cfg, b, b', a);
    }
  }

  lemma UnroutedActor(cfg: Config, b: Bus, b': Bus, a: Actor)
    requires Local(cfg, b, a, PcAt(b.pcs, a)) && ActorNext(cfg, b, b', a) && !b.life.routed
    ensures !b'.life.routed && b'.tally.published == b.tally.published && b'.tally.lost == b.tally.lost
  {
    hide CloserAt, ShutterAt;
    match PcAt(b.pcs, a)
    case Idle => return;
    case Publishing(p, env) => UnroutedPublisher(cfg, b, b', a, p, env);
    case Closing(c) =>
      CloseKeepsPipe(cfg, b, b', a);
      CloserNeverRoutes(b, b', a, c);
    case ShuttingDown(c) =>
      CloseKeepsPipe(cfg, b, b', a);
      ShutterNeverRoutes(b, b', a, c);
  }

  lemma UnroutedPublisher(cfg: Config, b: Bus, b': Bus, a: Actor, p: PublishStep, env: Envelope)
    requires PublishNext(cfg, b, b', a, p, env) && !InDeliver(p)
    ensures b'.life == b.life && b'.tally == b.tally
  {}

  lemma CloserNeverRoutes(b: Bus, b': Bus, a: Actor, c: CloseStep)
    requires CloseNext(b, b', a, c) && !b.life.routed
    ensures !b'.life.routed
  {
    match c
    case LoadClosed => return;
    case SwapClosed => return;
    case Cancel => return;
    case AwaitDrain => return;
    case CloseDone => return;
    case LockBus => return;
    case Unroute => return;
    case CloseChannel => return;
    case UnlockBus => return;
    case IsRouted =>
  }

  lemma ShutterNeverRoutes(b: Bus, b': Bus, a: Actor, c: CloseStep)
    requires ShutdownNext(b, b', a, c) && !b.life.routed
    ensures !b'.life.routed
  {
    match c
    case LockBus => return;
    case IsRouted => return;
    case SwapClosed => return;
    case Cancel => return;
    case AwaitDrain => return;
    case CloseDone => return;
    case CloseChannel => return;
    case Unroute => return;
    case UnlockBus => return;
    case LoadClosed =>
  }

  /** Once the route is gone it stays gone, and no publisher ever sends, loses or evicts again. */
  lemma {:induction false} NothingAfterwards(cfg: Config, states: seq<Bus>, i: nat, j: nat)
    requires Interleaving(cfg, states) && i <= j < |states| && !states[i].life.routed
    ensures !states[j].life.routed
    ensures states[j].tally.published == states[i].tally.published && states[j].tally.lost == states[i].tally.lost
    decreases j
  {
    hide Inv, Next, Interleaving;
    if i < j {
      NothingAfterwards(cfg, states, i, j - 1);
      Reached(cfg, states, j);
      UnroutedStep(cfg, states[j - 1], states[j]);
    }
  }
}
