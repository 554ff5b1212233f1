/** Which envelopes a subscription keeps and which it gives up, over every run, what is left of it
    once it is closed, and that what an overflow subscription keeps can always reach the consumer. */
module BusDelivery {
  import opened Wrappers
  import opened EventBus
  import opened BusSafety
  import opened BusProgress

  /** What the consumer has and finds in its channel, in order. */
  function Line(b: Bus): seq<Envelope> {
    b.pipe.received + b.pipe.channel
  }

  predicate At(b: Bus, a: Actor, p: PublishStep, env: Envelope) {
    PcAt(b.pcs, a) == Publishing(p, env)
  }

  /** Every state of a run meets the invariant. */
  lemma Reached(cfg: Config, states: seq<Bus>, k: nat)
    requires Interleaving(cfg, states) && k < |states|
    ensures Inv(cfg, states[k])
    ensures k > 0 ==> Inv(cfg, states[k - 1]) && Next(cfg, states[k - 1], states[k])
  {
    hide Next, Inv;
    EveryInterleavingIsSafe(cfg, states[..k + 1]);
    if k > 0 { EveryInterleavingIsSafe(cfg, states[..k]); }
  }

  lemma TakenStaysInLine(b: Bus, b': Bus)
    requires ConsumeNext(b, b')
    ensures Line(b') == Line(b) && b'.tally == b.tally && b'.pcs == b.pcs
    ensures |b'.pipe.channel| < |b.pipe.channel|
  {
    assert b.pipe.channel == [b.pipe.channel[0]] + b.pipe.channel[1..];
  }

  // ---------------------------------------------------------------- without an overflow buffer

  /** Who moves, of a subscription without an overflow buffer: the consumer, a publisher, or somebody
      who touches no envelope. */
  lemma WhoMoves(cfg: Config, b: Bus, b': Bus) returns (a: Actor)
    requires Inv(cfg, b) && Next(cfg, b, b') && cfg.strategy != Overflow
    ensures ConsumeNext(b, b') || ActorNext(cfg, b, b', a)
    ensures !ConsumeNext(b, b') && !PcAt(b.pcs, a).Publishing? ==> b'.pipe == b.pipe && b'.tally == b.tally
    ensures !ConsumeNext(b, b') ==> forall x :: x != a ==> PcAt(b'.pcs, x) == PcAt(b.pcs, x)
  {
    hide Places, NoLostWakeup, FifoUntilRefused, NothingVanishes, CounterExact, ConsumeNext;
    a := 0;
    if !ConsumeNext(b, b') {
      a :| ActorNext(cfg, b, b', a);
      hide Global;
      if !PcAt(b.pcs, a).Publishing? { CloseKeepsPipe(cfg, b, b', a); }
      OthersStay(cfg, b, b', a);
    }
  }

  lemma OthersStay(cfg: Config, b: Bus, b': Bus, a: Actor)
    requires ActorNext(cfg, b, b', a)
    ensures forall x :: x != a ==> PcAt(b'.pcs, x) == PcAt(b.pcs, x)
  {
    hide Enters;
    match PcAt(b.pcs, a)
    case Idle => return;
    case Publishing(p, env) =>
      forall x | x != a ensures PcAt(b'.pcs, x) == PcAt(b.pcs, x) { PublishFrames(cfg, b, b', a, p, env, x); }
    case Closing(c) => CloserLeaves(b, b', a, c);
    case ShuttingDown(c) => ShutterLeaves(b, b', a, c);
  }

  lemma CloserLeaves(b: Bus, b': Bus, a: Actor, c: CloseStep)
    requires CloseNext(b, b', a, c)
    ensures forall x :: x != a ==> PcAt(b'.pcs, x) == PcAt(b.pcs, x)
  {
    match c
    case LoadClosed => return;
    case SwapClosed => return;
    case Cancel => return;
    case AwaitDrain => return;
    case CloseDone => return;
    case LockBus => return;
    case Unroute => return;
    case CloseChannel => return;
    case UnlockBus => return;
    case IsRouted =>
  }

  lemma ShutterLeaves(b: Bus, b': Bus, a: Actor, c: CloseStep)
    requires ShutdownNext(b, b', a, c)
    ensures forall x :: x != a ==> PcAt(b'.pcs, x) == PcAt(b.pcs, x)
  {
    match c
    case LockBus => return;
    case IsRouted => return;
    case SwapClosed => return;
    case Cancel => return;
    case AwaitDrain => return;
    case CloseDone => return;
    case CloseChannel => return;
    case Unroute => return;
    case UnlockBus => return;
    case LoadClosed =>
  }

  /** What one step of a publisher does to the envelopes, without an overflow buffer. */
  ghost predicate Sends(cfg: Config, b: Bus, b': Bus, a: Actor, p: PublishStep, env: Envelope) {
    var channel := b.pipe.channel;
    match p
    case FastSend =>
      if |channel| < cfg.channelCap then Appended(b, b', a, env)
      else if cfg.strategy == DropNewest then GivenUp(b, b', a, env)
      else Untouched(b, b') && At(b', a, Evict, env)
    case Evict =>
      if channel == [] then Untouched(b, b') && At(b', a, Enqueue, env)
      else && b'.pipe == b.pipe.(channel := channel[1..]) && b'.tally.lost == b.tally.lost + [channel[0]]
           && b'.tally.published == b.tally.published && At(b', a, CountEvicted, env)
    case CountEvicted => Untouched(b, b') && At(b', a, Enqueue, env)
    case Enqueue =>
      if |channel| < cfg.channelCap then Appended(b, b', a, env) else GivenUp(b, b', a, env)
    case _ => Untouched(b, b')
  }

  ghost predicate Appended(b: Bus, b': Bus, a: Actor, env: Envelope) {
    && b'.pipe == b.pipe.(channel := b.pipe.channel + [env]) && At(b', a, UnlockShared, env)
    && b'.tally.published == b.tally.published + [env] && b'.tally.lost == b.tally.lost
  }

  ghost predicate GivenUp(b: Bus, b': Bus, a: Actor, env: Envelope) {
    && b'.pipe == b.pipe && At(b', a, CountDropped, env)
    && b'.tally.published == b.tally.published + [env] && b'.tally.lost == b.tally.lost + [env]
  }

  ghost predicate Untouched(b: Bus, b': Bus) {
    b'.pipe == b.pipe && b'.tally.published == b.tally.published && b'.tally.lost == b.tally.lost
  }

  lemma SendsExactly(cfg: Config, b: Bus, b': Bus, a: Actor, p: PublishStep, env: Envelope)
    requires Inv(cfg, b) && cfg.strategy != Overflow && At(b, a, p, env) && ActorNext(cfg, b, b', a)
    ensures Sends(cfg, b, b', a, p, env)
  {
    hide NoLostWakeup, FifoUntilRefused, NothingVanishes, CounterExact, Global;
    assert Local(cfg, b, a, PcAt(b.pcs, a));
    if InDeliver(p) { DeliverFindsItOpen(cfg, b, a, p, env); }
    hide Places;
    match p
    case LockShared => return;
    case Lookup => return;
    case CheckClosed => return;
    case CheckContext => return;
    case Push => return;
    case Signal => return;
    case FastSend => return;
    case Evict => return;
    case CountEvicted => return;
    case Enqueue => return;
    case CountDropped => return;
    case UnlockShared => return;
  }

  // ---------------------------------------------------------------- dropping the newest

  predicate Evicting(pc: Pc) {
    pc.Publishing? && (pc.p == Evict || pc.p == CountEvicted || pc.p == Enqueue)
  }

  ghost predicate NobodyEvicts(b: Bus) {
    forall a :: !Evicting(PcAt(b.pcs, a))
  }

  /** A publisher finds the channel full, and its own envelope is the one given up. */
  ghost predicate TurnedAway(cfg: Config, b: Bus, b': Bus) {
    exists a, env :: At(b, a, FastSend, env) && |b.pipe.channel| >= cfg.channelCap
                  && b'.tally.lost == b.tally.lost + [env] && b'.pipe == b.pipe
  }

  lemma NewestStep(cfg: Config, b: Bus, b': Bus)
    requires Inv(cfg, b) && Next(cfg, b, b') && cfg.strategy == DropNewest && NobodyEvicts(b)
    ensures NobodyEvicts(b') && Line(b) <= Line(b')
    ensures b'.tally.lost == b.tally.lost || TurnedAway(cfg, b, b')
  {
    hide Inv, Next, ActorNext, ConsumeNext, PcAt;
    var a := WhoMoves(cfg, b, b');
    if ConsumeNext(b, b') {
      TakenStaysInLine(b, b');
    } else {
      var pc := PcAt(b.pcs, a);
      if pc.Publishing? {
        SendsExactly(cfg, b, b', a, pc.p, pc.env);
        assert At(b, a, pc.p, pc.env);
      }
      MoverDoesNotEvict(cfg, b, b', a);
      assert forall x :: x != a ==> PcAt(b'.pcs, x) == PcAt(b.pcs, x);
    }
  }

  lemma MoverDoesNotEvict(cfg: Config, b: Bus, b': Bus, a: Actor)
    requires ActorNext(cfg, b, b', a) && cfg.strategy == DropNewest && !Evicting(PcAt(b.pcs, a))
    requires Inv(cfg, b)
    ensures !Evicting(PcAt(b'.pcs, a))
  {
    hide NoLostWakeup, FifoUntilRefused, NothingVanishes, CounterExact, Global;
    assert Local(cfg, b, a, PcAt(b.pcs, a));
    hide Places;
    match PcAt(b.pcs, a)
    case Idle => return;
    case Publishing(p, env) => SendsExactly(cfg, b, b', a, p, env); return;
    case Closing(c) => return;
    case ShuttingDown(c) => return;
  }

  /** With drop-newest, in every run of any publishers: what once entered the channel is never lost and
      keeps its place, and an envelope is lost only when its own send finds the channel full. */
  lemma {:induction false} NewestIsTurnedAway(cfg: Config, states: seq<Bus>, i: nat, j: nat)
    requires Interleaving(cfg, states) && cfg.strategy == DropNewest && i <= j < |states|
    ensures Line(states[i]) <= Line(states[j])
    ensures forall k :: i < k <= j ==>
              (states[k].tally.lost == states[k - 1].tally.lost || TurnedAway(cfg, states[k - 1], states[k]))
    ensures NobodyEvicts(states[j])
    decreases j
  {
    hide Inv, Next, NobodyEvicts, TurnedAway, Line;
    if j == 0 {
      assert NobodyEvicts(states[0]) by { NobodyYet(cfg); }
    } else {
      NewestIsTurnedAway(cfg, states, if i < j then i else j - 1, j - 1);
      Reached(cfg, states, j);
      NewestStep(cfg, states[j - 1], states[j]);
    }
  }

  lemma NobodyYet(cfg: Config)
    ensures NobodyEvicts(Subscribed(cfg))
  {}

  // ---------------------------------------------------------------- dropping the oldest

  /** Actor a is publishing env from state i to state j, and nobody else publishes. */
  ghost predicate OnlyPublisher(states: seq<Bus>, a: Actor, env: Envelope, i: nat, j: nat)
    requires j < |states|
  {
    forall k :: i <= k <= j ==> Alone(states[k], a, env)
  }

  ghost predicate Alone(b: Bus, a: Actor, env: Envelope) {
    && PcAt(b.pcs, a).Publishing? && PcAt(b.pcs, a).env == env
    && forall x :: x != a ==> !PcAt(b.pcs, x).Publishing?
  }

  ghost predicate SameLine(b: Bus, b': Bus) {
    Line(b') == Line(b) && b'.tally.lost == b.tally.lost
  }

  /** Between states i and k the publisher found the channel full. */
  ghost predicate FoundFull(cfg: Config, states: seq<Bus>, a: Actor, env: Envelope, i: nat, k: nat)
    requires k < |states|
  {
    exists f :: i <= f < k && At(states[f], a, FastSend, env) && |states[f].pipe.channel| >= cfg.channelCap
  }

  /** At state m, having found the channel full since state i, the publisher takes the oldest out. */
  ghost predicate GivesWay(cfg: Config, states: seq<Bus>, a: Actor, env: Envelope, i: nat, m: nat)
    requires i <= m < |states|
  {
    && FoundFull(cfg, states, a, env, i, m) && At(states[m], a, Evict, env)
    && states[m].pipe.channel != [] && SameLine(states[i], states[m])
  }

  /** What is left of the line without the oldest of the channel. */
  function LineWithoutOldest(b: Bus): seq<Envelope>
    requires b.pipe.channel != []
  {
    b.pipe.received + b.pipe.channel[1..]
  }

  /** The line at b' is `end` behind that of state i, of which at most the oldest was given up. */
  ghost predicate Follows(cfg: Config, states: seq<Bus>, a: Actor, env: Envelope, i: nat, k: nat, end: seq<Envelope>)
    requires i <= k < |states|
  {
    || (Line(states[k]) == Line(states[i]) + end && states[k].tally.lost == states[i].tally.lost)
    || AfterOldest(cfg, states, a, env, i, k, end)
  }

  ghost predicate AfterOldest(cfg: Config, states: seq<Bus>, a: Actor, env: Envelope, i: nat, k: nat, end: seq<Envelope>)
    requires i <= k < |states|
  {
    exists m: nat :: OldestGave(cfg, states, a, env, i, m, k, end)
  }

  /** State k has the line of state m without the oldest of its channel, and `end`. */
  ghost predicate OldestGave(cfg: Config, states: seq<Bus>, a: Actor, env: Envelope, i: nat, m: nat, k: nat, end: seq<Envelope>)
    requires i <= k < |states|
  {
    && i <= m < k && GivesWay(cfg, states, a, env, i, m)
    && Line(states[k]) == LineWithoutOldest(states[m]) + end
    && states[k].tally.lost == states[i].tally.lost + [states[m].pipe.channel[0]]
  }

  /** How far a publication is at state k that was about to send at state i. */
  ghost predicate Phase(cfg: Config, states: seq<Bus>, a: Actor, env: Envelope, i: nat, k: nat)
    requires i <= k < |states|
  {
    var b := states[k];
    match PcAt(b.pcs, a)
    case Publishing(FastSend, _) => SameLine(states[i], b)
    case Publishing(Evict, _) => SameLine(states[i], b) && FoundFull(cfg, states, a, env, i, k)
    case Publishing(CountEvicted, _) =>
      |b.pipe.channel| < cfg.channelCap && AfterOldest(cfg, states, a, env, i, k, [])
    case Publishing(Enqueue, _) =>
      |b.pipe.channel| < cfg.channelCap && Follows(cfg, states, a, env, i, k, [])
    case Publishing(UnlockShared, _) => Follows(cfg, states, a, env, i, k, [env])
    case _ => false
  }

  lemma LineGrows(b: Bus, b': Bus, env: Envelope)
    requires b'.pipe == b.pipe.(channel := b.pipe.channel + [env])
    ensures Line(b') == Line(b) + [env]
  {}

  /** Nobody but the publisher and the consumer moves an envelope, and the publisher only at its own step. */
  lemma OthersKeepPhase(cfg: Config, states: seq<Bus>, a: Actor, env: Envelope, i: nat, k: nat)
    requires i <= k && k + 1 < |states| && Phase(cfg, states, a, env, i, k)
    requires SameLine(states[k], states[k + 1]) && |states[k + 1].pipe.channel| <= |states[k].pipe.channel|
    requires PcAt(states[k + 1].pcs, a) == PcAt(states[k].pcs, a)
    ensures Phase(cfg, states, a, env, i, k + 1)
  {
    hide GivesWay, PcAt, Line;
    var b := states[k];
    match PcAt(b.pcs, a)
    case Publishing(Evict, _) =>
      var f :| i <= f < k && At(states[f], a, FastSend, env) && |states[f].pipe.channel| >= cfg.channelCap;
      assert FoundFull(cfg, states, a, env, i, k + 1);
    case Publishing(CountEvicted, _) => StaysAfter(cfg, states, a, env, i, k, []);
    case Publishing(Enqueue, _) => StaysAfter(cfg, states, a, env, i, k, []);
    case Publishing(UnlockShared, _) => StaysAfter(cfg, states, a, env, i, k, [env]);
    case _ =>
  }

  lemma StaysAfter(cfg: Config, states: seq<Bus>, a: Actor, env: Envelope, i: nat, k: nat, end: seq<Envelope>)
    requires i <= k && k + 1 < |states| && SameLine(states[k], states[k + 1])
    ensures AfterOldest(cfg, states, a, env, i, k, end) ==> AfterOldest(cfg, states, a, env, i, k + 1, end)
  {
    hide FoundFull, PcAt, Line;
    if AfterOldest(cfg, states, a, env, i, k, end) {
      var m: nat :| OldestGave(cfg, states, a, env, i, m, k, end);
      assert OldestGave(cfg, states, a, env, i, m, k + 1, end);
    }
  }

  lemma PublisherKeepsPhase(cfg: Config, states: seq<Bus>, a: Actor, env: Envelope, i: nat, k: nat, p: PublishStep)
    requires i <= k && k + 1 < |states| && Phase(cfg, states, a, env, i, k) && At(states[k], a, p, env)
    requires cfg.strategy == DropOldest && cfg.channelCap > 0 && |states[k].pipe.channel| <= cfg.channelCap
    requires Sends(cfg, states[k], states[k + 1], a, p, env) && p != UnlockShared
    ensures Phase(cfg, states, a, env, i, k + 1)
  {
    hide GivesWay, AfterOldest, PcAt, Line;
    var b, b' := states[k], states[k + 1];
    assert Line(states[i]) + [] == Line(states[i]);
    match p
    case FastSend =>
      if |b.pipe.channel| < cfg.channelCap {
        LineGrows(b, b', env);
      } else {
        assert FoundFull(cfg, states, a, env, i, k + 1);
        SamePipes(b, b');
      }
    case Evict =>
      if b.pipe.channel == [] { SamePipes(b, b'); } else { TakesOldest(cfg, states, a, env, i, k); }
    case CountEvicted =>
      SamePipes(b, b');
      StaysAfter(cfg, states, a, env, i, k, []);
    case Enqueue =>
      LineGrows(b, b', env);
      AppendsAfter(cfg, states, a, env, i, k);
    case _ =>
  }

  lemma TakesOldest(cfg: Config, states: seq<Bus>, a: Actor, env: Envelope, i: nat, k: nat)
    requires i <= k && k + 1 < |states| && At(states[k], a, Evict, env) && states[k].pipe.channel != []
    requires SameLine(states[i], states[k]) && FoundFull(cfg, states, a, env, i, k)
    requires Sends(cfg, states[k], states[k + 1], a, Evict, env)
    ensures AfterOldest(cfg, states, a, env, i, k + 1, [])
  {
    hide FoundFull, PcAt, Line;
    OldestOut(states[k], states[k + 1]);
    assert GivesWay(cfg, states, a, env, i, k);
    assert OldestGave(cfg, states, a, env, i, k, k + 1, []);
  }

  lemma AppendsAfter(cfg: Config, states: seq<Bus>, a: Actor, env: Envelope, i: nat, k: nat)
    requires i <= k && k + 1 < |states| && Line(states[k + 1]) == Line(states[k]) + [env]
    requires states[k + 1].tally.lost == states[k].tally.lost
    ensures AfterOldest(cfg, states, a, env, i, k, []) ==> AfterOldest(cfg, states, a, env, i, k + 1, [env])
  {
    hide FoundFull, PcAt, Line;
    if AfterOldest(cfg, states, a, env, i, k, []) {
      var m: nat :| OldestGave(cfg, states, a, env, i, m, k, []);
      assert OldestGave(cfg, states, a, env, i, m, k + 1, [env]);
    }
  }

  lemma SamePipes(b: Bus, b': Bus)
    requires Untouched(b, b')
    ensures SameLine(b, b')
  {}

  lemma OldestOut(b: Bus, b': Bus)
    requires b.pipe.channel != [] && b'.pipe == b.pipe.(channel := b.pipe.channel[1..])
    ensures Line(b') == LineWithoutOldest(b) + []
  {}

  lemma {:induction false} PhaseReached(cfg: Config, states: seq<Bus>, a: Actor, env: Envelope, i: nat, j: nat)
    requires Interleaving(cfg, states) && cfg.strategy == DropOldest && cfg.channelCap > 0
    requires i <= j < |states| && OnlyPublisher(states, a, env, i, j) && At(states[i], a, FastSend, env)
    requires forall k :: i <= k < j ==> !At(states[k], a, UnlockShared, env)
    ensures Phase(cfg, states, a, env, i, j)
    decreases j
  {
    hide Inv, Next, Interleaving, Phase, Sends, ActorNext, ConsumeNext, PcAt, Line;
    if j == i {
      PhaseBegins(cfg, states, a, env, i);
    } else {
      var k := j - 1;
      var b, b' := states[k], states[j];
      PhaseReached(cfg, states, a, env, i, k);
      Reached(cfg, states, j);
      assert |b.pipe.channel| <= cfg.channelCap by { ChannelFits(cfg, b); }
      var x := WhoMoves(cfg, b, b');
      assert Alone(b, a, env) && Alone(b', a, env);
      if ConsumeNext(b, b') {
        TakenStaysInLine(b, b');
        OthersKeepPhase(cfg, states, a, env, i, k);
      } else if x == a {
        var p := PcAt(b.pcs, a).p;
        assert At(b, a, p, env);
        SendsExactly(cfg, b, b', a, p, env);
        PublisherKeepsPhase(cfg, states, a, env, i, k, p);
      } else {
        SamePipes(b, b');
        OthersKeepPhase(cfg, states, a, env, i, k);
      }
    }
  }

  lemma PhaseBegins(cfg: Config, states: seq<Bus>, a: Actor, env: Envelope, i: nat)
    requires i < |states| && At(states[i], a, FastSend, env)
    ensures Phase(cfg, states, a, env, i, i)
  {}

  lemma ChannelFits(cfg: Config, b: Bus)
    requires Inv(cfg, b)
    ensures |b.pipe.channel| <= cfg.channelCap
  {}

  /** With drop-oldest, whatever the consumer and any closers do meanwhile: a publication that got as far
      as sending, while nobody else publishes, ends with its own envelope last in line.  Either nothing is
      lost, or the channel was full and exactly its oldest envelope at that moment has given way. */
  lemma OldestGivesWay(cfg: Config, states: seq<Bus>, a: Actor, env: Envelope, i: nat, j: nat)
    requires Interleaving(cfg, states) && cfg.strategy == DropOldest && cfg.channelCap > 0
    requires i <= j < |states| && OnlyPublisher(states, a, env, i, j)
    requires At(states[i], a, FastSend, env) && At(states[j], a, UnlockShared, env)
    requires forall k :: i <= k < j ==> !At(states[k], a, UnlockShared, env)
    ensures var line, line' := Line(states[i]), Line(states[j]);
            var lost, lost' := states[i].tally.lost, states[j].tally.lost;
            || (line' == line + [env] && lost' == lost)
            || exists m: nat :: i <= m < j && GivesWay(cfg, states, a, env, i, m)
                   && line' == states[m].pipe.received + states[m].pipe.channel[1..] + [env]
                   && lost' == lost + [states[m].pipe.channel[0]]
  {
    hide Interleaving, FoundFull, SameLine;
    PhaseReached(cfg, states, a, env, i, j);
    if AfterOldest(cfg, states, a, env, i, j, [env]) {
      var m: nat :| OldestGave(cfg, states, a, env, i, m, j, [env]);
    }
  }

  // ---------------------------------------------------------------- decided once, or given up

  /** Who moves, of any subscription: the drain goroutine or the consumer, who decide nothing, or an actor. */
  lemma AnyoneMoves(cfg: Config, b: Bus, b': Bus) returns (a: Actor)
    requires Next(cfg, b, b')
    ensures (b'.pcs == b.pcs && b'.tally == b.tally && b'.life == b.life) || ActorNext(cfg, b, b', a)
    ensures ActorNext(cfg, b, b', a) ==> forall x :: x != a ==> PcAt(b'.pcs, x) == PcAt(b.pcs, x)
    ensures ActorNext(cfg, b, b', a) && !PcAt(b.pcs, a).Publishing? ==> b'.tally == b.tally
  {
    hide DrainNext, ConsumeNext, ActorNext;
    a := 0;
    if DrainNext(cfg, b, b') {
      DrainDecidesNothing(cfg, b, b');
    } else if ConsumeNext(b, b') {
      TakenStaysInLine(b, b');
      assert b'.life == b.life by { ConsumerClosesNothing(b, b'); }
    } else {
      a :| ActorNext(cfg, b, b', a);
    }
    if ActorNext(cfg, b, b', a) {
      OthersStay(cfg, b, b', a);
      if !PcAt(b.pcs, a).Publishing? { CloseKeepsPipe(cfg, b, b', a); }
    }
  }

  lemma ConsumerClosesNothing(b: Bus, b': Bus)
    requires ConsumeNext(b, b')
    ensures b'.life == b.life
  {}

  lemma DrainDecidesNothing(cfg: Config, b: Bus, b': Bus)
    requires DrainNext(cfg, b, b')
    ensures b'.pcs == b.pcs && b'.tally == b.tally && b'.life == b.life
  {
    match b.pipe.drain
    case DrainPop => return;
    case DrainSend(_) => return;
    case DrainWait => return;
    case DrainExited(_) =>
  }

  predicate Undecided(p: PublishStep) {
    p == FastSend || p == Push || p == Evict || p == CountEvicted || p == Enqueue
  }

  predicate Asking(p: PublishStep) {
    p == LockShared || p == Lookup || p == CheckClosed || p == CheckContext
  }

  /** The publisher gives up before it sends: it finds the subscription gone from the routing table, or
      its close flag set, or the context of its caller done. */
  predicate GivesUp(b: Bus, b': Bus, a: Actor, env: Envelope) {
    && At(b', a, UnlockShared, env)
    && ((At(b, a, Lookup, env) && !b.life.routed) || (At(b, a, CheckClosed, env) && b.life.closed) || At(b, a, CheckContext, env))
  }

  /** One step of a publication decides on its envelope, gives up, or neither. */
  ghost predicate DecisionStep(b: Bus, b': Bus, a: Actor, p: PublishStep, env: Envelope) {
    && PcAt(b'.pcs, a).Publishing? && PcAt(b'.pcs, a).env == env
    && var p' := PcAt(b'.pcs, a).p;
    && (Asking(p) ==> b'.tally == b.tally && (Asking(p') || Undecided(p') || GivesUp(b, b', a, env)))
    && (Undecided(p) ==> (if Undecided(p') then b'.tally.published == b.tally.published
                          else b'.tally.published == b.tally.published + [env]))
    && (!Asking(p) ==> !Asking(p'))
    && (p == Signal || p == CountDropped ==> b'.tally.published == b.tally.published && p' == UnlockShared)
  }

  lemma AsksInOneStep(cfg: Config, b: Bus, b': Bus, a: Actor, p: PublishStep, env: Envelope)
    requires At(b, a, p, env) && PublishNext(cfg, b, b', a, p, env) && Asking(p)
    ensures DecisionStep(b, b', a, p, env)
  {
    match p
    case LockShared => return;
    case Lookup => return;
    case CheckClosed => return;
    case CheckContext => return;
    case _ =>
  }

  lemma SendsInOneStep(cfg: Config, b: Bus, b': Bus, a: Actor, p: PublishStep, env: Envelope)
    requires At(b, a, p, env) && PublishNext(cfg, b, b', a, p, env) && (p == FastSend || p == Enqueue)
    requires b.life.channelCloses == 0
    ensures DecisionStep(b, b', a, p, env)
  {
    hide GivesUp;
    match p
    case FastSend => return;
    case Enqueue => return;
    case _ =>
  }

  lemma MakesRoomInOneStep(cfg: Config, b: Bus, b': Bus, a: Actor, p: PublishStep, env: Envelope)
    requires At(b, a, p, env) && PublishNext(cfg, b, b', a, p, env) && !Asking(p)
    requires p != FastSend && p != Enqueue && p != UnlockShared
    requires b.life.channelCloses == 0
    ensures DecisionStep(b, b', a, p, env)
  {
    hide GivesUp, Send;
    match p
    case Push => return;
    case Signal => return;
    case Evict => return;
    case CountEvicted => return;
    case CountDropped => return;
    case _ =>
  }

  lemma DecidesInOneStep(cfg: Config, b: Bus, b': Bus, a: Actor, p: PublishStep, env: Envelope)
    requires Inv(cfg, b) && At(b, a, p, env) && ActorNext(cfg, b, b', a) && p != UnlockShared
    ensures DecisionStep(b, b', a, p, env)
  {
    hide NoLostWakeup, FifoUntilRefused, NothingVanishes, CounterExact, Global, PublishNext, DecisionStep, PublisherAt;
    if Asking(p) {
      AsksInOneStep(cfg, b, b', a, p, env);
    } else {
      assert Local(cfg, b, a, PcAt(b.pcs, a));
      DeliverFindsItOpen(cfg, b, a, p, env);
      if p == FastSend || p == Enqueue { SendsInOneStep(cfg, b, b', a, p, env); } else { MakesRoomInOneStep(cfg, b, b', a, p, env); }
    }
  }

  ghost predicate GaveUp(states: seq<Bus>, a: Actor, env: Envelope, i: nat, k: nat)
    requires k < |states|
  {
    exists g :: i < g <= k && GivesUp(states[g - 1], states[g], a, env)
  }

  /** What has become of a publication that began at state i. */
  ghost predicate Decided(states: seq<Bus>, a: Actor, env: Envelope, i: nat, k: nat)
    requires i <= k < |states| && PcAt(states[k].pcs, a).Publishing?
  {
    var p, published, published' := PcAt(states[k].pcs, a).p, states[i].tally.published, states[k].tally.published;
    if Asking(p) || Undecided(p) then published' == published && !GaveUp(states, a, env, i, k)
    else if GaveUp(states, a, env, i, k) then p == UnlockShared && published' == published
    else published' == published + [env]
  }

  lemma GaveUpSoFar(states: seq<Bus>, a: Actor, env: Envelope, i: nat, k: nat)
    requires i <= k && k + 1 < |states|
    ensures GaveUp(states, a, env, i, k + 1) <==> GaveUp(states, a, env, i, k) || GivesUp(states[k], states[k + 1], a, env)
  {
    hide GivesUp;
    if GaveUp(states, a, env, i, k) {
      var g :| i < g <= k && GivesUp(states[g - 1], states[g], a, env);
    }
    if GivesUp(states[k], states[k + 1], a, env) {
      var g := k + 1;
      assert i < g <= k + 1 && GivesUp(states[g - 1], states[g], a, env);
    }
  }

  /** With any strategy, whatever the consumer, the drain goroutine and any closers do meanwhile: a
      publication, nobody else publishing, has decided on its envelope exactly once by the time it
      unlocks, unless it gave up, which it does only on a subscription being closed or a context done. */
  lemma {:induction false} DecidedOnce(cfg: Config, states: seq<Bus>, a: Actor, env: Envelope, i: nat, j: nat)
    requires Interleaving(cfg, states) && i <= j < |states|
    requires OnlyPublisher(states, a, env, i, j) && At(states[i], a, LockShared, env)
    requires forall k :: i <= k < j ==> !At(states[k], a, UnlockShared, env)
    ensures Alone(states[j], a, env) && Decided(states, a, env, i, j)
    decreases j
  {
    hide Inv, Next, Interleaving, ActorNext, PcAt, GaveUp, DecisionStep, GivesUp;
    if j == i {
      assert !GaveUp(states, a, env, i, i) by { NotYet(states, a, env, i); }
    } else {
      var k := j - 1;
      var b, b' := states[k], states[j];
      DecidedOnce(cfg, states, a, env, i, k);
      Reached(cfg, states, j);
      assert Alone(b, a, env) && Alone(b', a, env);
      GaveUpSoFar(states, a, env, i, k);
      var x := AnyoneMoves(cfg, b, b');
      if ActorNext(cfg, b, b', x) && x == a {
        var p := PcAt(b.pcs, a).p;
        assert At(b, a, p, env);
        DecidesInOneStep(cfg, b, b', a, p, env);
        StepDecides(states, a, env, i, k, p);
      } else {
        assert !GivesUp(b, b', a, env) by { StandsStill(b, b', a, env); }
      }
    }
  }

  lemma NotYet(states: seq<Bus>, a: Actor, env: Envelope, i: nat)
    requires i < |states|
    ensures !GaveUp(states, a, env, i, i)
  {}

  lemma StandsStill(b: Bus, b': Bus, a: Actor, env: Envelope)
    requires PcAt(b'.pcs, a) == PcAt(b.pcs, a)
    ensures !GivesUp(b, b', a, env)
  {}

  lemma StepDecides(states: seq<Bus>, a: Actor, env: Envelope, i: nat, k: nat, p: PublishStep)
    requires i <= k && k + 1 < |states| && At(states[k], a, p, env) && p != UnlockShared
    requires Decided(states, a, env, i, k) && DecisionStep(states[k], states[k + 1], a, p, env)
    requires GaveUp(states, a, env, i, k + 1) <==> GaveUp(states, a, env, i, k) || GivesUp(states[k], states[k + 1], a, env)
    ensures Decided(states, a, env, i, k + 1)
  {
    hide GaveUp;
  }

  /** As long as nobody closes the subscription or shuts the bus down, it is routed and open. */
  lemma {:induction false} OpenWhileNobodyCloses(cfg: Config, states: seq<Bus>)
    requires Interleaving(cfg, states)
    requires forall k, a :: 0 <= k < |states| ==> !PcAt(states[k].pcs, a).Closing? && !PcAt(states[k].pcs, a).ShuttingDown?
    ensures var life := states[|states| - 1].life;
            life.routed && !life.closed && !life.cancelled && life.channelCloses == 0
    decreases |states|
  {
    hide Next, ActorNext;
    var n := |states| - 1;
    if n > 0 {
      OpenWhileNobodyCloses(cfg, states[..n]);
      assert Next(cfg, states[n - 1], states[n]);
      var a := AnyoneMoves(cfg, states[n - 1], states[n]);
      if ActorNext(cfg, states[n - 1], states[n], a) { OnlyClosersClose(cfg, states[n - 1], states[n], a); }
    }
  }

  lemma OnlyClosersClose(cfg: Config, b: Bus, b': Bus, a: Actor)
    requires ActorNext(cfg, b, b', a) && !PcAt(b.pcs, a).Closing? && !PcAt(b.pcs, a).ShuttingDown?
    ensures b'.life == b.life
  {
    match PcAt(b.pcs, a)
    case Idle => return;
    case Publishing(p, env) => PublisherClosesNothing(cfg, b, b', a, p, env);
    case Closing(_) =>
    case ShuttingDown(_) =>
  }

  lemma PublisherClosesNothing(cfg: Config, b: Bus, b': Bus, a: Actor, p: PublishStep, env: Envelope)
    requires PublishNext(cfg, b, b', a, p, env)
    ensures b'.life == b.life
  {
    PublishFrames(cfg, b, b', a, p, env, a + 1);
  }
}
