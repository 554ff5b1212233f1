/** Exactly when an overflow subscription keeps every envelope, in the order published: as long as no
    publisher evicts an envelope, finds the channel full after its push was refused, or sends past
    envelopes that are still in the drain goroutine's hand or in the ring. */
module BusOrder {
  import opened Wrappers
  import opened EventBus
  import opened BusSafety

  /** Everything published is received or on its way, in order. */
  ghost predicate Fifo(b: Bus) {
    InOrder(b.pipe) == b.tally.published && b.tally.lost == []
  }

  /** Behind the channel: the envelope in hand, and the ring. */
  function Behind(pipe: Pipe): seq<Envelope> {
    Held(pipe.drain) + pipe.ring
  }

  /** The next step of this actor loses an envelope, or lets one past older ones.  All three happen
      only to a publisher whose push was refused. */
  predicate Disorders(cfg: Config, b: Bus, a: Actor) {
    var pc := PcAt(b.pcs, a);
    && pc.Publishing?
    && (  || (pc.p == Evict && b.pipe.channel != [])
          || (pc.p == Enqueue && |b.pipe.channel| >= cfg.channelCap)
          || (pc.p == Enqueue && Behind(b.pipe) != []))
  }

  /** Two envelopes stand the other way round than they were published. */
  ghost predicate Crossed(line: seq<Envelope>, published: seq<Envelope>, i: int, j: int, m: int, n: int) {
    0 <= i < j < |line| && 0 <= m < n < |published| && line[i] == published[n] && line[j] == published[m]
  }

  ghost predicate Broken(b: Bus) {
    b.tally.lost != [] || exists i, j, m, n :: Crossed(InOrder(b.pipe), b.tally.published, i, j, m, n)
  }

  ghost predicate Distinct(s: seq<Envelope>) {
    forall i, j :: 0 <= i < j < |s| ==> s[i] != s[j]
  }

  /** Among distinct envelopes the two exclude each other. */
  lemma BrokenIsNotFifo(b: Bus)
    requires Distinct(b.tally.published) && Fifo(b)
    ensures !Broken(b)
  {
    var line := b.tally.published;
    forall i, j, m, n ensures !Crossed(line, line, i, j, m, n) {
      assert 0 <= i < j < |line| && 0 <= m < n < |line| ==> (line[i] == line[n] ==> i == n) && (line[j] == line[m] ==> j == m);
    }
  }

  // ---------------------------------------------------------------- how the line changes

  /** An envelope joins the line at place k, or the line stays. */
  ghost predicate Joins(b: Bus, b': Bus, k: nat, env: Envelope) {
    var line := InOrder(b.pipe);
    && k <= |line| && InOrder(b'.pipe) == line[..k] + [env] + line[k..]
    && b'.tally.published == b.tally.published + [env] && b'.tally.lost == b.tally.lost
  }

  ghost predicate Stays(b: Bus, b': Bus) {
    InOrder(b'.pipe) == InOrder(b.pipe) && b'.tally.published == b.tally.published && b'.tally.lost == b.tally.lost
  }

  ghost predicate Loses(b: Bus, b': Bus) {
    b'.tally.lost != [] && b.tally.published <= b'.tally.published
  }

  lemma BrokenPersists(b: Bus, b': Bus, k: nat, env: Envelope)
    requires Broken(b) && (Stays(b, b') || Loses(b, b') || Joins(b, b', k, env))
    ensures Broken(b')
  {
    if b.tally.lost == [] && !Stays(b, b') && !Loses(b, b') {
      var line, line' := InOrder(b.pipe), InOrder(b'.pipe);
      var i, j, m, n :| Crossed(line, b.tally.published, i, j, m, n);
      var i', j' := if i < k then i else i + 1, if j < k then j else j + 1;
      assert Crossed(line', b'.tally.published, i', j', m, n);
    }
  }

  /** Where a send puts an envelope: behind what is received and in the channel. */
  lemma PutJoins(b: Bus, b': Bus, env: Envelope)
    requires b'.pipe == Put(b, env).pipe && b'.tally == Put(b, env).tally
    ensures Joins(b, b', |b.pipe.received| + |b.pipe.channel|, env)
  {
    var front := b.pipe.received + b.pipe.channel;
    var line := InOrder(b.pipe);
    assert line == front + Behind(b.pipe);
    assert line[..|front|] == front && line[|front|..] == Behind(b.pipe);
    assert InOrder(b'.pipe) == front + [env] + Behind(b.pipe);
  }

  /** From an in-order state a send keeps order exactly when nothing stands behind the channel. */
  lemma PutExact(b: Bus, b': Bus, env: Envelope)
    requires Fifo(b) && env !in b.tally.published
    requires b'.pipe == Put(b, env).pipe && b'.tally == Put(b, env).tally
    ensures Behind(b.pipe) == [] ==> Fifo(b')
    ensures Behind(b.pipe) != [] ==> Broken(b')
  {
    PutJoins(b, b', env);
    var k := |b.pipe.received| + |b.pipe.channel|;
    var line, line' := InOrder(b.pipe), InOrder(b'.pipe);
    assert |line| == k + |Behind(b.pipe)|;
    if Behind(b.pipe) == [] {
      assert line' == line + [env];
    } else {
      assert Crossed(line', b'.tally.published, k, k + 1, k, |b.tally.published|);
    }
  }

  lemma PushJoins(b: Bus, b': Bus, env: Envelope)
    requires b'.pipe == b.pipe.(ring := b.pipe.ring + [env])
    requires b'.tally == b.tally.(published := b.tally.published + [env])
    ensures Joins(b, b', |InOrder(b.pipe)|, env) && (Fifo(b) ==> Fifo(b'))
  {
    var line := InOrder(b.pipe);
    assert InOrder(b'.pipe) == line + [env];
    assert line[..|line|] == line && line[|line|..] == [];
  }

  // ---------------------------------------------------------------- one step

  ghost predicate Evolves(b: Bus, b': Bus) {
    Stays(b, b') || Loses(b, b') || exists k, env :: Joins(b, b', k, env)
  }

  /** What the step of a publisher does to the line, and to its order. */
  ghost predicate OrderedStep(cfg: Config, b: Bus, b': Bus, a: Actor) {
    && Evolves(b, b')
    && (Fifo(b) && Distinct(b'.tally.published) ==> if Disorders(cfg, b, a) then Broken(b') else Fifo(b'))
  }

  lemma DrainStays(cfg: Config, b: Bus, b': Bus)
    requires DrainNext(cfg, b, b')
    ensures Stays(b, b')
  {
    match b.pipe.drain
    case DrainPop => if b.pipe.ring != [] { FirstAndRest(b.pipe.ring); }
    case DrainSend(env) =>
    case DrainWait =>
    case DrainExited(_) =>
  }

  lemma ConsumeStays(b: Bus, b': Bus)
    requires ConsumeNext(b, b')
    ensures Stays(b, b')
  {
    hide Held;
    FirstAndRest(b.pipe.channel);
    assert b'.pipe.received + b'.pipe.channel == b.pipe.received + b.pipe.channel;
  }

  lemma FreshEnvelope(published: seq<Envelope>, env: Envelope)
    requires Distinct(published + [env])
    ensures env !in published
  {
    var all := published + [env];
    forall i | 0 <= i < |published| ensures published[i] != env {
      assert all[i] != all[|published|];
    }
  }

  lemma EnqueueOrders(cfg: Config, b: Bus, b': Bus, a: Actor, env: Envelope)
    requires PcAt(b.pcs, a) == Publishing(Enqueue, env) && PublishNext(cfg, b, b', a, Enqueue, env)
    requires b.life.channelCloses == 0
    ensures OrderedStep(cfg, b, b', a)
  {
    hide Fifo, Broken, Joins, Distinct, PcAt;
    if |b.pipe.channel| < cfg.channelCap {
      PutJoins(b, b', env);
      if Fifo(b) && Distinct(b'.tally.published) {
        FreshEnvelope(b.tally.published, env);
        PutExact(b, b', env);
      }
    } else {
      LostIsBroken(b');
    }
  }

  lemma LostIsBroken(b: Bus)
    ensures b.tally.lost != [] ==> Broken(b) && !Fifo(b)
  {}

  lemma StayingOrders(b: Bus, b': Bus)
    requires Stays(b, b')
    ensures Fifo(b) == Fifo(b') && Broken(b) == Broken(b')
  {}

  lemma PublishOrders(cfg: Config, b: Bus, b': Bus, a: Actor, p: PublishStep, env: Envelope)
    requires Global(cfg, b) && PublisherAt(cfg, b, a, p) && PcAt(b.pcs, a) == Publishing(p, env)
    requires PublishNext(cfg, b, b', a, p, env) && cfg.strategy == Overflow
    ensures OrderedStep(cfg, b, b', a)
  {
    hide Fifo, Broken, Joins, Distinct, InOrder, Behind, Global;
    match p
    case Push =>
      if |b.pipe.ring| < cfg.ringCap { PushJoins(b, b', env); } else { StayingOrders(b, b'); }
      return;
    case Evict =>
      LostIsBroken(b');
      if b.pipe.channel == [] { StayingOrders(b, b'); }
      return;
    case Enqueue =>
      DeliverFindsItOpen(cfg, b, a, p, env);
      EnqueueOrders(cfg, b, b', a, env);
      return;
    case LockShared => StayingOrders(b, b'); return;
    case Lookup => StayingOrders(b, b'); return;
    case CheckClosed => StayingOrders(b, b'); return;
    case CheckContext => StayingOrders(b, b'); return;
    case Signal => SamePipe(b, b'); StayingOrders(b, b'); return;
    case FastSend => return;
    case CountEvicted => StayingOrders(b, b'); return;
    case CountDropped => StayingOrders(b, b'); return;
    case UnlockShared => StayingOrders(b, b'); return;
  }

  lemma SamePipe(b: Bus, b': Bus)
    requires b'.pipe == b.pipe.(notify := b'.pipe.notify)
    ensures InOrder(b'.pipe) == InOrder(b.pipe)
  {}

  /** The exact step: from a state with every envelope in order, an actor's step breaks that, for
      distinct envelopes, if and only if it evicts, finds the channel full, or sends past envelopes
      behind the channel. */
  lemma StepKeepsOrder(cfg: Config, b: Bus, b': Bus, a: Actor)
    requires Inv(cfg, b) && ActorNext(cfg, b, b', a) && cfg.strategy == Overflow
    requires Fifo(b) && Distinct(b'.tally.published)
    ensures Fifo(b') <==> !Disorders(cfg, b, a)
  {
    hide Inv, Fifo, Broken, ActorNext, Disorders;
    ActorOrders(cfg, b, b', a);
    if Fifo(b') { BrokenIsNotFifo(b'); }
  }

  lemma ActorOrders(cfg: Config, b: Bus, b': Bus, a: Actor)
    requires Inv(cfg, b) && ActorNext(cfg, b, b', a) && cfg.strategy == Overflow
    ensures OrderedStep(cfg, b, b', a)
  {
    hide Global, PublisherAt, CloserAt, ShutterAt, PublishNext, CloseNext, ShutdownNext, Fifo, Broken, Joins, Distinct;
    assert Local(cfg, b, a, PcAt(b.pcs, a));
    match PcAt(b.pcs, a)
    case Publishing(p, env) => PublishOrders(cfg, b, b', a, p, env);
    case _ =>
      CloseKeepsPipe(cfg, b, b', a);
      StayingOrders(b, b');
  }

  // ---------------------------------------------------------------- whole runs

  /** The step from b to b' is one that disorders. */
  ghost predicate DisorderingStep(cfg: Config, b: Bus, b': Bus) {
    exists a :: ActorNext(cfg, b, b', a) && Disorders(cfg, b, a)
  }

  ghost predicate NeverDisorders(cfg: Config, states: seq<Bus>) {
    forall i :: 0 < i < |states| ==> !DisorderingStep(cfg, states[i - 1], states[i])
  }

  lemma NextOrders(cfg: Config, b: Bus, b': Bus)
    requires Inv(cfg, b) && Next(cfg, b, b') && cfg.strategy == Overflow
    ensures Evolves(b, b')
    ensures Fifo(b) && Distinct(b'.tally.published) ==> if DisorderingStep(cfg, b, b') then Broken(b') else Fifo(b')
  {
    hide Inv, Fifo, Broken, ActorNext, Disorders, DrainNext, ConsumeNext, Stays, Loses, Distinct;
    if DisorderingStep(cfg, b, b') {
      var a :| ActorNext(cfg, b, b', a) && Disorders(cfg, b, a);
      ActorOrders(cfg, b, b', a);
    } else if DrainNext(cfg, b, b') {
      DrainStays(cfg, b, b');
      StayingOrders(b, b');
    } else if ConsumeNext(b, b') {
      ConsumeStays(b, b');
      StayingOrders(b, b');
    } else {
      var a :| ActorNext(cfg, b, b', a);
      ActorOrders(cfg, b, b', a);
    }
  }

  lemma EvolvingPublishes(b: Bus, b': Bus)
    requires Evolves(b, b')
    ensures b.tally.published <= b'.tally.published
    ensures Distinct(b'.tally.published) ==> Distinct(b.tally.published)
    ensures Broken(b) ==> Broken(b')
  {
    hide Broken, Stays, Loses, Joins;
    if Stays(b, b') {
      StayingOrders(b, b');
      assert b'.tally.published == b.tally.published by { StayingPublishes(b, b'); }
    } else if Loses(b, b') {
      LosingPublishes(b, b');
    } else {
      var k, env :| Joins(b, b', k, env);
      JoiningPublishes(b, b', k, env);
      if Broken(b) { BrokenPersists(b, b', k, env); }
    }
  }

  lemma StayingPublishes(b: Bus, b': Bus)
    requires Stays(b, b')
    ensures b'.tally.published == b.tally.published
  {}

  lemma LosingPublishes(b: Bus, b': Bus)
    requires Loses(b, b')
    ensures b.tally.published <= b'.tally.published && Broken(b')
  {}

  lemma JoiningPublishes(b: Bus, b': Bus, k: nat, env: Envelope)
    requires Joins(b, b', k, env)
    ensures b'.tally.published == b.tally.published + [env]
  {}

  /** Over a run in which the published envelopes are distinct: order kept, or visibly broken. */
  lemma {:induction false} KeptOrBroken(cfg: Config, states: seq<Bus>)
    requires Interleaving(cfg, states) && cfg.strategy == Overflow
    requires Distinct(states[|states| - 1].tally.published)
    ensures var last := states[|states| - 1];
            if NeverDisorders(cfg, states) then Fifo(last) else Broken(last)
    decreases |states|
  {
    hide Inv, Fifo, Broken, Next, DisorderingStep, NeverDisorders, Distinct, Subscribed, Evolves;
    var n := |states| - 1;
    if n == 0 {
      assert states[0] == Subscribed(cfg);
      NewIsInOrder(cfg, states);
    } else {
      var before := states[..n];
      var b, b' := states[n - 1], states[n];
      assert Next(cfg, b, b') && before[|before| - 1] == b;
      EveryInterleavingIsSafe(cfg, before);
      NextOrders(cfg, b, b');
      EvolvingPublishes(b, b');
      KeptOrBroken(cfg, before);
      SplitLast(cfg, states);
    }
  }

  lemma NewIsInOrder(cfg: Config, states: seq<Bus>)
    ensures Fifo(Subscribed(cfg)) && (|states| == 1 ==> NeverDisorders(cfg, states))
  {}

  lemma SplitLast(cfg: Config, states: seq<Bus>)
    requires |states| > 1
    ensures var n := |states| - 1;
            NeverDisorders(cfg, states) <==>
              NeverDisorders(cfg, states[..n]) && !DisorderingStep(cfg, states[n - 1], states[n])
  {
    hide DisorderingStep;
    var n := |states| - 1;
    var before := states[..n];
    assert forall i :: 0 <= i < n ==> before[i] == states[i];
  }

  /** The exact condition over every run of an overflow subscription with distinct envelopes: at the
      end everything published is received or on its way in order, nothing lost, if and only if no
      step evicted an envelope, found the channel full after a refused push, or sent an envelope past
      older ones in hand or in the ring.  Order once broken never comes back. */
  lemma InOrderExactly(cfg: Config, states: seq<Bus>)
    requires Interleaving(cfg, states) && cfg.strategy == Overflow
    requires Distinct(states[|states| - 1].tally.published)
    ensures Fifo(states[|states| - 1]) <==> NeverDisorders(cfg, states)
  {
    hide NeverDisorders, Fifo, Broken, Distinct, Next;
    KeptOrBroken(cfg, states);
    if Fifo(states[|states| - 1]) { BrokenIsNotFifo(states[|states| - 1]); }
  }

  /** A push is never refused without the ring having been full, so a run that disorders has had one
      refused; the converse fails when the way is clear. */
  lemma DisordersAfterRefusal(cfg: Config, b: Bus, a: Actor)
    requires Inv(cfg, b) && cfg.strategy == Overflow && Disorders(cfg, b, a)
    ensures b.tally.refused
  {
    assert Local(cfg, b, a, PcAt(b.pcs, a));
  }
}
