/** How often the conversation service prompts the AI about the output of a session. */
module RateLimit {
  import opened Wrappers

  type Session = string
  type Time = int // nanoseconds

  const BYPASS_MIN_INTERVAL: int := 500_000_000
  const OUTPUT_MIN_INTERVAL: int := 2_000_000_000

  datatype Origin = FromUser | FromElsewhere

  /** `annotations` that matter here: `notable` is "true", and the value of `waiting_for`. */
  datatype Message = Message(session: Session, origin: Origin, notable: bool, waitingFor: string)

  /** Which limit a session-output message is held to. */
  datatype Limit = Ordinary | Bypass

  /** Prompted as a user intent, as session output under a limit, or not at all. */
  datatype Decision = UserPrompt | OutputPrompt(limit: Limit) | NoPrompt

  predicate ValidWaitingFor(v: string) {
    v == "user_input" || v == "confirmation" || v == "choice"
  }

  /** When the session was last prompted, and last let past the ordinary limit. */
  datatype Marks = Marks(lastOutput: Option<Time>, lastBypass: Option<Time>)

  predicate Elapsed(last: Option<Time>, now: Time, interval: int) {
    last == None || now - last.value >= interval
  }

  /** The marks after a request, and whether it is granted. */
  function Ask(m: Marks, limit: Limit, now: Time): (Marks, bool) {
    match limit
    case Ordinary => if Elapsed(m.lastOutput, now, OUTPUT_MIN_INTERVAL) then (m.(lastOutput := Some(now)), true) else (m, false)
    case Bypass => if Elapsed(m.lastBypass, now, BYPASS_MIN_INTERVAL) then (Marks(Some(now), Some(now)), true) else (m, false)
  }

  class ConversationService {
    var lastSessionOutput: map<Session, Time>
    var lastWaitingForBypass: map<Session, Time>

    function MarksOf(session: Session): Marks
      reads this
    {
      Marks(if session in lastSessionOutput then Some(lastSessionOutput[session]) else None,
            if session in lastWaitingForBypass then Some(lastWaitingForBypass[session]) else None)
    }

    constructor ()
      ensures forall s :: MarksOf(s) == Marks(None, None)
    {
      lastSessionOutput, lastWaitingForBypass := map[], map[];
    }

    method ShouldTriggerSessionOutput(session: Session, now: Time) returns (granted: bool)
      modifies this
      ensures (MarksOf(session), granted) == Ask(old(MarksOf(session)), Ordinary, now)
      ensures forall s :: s != session ==> MarksOf(s) == old(MarksOf(s))
    {
      if session in lastSessionOutput && now - lastSessionOutput[session] < OUTPUT_MIN_INTERVAL {
        return false;
      }
      lastSessionOutput := lastSessionOutput[session := now];
      granted := true;
    }

    method ShouldBypassForWaitingFor(session: Session, now: Time) returns (granted: bool)
      modifies this
      ensures (MarksOf(session), granted) == Ask(old(MarksOf(session)), Bypass, now)
      ensures forall s :: s != session ==> MarksOf(s) == old(MarksOf(s))
    {
      if session in lastWaitingForBypass && now - lastWaitingForBypass[session] < BYPASS_MIN_INTERVAL {
        return false;
      }
      lastWaitingForBypass := lastWaitingForBypass[session := now];
      lastSessionOutput := lastSessionOutput[session := now];
      granted := true;
    }

    /** A user is always answered; notable output is held to its limit; a message without a session
        asks for nothing unless a user sent it. */
    method HandlePipelineMessage(msg: Message, now: Time) returns (d: Decision)
      modifies this
      ensures msg.origin == FromUser ==> d == UserPrompt
      ensures msg.origin != FromUser && (msg.session == "" || !msg.notable) ==> d == NoPrompt
      ensures msg.origin == FromUser || msg.session == "" || !msg.notable ==> forall s :: MarksOf(s) == old(MarksOf(s))
      ensures msg.origin != FromUser && msg.session != "" && msg.notable ==>
                var limit := if msg.waitingFor in {"user_input", "confirmation", "choice"} then Bypass else Ordinary;
                var (marks, granted) := Ask(old(MarksOf(msg.session)), limit, now);
                MarksOf(msg.session) == marks && d == if granted then OutputPrompt(limit) else NoPrompt
      ensures forall s :: s != msg.session ==> MarksOf(s) == old(MarksOf(s))
    {
      if msg.origin == FromUser { return UserPrompt; }
      if msg.session == "" || !msg.notable { return NoPrompt; }
      if msg.waitingFor != "" && ValidWaitingFor(msg.waitingFor) {
        var granted := ShouldBypassForWaitingFor(msg.session, now);
        return if granted then OutputPrompt(Bypass) else NoPrompt;
      }
      var granted := ShouldTriggerSessionOutput(msg.session, now);
      d := if granted then OutputPrompt(Ordinary) else NoPrompt;
    }

    method ClearSession(session: Session)
      modifies this
      ensures session != "" ==> MarksOf(session) == Marks(None, None)
      ensures forall s :: s != session || s == "" ==> MarksOf(s) == old(MarksOf(s))
    {
      if session == "" { return; }
      lastSessionOutput := lastSessionOutput - {session};
      lastWaitingForBypass := lastWaitingForBypass - {session};
    }
  }

  // ---------------------------------------------------------------- one session over time

  /** A request for a session-output prompt, or a prompt granted, under a limit at a time. */
  datatype Prompt = Prompt(limit: Limit, at: Time)

  /** The prompts granted to a sequence of requests, and the marks they leave. */
  function Grants(m: Marks, requests: seq<Prompt>): (seq<Prompt>, Marks) {
    if requests == [] then ([], m) else
      var (before, marks) := Grants(m, requests[..|requests| - 1]);
      var last := requests[|requests| - 1];
      var (marks', granted) := Ask(marks, last.limit, last.at);
      (if granted then before + [last] else before, marks')
  }

  ghost predicate Monotone(requests: seq<Prompt>) {
    forall i, j :: 0 <= i <= j < |requests| ==> requests[i].at <= requests[j].at
  }

  /** How far a later prompt must be from an earlier one. */
  predicate Apart(earlier: Prompt, later: Prompt) {
    && earlier.at <= later.at
    && (later.limit == Ordinary ==> later.at - earlier.at >= OUTPUT_MIN_INTERVAL)
    && (later.limit == Bypass && earlier.limit == Bypass ==> later.at - earlier.at >= BYPASS_MIN_INTERVAL)
  }

  ghost predicate Spaced(prompts: seq<Prompt>) {
    forall i, j :: 0 <= i < j < |prompts| ==> Apart(prompts[i], prompts[j])
  }

  /** The marks are no older than any prompt they stand for. */
  ghost predicate Marked(prompts: seq<Prompt>, m: Marks, now: Time) {
    && (forall p <- prompts :: p.at <= now)
    && (forall p <- prompts :: m.lastOutput.Some? && m.lastOutput.value >= p.at)
    && (forall p <- prompts :: p.limit == Bypass ==> m.lastBypass.Some? && m.lastBypass.value >= p.at)
  }

  /** An ordinary prompt comes at least two seconds after every earlier prompt, and bypass prompts
      are at least half a second apart, whatever marks the session began with. */
  lemma {:induction false} GrantsAreSpaced(m: Marks, requests: seq<Prompt>)
    requires Monotone(requests)
    ensures var (granted, marks) := Grants(m, requests);
            && Spaced(granted)
            && (requests != [] ==> Marked(granted, marks, requests[|requests| - 1].at))
            && (requests == [] ==> granted == [])
    decreases |requests|
  {
    if requests != [] {
      var init, last := requests[..|requests| - 1], requests[|requests| - 1];
      GrantsAreSpaced(m, init);
      var (before, marks) := Grants(m, init);
      var (granted, marks') := Grants(m, requests);
      if init != [] { assert requests[|init| - 1].at <= last.at; }
      assert forall p <- before :: p.at <= last.at;
      if granted != before {
        assert granted == before + [last];
        forall i | 0 <= i < |before| ensures Apart(before[i], last) { assert before[i] in before; }
      }
    }
  }

  /** The marks say how long ago the last prompts were, no more. */
  ghost predicate MarksTell(prompts: seq<Prompt>, m: Marks) {
    && (m.lastOutput.Some? ==> exists p :: p in prompts && p.at == m.lastOutput.value)
    && (m.lastBypass.Some? ==> exists p :: p in prompts && p.limit == Bypass && p.at == m.lastBypass.value)
  }

  lemma {:induction false} MarksAreOfGrants(requests: seq<Prompt>)
    ensures MarksTell(Grants(Marks(None, None), requests).0, Grants(Marks(None, None), requests).1)
  {
    if requests != [] {
      var init, last := requests[..|requests| - 1], requests[|requests| - 1];
      MarksAreOfGrants(init);
      var (before, marks) := Grants(Marks(None, None), init);
      var (granted, marks') := Grants(Marks(None, None), requests);
      assert granted != before ==> granted[|before|] == last;
      assert forall p :: p in before ==> p in granted;
    }
  }

  lemma NoneGranted()
    ensures Grants(Marks(None, None), []) == ([], Marks(None, None))
  {}

  /** Nothing is refused without need, nor granted too soon: of any requests with a monotone clock, each
      is granted if and only if an ordinary one comes two seconds after every prompt granted before, and
      one that bypasses half a second after every such prompt granted before. */
  lemma GrantedExactly(requests: seq<Prompt>, r: Prompt)
    requires Monotone(requests + [r])
    ensures var m := Marks(None, None);
            var before := Grants(m, requests).0;
            var free := forall p <- before ::
                          (r.limit == Ordinary ==> r.at - p.at >= 2_000_000_000)
                          && (r.limit == Bypass && p.limit == Bypass ==> r.at - p.at >= 500_000_000);
            Grants(m, requests + [r]).0 == if free then before + [r] else before
  {
    hide Grants;
    var m, all := Marks(None, None), requests + [r];
    GrantsSnoc(m, requests, r);
    MarksAreOfGrants(requests);
    NoneGranted();
    assert forall i :: 0 <= i < |requests| ==> all[i] == requests[i];
    GrantsAreSpaced(m, requests);
    var (before, marks) := Grants(m, requests);
    if requests != [] { assert all[|requests| - 1].at <= all[|requests|].at; }
    if marks.lastOutput.Some? {
      var p :| p in before && p.at == marks.lastOutput.value;
    }
    if marks.lastBypass.Some? {
      var p :| p in before && p.limit == Bypass && p.at == marks.lastBypass.value;
    }
  }

  /** The prompts from a on, up to b. */
  function Window(prompts: seq<Prompt>, a: Time, b: Time): (w: seq<Prompt>)
    ensures forall p <- w :: p in prompts && a <= p.at <= b
  {
    if prompts == [] then [] else
      var last := prompts[|prompts| - 1];
      Window(prompts[..|prompts| - 1], a, b) + (if a <= last.at <= b then [last] else [])
  }

  lemma {:induction false} WindowIsSpaced(prompts: seq<Prompt>, a: Time, b: Time)
    requires Spaced(prompts)
    ensures Spaced(Window(prompts, a, b))
  {
    if prompts != [] {
      var init, last := prompts[..|prompts| - 1], prompts[|prompts| - 1];
      WindowIsSpaced(init, a, b);
      var w := Window(init, a, b);
      forall i | 0 <= i < |w| ensures Apart(w[i], last) {
        assert w[i] in init;
        var k :| 0 <= k < |init| && init[k] == w[i];
        assert Apart(prompts[k], prompts[|prompts| - 1]);
      }
    }
  }

  /** Half-seconds since a, rounded down. */
  function Ticks(a: Time, t: Time): nat
    requires a <= t
  {
    (t - a) / BYPASS_MIN_INTERVAL
  }

  lemma LaterByTicks(a: Time, t: Time, t': Time, n: nat)
    requires a <= t && t' - t >= n * BYPASS_MIN_INTERVAL
    ensures Ticks(a, t') >= Ticks(a, t) + n
  {
    var x, y, d := t - a, t' - a, BYPASS_MIN_INTERVAL;
    assert x == x / d * d + x % d && y == y / d * d + y % d;
    assert y / d * d > (x / d + n - 1) * d by {
      assert (x / d + n - 1) * d == x / d * d + n * d - d;
    }
  }

  /** After a bypass prompt the count may be one ahead of what follows an ordinary one. */
  lemma {:induction false} SpacedIsSparse(w: seq<Prompt>, a: Time)
    requires Spaced(w) && w != [] && forall p <- w :: a <= p.at
    ensures var last := w[|w| - 1];
            |w| <= Ticks(a, last.at) + (if last.limit == Bypass then 2 else 1)
  {
    var n := |w|;
    if n > 1 {
      var init := w[..n - 1];
      SpacedIsSparse(init, a);
      var prev, last := w[n - 2], w[n - 1];
      assert Apart(prev, last) && init[n - 2] == prev && prev in w;
      LaterByTicks(a, prev.at, last.at, if last.limit == Ordinary then 4 else if prev.limit == Bypass then 1 else 0);
    }
  }

  /** In any window of length L, whatever came before, at most L / 500ms + 2 session-output prompts go
      to one session. */
  lemma PromptsPerWindow(m: Marks, requests: seq<Prompt>, a: Time, length: nat)
    requires Monotone(requests)
    ensures |Window(Grants(m, requests).0, a, a + length)| <= length / BYPASS_MIN_INTERVAL + 2
  {
    hide Grants, Window, Spaced, Monotone, Marked, Ticks;
    var granted := Grants(m, requests).0;
    var w := Window(granted, a, a + length);
    GrantsAreSpaced(m, requests);
    WindowIsSpaced(granted, a, a + length);
    if w != [] {
      SpacedIsSparse(w, a);
      var last := w[|w| - 1];
      assert last in w;
      LaterByTicks(a, last.at, a + length, 0);
      AllTicks(a, length);
    }
  }

  lemma AllTicks(a: Time, length: nat)
    ensures Ticks(a, a + length) == length / BYPASS_MIN_INTERVAL
  {}

  // ---------------------------------------------------------------- the bound is met

  /** One ordinary message, then messages that wait for the user every half second. */
  function Burst(n: nat): seq<Prompt> {
    if n == 0 then [Prompt(Ordinary, 0), Prompt(Bypass, 0)]
    else Burst(n - 1) + [Prompt(Bypass, n * BYPASS_MIN_INTERVAL)]
  }

  lemma {:induction false} BurstTimes(n: nat)
    ensures |Burst(n)| == n + 2
    ensures forall i :: 0 <= i < n + 2 ==> Burst(n)[i].at == if i == 0 then 0 else (i - 1) * BYPASS_MIN_INTERVAL
  {
    if n > 0 { BurstTimes(n - 1); }
  }

  /** One more request after those already decided. */
  lemma GrantsSnoc(m: Marks, requests: seq<Prompt>, last: Prompt)
    ensures var (before, marks) := Grants(m, requests);
            var (marks', granted) := Ask(marks, last.limit, last.at);
            Grants(m, requests + [last]) == (if granted then before + [last] else before, marks')
  {
    assert (requests + [last])[..|requests|] == requests;
  }

  lemma {:induction false} BurstIsGranted(n: nat)
    ensures Grants(Marks(None, None), Burst(n))
         == (Burst(n), Marks(Some(n * BYPASS_MIN_INTERVAL), Some(n * BYPASS_MIN_INTERVAL)))
    decreases n
  {
    if n == 0 {
      var ordinary, bypass := Prompt(Ordinary, 0), Prompt(Bypass, 0);
      GrantsSnoc(Marks(None, None), [], ordinary);
      GrantsSnoc(Marks(None, None), [ordinary], bypass);
      assert [] + [ordinary] == [ordinary] && [ordinary] + [bypass] == Burst(0);
    } else {
      BurstIsGranted(n - 1);
      GrantsSnoc(Marks(None, None), Burst(n - 1), Prompt(Bypass, n * BYPASS_MIN_INTERVAL));
    }
  }

  lemma WindowOfNone(a: Time, b: Time)
    ensures Window([], a, b) == []
  {}

  lemma WindowSnoc(prompts: seq<Prompt>, last: Prompt, a: Time, b: Time)
    ensures Window(prompts + [last], a, b) == Window(prompts, a, b) + if a <= last.at <= b then [last] else []
  {
    assert (prompts + [last])[..|prompts|] == prompts;
  }

  lemma {:induction false} WindowOfAll(prompts: seq<Prompt>, a: Time, b: Time)
    requires forall i :: 0 <= i < |prompts| ==> a <= prompts[i].at <= b
    ensures Window(prompts, a, b) == prompts
  {
    hide Window;
    if prompts == [] {
      WindowOfNone(a, b);
    } else {
      var init, last := prompts[..|prompts| - 1], prompts[|prompts| - 1];
      assert a <= last.at <= b && init + [last] == prompts;
      WindowOfAll(init, a, b);
      WindowSnoc(init, last, a, b);
    }
  }

  /** No smaller bound holds: for every multiple of half a second there is a schedule that meets it. */
  lemma BoundIsTight(n: nat)
    ensures Monotone(Burst(n))
    ensures |Window(Grants(Marks(None, None), Burst(n)).0, 0, n * BYPASS_MIN_INTERVAL)| == n + 2
  {
    BurstIsGranted(n);
    BurstTimes(n);
    WindowOfAll(Burst(n), 0, n * BYPASS_MIN_INTERVAL);
  }
}
