/**
 * production_harvester.py: the resumable "Show More" harvester. Its state is
 * a class whose methods update it in place; the browser is a scripted `Page`,
 * and the process environment (the clock, arriving signals, the two JSON
 * files) is a `Host`.
 */
module Production {
  import opened Options
  import opened Storage
  import opened Text
  import opened Links
  import opened Scripts
  import opened Browser
  import opened StringOrder
  import opened ProductionCheckpoint

  /** Attempts click_show_more makes before giving up on a raising driver. */
  const RetryAttempts: nat := 3
  /** Harvests in a row without a new link after which the main loop stops. */
  const MaxConsecutiveNoNew: int := 5
  /** Defaults of MAX_CLICKS and MAX_RUNTIME_HOURS when the environment sets neither. */
  const DefaultMaxClicks: int := 15627
  const DefaultMaxRuntimeHours: int := 12

  /**
   * check_runtime_limit: the elapsed time, in hours, exceeds the limit. The
   * source computes in floating point; this is the same comparison on reals.
   */
  function OverRuntime(elapsedMicros: nat, maxHours: int): (r: bool)
    ensures r <==> elapsedMicros > maxHours * 3600000000
  {
    var hours := (elapsedMicros as real) / 1000000.0 / 3600.0;
    assert hours * 3600000000.0 == elapsedMicros as real;
    hours > maxHours as real
  }

  /** How a call of click_show_more ends: whether the click went through, and attempts made. */
  datatype ClickOutcome = ClickOutcome(clicked: bool, tries: nat)

  /**
   * The retry loop of click_show_more on an attempt script, with `left`
   * attempts still allowed: a missing button ends it at once, a click ends it
   * successfully, a raising driver call costs one attempt.
   */
  function ClickRetry(script: seq<ClickAttempt>, left: nat): (r: ClickOutcome)
    ensures r.tries <= left
    ensures left > 0 ==> r.tries >= 1
    decreases left
  {
    if left == 0 then ClickOutcome(false, 0)
    else match Next(script, NoButton)
      case NoButton => ClickOutcome(false, 1)
      case Clicked => ClickOutcome(true, 1)
      case Raised =>
        var rest := ClickRetry(Drop(script), left - 1);
        ClickOutcome(rest.clicked, rest.tries + 1)
  }

  /** Each of the first `n` attempts of the script raised. */
  predicate RaisedFirst(script: seq<ClickAttempt>, n: nat) {
    forall j: nat :: j < n ==> At(script, j, NoButton) == Raised
  }

  lemma RaisedFirstCons(script: seq<ClickAttempt>, n: nat)
    requires Next(script, NoButton) == Raised && RaisedFirst(Drop(script), n)
    ensures RaisedFirst(script, n + 1)
  {
    forall j: nat | j < n + 1
      ensures At(script, j, NoButton) == Raised
    {
      AtDrop(script, if j == 0 then 0 else j - 1, NoButton);
    }
  }

  /**
   * The retry loop entry by entry: every attempt before the last raised; the
   * call succeeds exactly when the last attempt clicked; and it gives up after
   * a raise only once all attempts are spent.
   */
  lemma {:induction false} ClickRetryAttempts(script: seq<ClickAttempt>, left: nat)
    requires left > 0
    ensures var r := ClickRetry(script, left);
      && RaisedFirst(script, r.tries - 1)
      && (r.clicked <==> At(script, r.tries - 1, NoButton) == Clicked)
      && (At(script, r.tries - 1, NoButton) == Raised ==> r.tries == left)
    decreases left
  {
    AtDrop(script, 0, NoButton);
    var r := ClickRetry(script, left);
    if Next(script, NoButton) == Raised && left > 1 {
      var rest := ClickRetry(Drop(script), left - 1);
      ClickRetryAttempts(Drop(script), left - 1);
      assert r == ClickOutcome(rest.clicked, rest.tries + 1);
      RaisedFirstCons(script, rest.tries - 1);
      AtDrop(script, rest.tries - 1, NoButton);
      assert At(script, r.tries - 1, NoButton) == At(Drop(script), rest.tries - 1, NoButton);
    } else {
      assert r.tries == 1 && (r.clicked <==> Next(script, NoButton) == Clicked);
      assert At(script, r.tries - 1, NoButton) == Next(script, NoButton);
    }
  }

  /** With the button always clickable, click_show_more succeeds on the first attempt. */
  lemma FirstClickSucceeds(script: seq<ClickAttempt>)
    requires script != [] && script[0] == Clicked
    ensures ClickRetry(script, RetryAttempts) == ClickOutcome(true, 1)
  {
  }

  /** A driver that keeps raising exhausts all attempts and the call fails. */
  lemma PersistentErrorGivesUp(script: seq<ClickAttempt>)
    requires |script| >= RetryAttempts
    requires forall j :: 0 <= j < RetryAttempts ==> script[j] == Raised
    ensures ClickRetry(script, RetryAttempts) == ClickOutcome(false, RetryAttempts)
  {
    assert script[1..][0] == Raised && script[1..][1..][0] == Raised;
  }

  /** The main loop's stopping conditions and the two early exits of run. */
  datatype StopReason =
    | DriverFailed       // setup_driver returned False
    | PageLoadFailed     // load_page(START_URL) returned False
    | TargetReached      // clicks_performed reached MAX_CLICKS
    | ShutdownRequested  // a signal arrived
    | RuntimeExceeded    // MAX_RUNTIME_HOURS passed
    | NoNewLinks         // MAX_CONSECUTIVE_NO_NEW harvests found nothing new
    | ClickFailed        // click_show_more returned False

  /**
   * Why the main loop may stop, given what its checks saw, in the order it
   * makes them: the shutdown flag, then the runtime limit, then the run of
   * empty harvests, then the click. Each reason needs every check before it
   * to have passed.
   */
  predicate StoppedFor(reason: StopReason, shutdown: bool, overRuntime: bool, noNew: int, clicked: bool) {
    match reason
    case ShutdownRequested => shutdown
    case RuntimeExceeded => !shutdown && overRuntime
    case NoNewLinks => !shutdown && !overRuntime && noNew >= MaxConsecutiveNoNew
    case ClickFailed => !shutdown && !overRuntime && noNew < MaxConsecutiveNoNew && !clicked
    case _ => true
  }

  function Max(a: int, b: int): int {
    if a < b then b else a
  }

  /** One call of click_show_more on an attempt script. */
  function Call(script: seq<ClickAttempt>): ClickOutcome {
    ClickRetry(script, RetryAttempts)
  }

  /**
   * The fast-forward of run on an attempt script: up to `resume` calls of
   * click_show_more, stopping at the first that fails. The clicks skipped
   * and the attempts consumed.
   */
  function FastForwardBy(script: seq<ClickAttempt>, resume: int): (r: (nat, nat))
    ensures r.0 <= Max(resume, 0)
    decreases resume
  {
    if resume <= 0 then (0, 0)
    else
      var c := Call(script);
      if !c.clicked then (0, c.tries)
      else
        var more := FastForwardBy(DropN(script, c.tries), resume - 1);
        (more.0 + 1, c.tries + more.1)
  }

  /** The attempts that `k` calls of click_show_more consume from the script. */
  function Consumed(script: seq<ClickAttempt>, k: nat): nat {
    if k == 0 then 0
    else
      var t := Call(script).tries;
      t + Consumed(DropN(script, t), k - 1)
  }

  /** Where the script stands after `k + 1` calls, seen from the script after the first call. */
  lemma ConsumedStep(script: seq<ClickAttempt>, k: nat)
    ensures var t := Call(script).tries;
      DropN(script, Consumed(script, k + 1)) == DropN(DropN(script, t), Consumed(DropN(script, t), k))
  {
    var t := Call(script).tries;
    var rest := DropN(script, t);
    var c := Consumed(rest, k);
    assert Consumed(script, k + 1) == t + c;
    DropNDropN(script, t, c);
  }

  /** Each of the first `n` calls of click_show_more on the script succeeds. */
  predicate CallsSucceed(script: seq<ClickAttempt>, n: nat) {
    forall j: nat :: j < n ==> Call(DropN(script, Consumed(script, j))).clicked
  }

  /** A successful first call followed by `n` successful calls is `n + 1` successful calls. */
  lemma CallsSucceedStep(script: seq<ClickAttempt>, n: nat)
    requires Call(script).clicked
    requires CallsSucceed(DropN(script, Call(script).tries), n)
    ensures CallsSucceed(script, n + 1)
  {
    forall j: nat | j < n + 1
      ensures Call(DropN(script, Consumed(script, j))).clicked
    {
      if j > 0 {
        var rest := DropN(script, Call(script).tries);
        ConsumedStep(script, j - 1);
        assert Call(DropN(rest, Consumed(rest, j - 1))).clicked;
      }
    }
  }

  /** The fast-forward skips only successful calls of click_show_more. */
  lemma {:induction false} FastForwardSucceeds(script: seq<ClickAttempt>, resume: int)
    ensures CallsSucceed(script, FastForwardBy(script, resume).0)
    decreases resume
  {
    if resume > 0 {
      var c := Call(script);
      var rest := DropN(script, c.tries);
      if c.clicked {
        FastForwardSucceeds(rest, resume - 1);
        CallsSucceedStep(script, FastForwardBy(rest, resume - 1).0);
      }
    }
  }

  /** A fast-forward that makes all `resume` clicks consumes the attempts of exactly that many calls. */
  lemma {:induction false} FastForwardCompletes(script: seq<ClickAttempt>, resume: int)
    ensures var r := FastForwardBy(script, resume);
      r.0 >= resume ==> r.1 == Consumed(script, r.0)
    decreases resume
  {
    if resume > 0 {
      var c := Call(script);
      var rest := DropN(script, c.tries);
      if c.clicked {
        var more := FastForwardBy(rest, resume - 1);
        FastForwardCompletes(rest, resume - 1);
        if more.0 >= resume - 1 {
          assert Consumed(script, more.0 + 1) == c.tries + Consumed(rest, more.0);
        }
      }
    }
  }

  /**
   * After `n` successful calls of click_show_more, the next call fails, and
   * `total` attempts are consumed by then.
   */
  predicate StopsAfter(script: seq<ClickAttempt>, n: nat, total: nat) {
    var k := Consumed(script, n);
    var c := Call(DropN(script, k));
    !c.clicked && total == k + c.tries
  }

  /** Stopping after `n` more calls once the first call succeeded is stopping after `n + 1` calls. */
  lemma StopsAfterStep(script: seq<ClickAttempt>, n: nat, total: nat)
    requires Call(script).clicked
    requires StopsAfter(DropN(script, Call(script).tries), n, total)
    ensures StopsAfter(script, n + 1, Call(script).tries + total)
  {
    ConsumedStep(script, n);
  }

  /**
   * A fast-forward that makes fewer than `resume` clicks ends just after the
   * call that failed, the one after the calls it skipped.
   */
  lemma {:induction false} FastForwardStopsAtFailure(script: seq<ClickAttempt>, resume: int)
    ensures var r := FastForwardBy(script, resume);
      r.0 < resume ==> StopsAfter(script, r.0, r.1)
    decreases resume
  {
    if resume > 0 {
      var c := Call(script);
      var rest := DropN(script, c.tries);
      if c.clicked {
        var more := FastForwardBy(rest, resume - 1);
        FastForwardStopsAtFailure(rest, resume - 1);
        if more.0 < resume - 1 {
          StopsAfterStep(script, more.0, more.1);
        }
      }
    }
  }

  /** What the main loop of run reads and changes: the harvester's state and the scripts it consumes. */
  datatype LoopState = LoopState(
    clicks: int, links: set<string>, noNew: int, shutdown: bool,
    signals: seq<bool>, clock: seq<nat>, attempts: seq<ClickAttempt>, anchors: seq<Option<seq<string>>>)

  /**
   * harvest_property_links on the state: one read of the anchors; a read that
   * raises changes nothing else, otherwise the page's links are added and the
   * run of empty harvests grows or resets.
   */
  function Harvest(s: LoopState): LoopState {
    var read := Next(s.anchors, Some([]));
    var t := s.(anchors := Drop(s.anchors));
    if read.None? then t
    else
      var found := PageLinks(AnyHref, read.value);
      t.(links := s.links + found, noNew := if |found - s.links| == 0 then s.noNew + 1 else 0)
  }

  /** How the main loop ends: why, in what state, and what its last runtime check and last click saw. */
  datatype LoopEnd = LoopEnd(reason: StopReason, state: LoopState, lastReading: nat, lastClicked: bool)

  /** The flag check of the main loop: a signal that arrived since the last check sets the flag. */
  function Polled(s: LoopState): LoopState {
    s.(shutdown := s.shutdown || Next(s.signals, false), signals := Drop(s.signals))
  }

  /** The runtime check consumes one clock reading. */
  function Ticked(s: LoopState): LoopState {
    s.(clock := Drop(s.clock))
  }

  /** A call of click_show_more: its attempts are consumed, and a click that went through counts. */
  function Clicking(s: LoopState, c: ClickOutcome): LoopState {
    s.(attempts := DropN(s.attempts, c.tries), clicks := if c.clicked then s.clicks + 1 else s.clicks)
  }

  /** The state a full round of the main loop leaves: both checks, a call of click_show_more, a harvest. */
  function NextRound(s: LoopState): LoopState {
    var t := Ticked(Polled(s));
    Harvest(Clicking(t, ClickRetry(t.attempts, RetryAttempts)))
  }

  /** A round of the main loop from `s` passes every check and its click goes through. */
  predicate Proceeds(s: LoopState, maxClicks: int, maxHours: int) {
    && s.clicks < maxClicks
    && !Polled(s).shutdown
    && !OverRuntime(Next(s.clock, 0), maxHours)
    && s.noNew < MaxConsecutiveNoNew
    && ClickRetry(s.attempts, RetryAttempts).clicked
  }

  /**
   * The main loop of run on the state and its scripts: while fewer than
   * `maxClicks` clicks are made, poll for a signal, read the clock, look at
   * the run of empty harvests, call click_show_more, and harvest.
   */
  function MainLoop(s: LoopState, maxClicks: int, maxHours: int): (r: LoopEnd)
    decreases maxClicks - s.clicks
  {
    if s.clicks >= maxClicks then LoopEnd(TargetReached, s, 0, true)
    else if Polled(s).shutdown then LoopEnd(ShutdownRequested, Polled(s), 0, true)
    else
      var t := Ticked(Polled(s));
      var reading := Next(s.clock, 0);
      if OverRuntime(reading, maxHours) then LoopEnd(RuntimeExceeded, t, reading, true)
      else if s.noNew >= MaxConsecutiveNoNew then LoopEnd(NoNewLinks, t, reading, true)
      else
        var c := ClickRetry(s.attempts, RetryAttempts);
        if !c.clicked then LoopEnd(ClickFailed, Clicking(t, c), reading, false)
        else MainLoop(NextRound(s), maxClicks, maxHours)
  }

  /**
   * The main loop stops for one of its five reasons, the first check that
   * fires in the code's order: the target exactly when the count reaches
   * maxClicks, which it never overshoots; otherwise the shutdown flag, the
   * runtime limit on the last reading, the run of empty harvests, and the
   * last click.
   */
  lemma {:induction false} MainLoopStops(s: LoopState, maxClicks: int, maxHours: int)
    ensures var r := MainLoop(s, maxClicks, maxHours);
      && r.reason in {TargetReached, ShutdownRequested, RuntimeExceeded, NoNewLinks, ClickFailed}
      && (r.reason == TargetReached <==> r.state.clicks >= maxClicks)
      && s.clicks <= r.state.clicks
      && (s.clicks < r.state.clicks ==> r.state.clicks <= maxClicks)
      && StoppedFor(r.reason, r.state.shutdown, OverRuntime(r.lastReading, maxHours), r.state.noNew, r.lastClicked)
    decreases maxClicks - s.clicks
  {
    if Proceeds(s, maxClicks, maxHours) {
      MainLoopStops(NextRound(s), maxClicks, maxHours);
    }
  }

  /** One more round of the main loop: every check passed and the click went through. */
  lemma MainLoopContinues(s: LoopState, maxClicks: int, maxHours: int)
    requires Proceeds(s, maxClicks, maxHours)
    ensures MainLoop(s, maxClicks, maxHours) == MainLoop(NextRound(s), maxClicks, maxHours)
  {
  }

  /** A harvest only adds links, and only canonical ones. */
  lemma HarvestGrows(s: LoopState)
    ensures s.links <= Harvest(s).links
    ensures forall u :: u in Harvest(s).links - s.links ==> IsCanonical(u)
  {
  }

  /**
   * Harvesting the same hrefs twice finds nothing new the second time: the
   * links stay as they are, the second count is 0 and the run of empty
   * harvests grows by one.
   */
  lemma HarvestTwice(s: LoopState, hrefs: seq<string>)
    requires Next(s.anchors, Some([])) == Some(hrefs) && Next(Drop(s.anchors), Some([])) == Some(hrefs)
    ensures var t := Harvest(s);
      && |PageLinks(AnyHref, hrefs) - t.links| == 0
      && Harvest(t).links == t.links
      && Harvest(t).noNew == t.noNew + 1
  {
  }

  /** A state that harvest_property_links left, described field by field, is Harvest's. */
  lemma HarvestOfView(s: LoopState, t: LoopState)
    requires var read := Next(s.anchors, Some([]));
      && t.anchors == Drop(s.anchors)
      && t.clicks == s.clicks && t.shutdown == s.shutdown && t.signals == s.signals
      && t.clock == s.clock && t.attempts == s.attempts
      && (read.None? ==> t.links == s.links && t.noNew == s.noNew)
      && (read.Some? ==>
            && t.links == s.links + PageLinks(AnyHref, read.value)
            && t.noNew == if |PageLinks(AnyHref, read.value) - s.links| == 0 then s.noNew + 1 else 0)
    ensures t == Harvest(s)
  {
  }

  /** The main loop's links only grow, and only by canonical links. */
  lemma {:induction false} MainLoopLinks(s: LoopState, maxClicks: int, maxHours: int)
    ensures s.links <= MainLoop(s, maxClicks, maxHours).state.links
    ensures forall u :: u in MainLoop(s, maxClicks, maxHours).state.links - s.links ==> IsCanonical(u)
    decreases maxClicks - s.clicks
  {
    if Proceeds(s, maxClicks, maxHours) {
      var t := Ticked(Polled(s));
      HarvestGrows(Clicking(t, ClickRetry(t.attempts, RetryAttempts)));
      MainLoopLinks(NextRound(s), maxClicks, maxHours);
    }
  }

  /**
   * Having skipped `skipped` clicks and consumed `consumed` attempts, with
   * `left` calls still to go on `script`, the fast-forward still ends at `target`.
   */
  predicate OnTrack(target: (nat, nat), skipped: nat, consumed: nat, script: seq<ClickAttempt>, left: int) {
    target.0 == skipped + FastForwardBy(script, left).0 && target.1 == consumed + FastForwardBy(script, left).1
  }

  /** With no calls left, the fast-forward has reached its target. */
  lemma OnTrackDone(target: (nat, nat), skipped: nat, consumed: nat, script: seq<ClickAttempt>, left: int)
    requires left <= 0 && OnTrack(target, skipped, consumed, script, left)
    ensures target == (skipped, consumed)
  {
  }

  /**
   * One call of the fast-forward from `before`, `consumed` attempts into
   * `start`: the script moves on by the call's attempts; a failed click ends
   * it, a successful one leaves one fewer to make.
   */
  lemma FastForwardStep(target: (nat, nat), start: seq<ClickAttempt>, skipped: nat, consumed: nat,
                        before: seq<ClickAttempt>, left: int, ok: bool, after: seq<ClickAttempt>)
    requires left > 0 && before == DropN(start, consumed)
    requires OnTrack(target, skipped, consumed, before, left)
    requires ok == Call(before).clicked && after == DropN(before, Call(before).tries)
    ensures after == DropN(start, consumed + Call(before).tries)
    ensures ok ==> OnTrack(target, skipped + 1, consumed + Call(before).tries, after, left - 1)
    ensures !ok ==> target == (skipped, consumed + Call(before).tries)
  {
    DropNDropN(start, consumed, Call(before).tries);
  }

  /** The state with its checkpointed part replaced by `p`, as load_progress leaves it. */
  function WithProgress(s: LoopState, p: Progress): LoopState {
    s.(clicks := p.clicks, links := p.links, noNew := p.noNew)
  }

  /** Where the main loop of run starts: after the fast-forward past the resumed clicks and one harvest. */
  lemma SessionStartOf(s: LoopState, mid: LoopState, t: LoopState)
    requires var ff := FastForwardBy(s.attempts, s.clicks);
      mid == s.(clicks := s.clicks + ff.0, attempts := DropN(s.attempts, ff.1))
    requires t == Harvest(mid)
    ensures t == SessionStart(s)
  {
  }

  function SessionStart(s: LoopState): LoopState {
    var ff := FastForwardBy(s.attempts, s.clicks);
    Harvest(s.(clicks := s.clicks + ff.0, attempts := DropN(s.attempts, ff.1)))
  }

  /** The process environment: the clock, signals, and the checkpoint and output files. */
  class Host {
    /** Elapsed microseconds since the harvester was made, at each coming clock read. */
    var clock: seq<nat>
    /** Whether SIGINT or SIGTERM has arrived, at each coming check of the flag. */
    var signals: seq<bool>
    var progressFile: Stored<Checkpoint>
    var outputFile: Option<Output>
    /** Whether writes to the two files succeed; a failed write is logged and ignored. */
    const writable: bool
    ghost var progressSaves: nat
    ghost var outputSaves: nat

    constructor (clock: seq<nat>, signals: seq<bool>, progressFile: Stored<Checkpoint>, outputFile: Option<Output>, writable: bool)
      ensures this.clock == clock && this.signals == signals
      ensures this.progressFile == progressFile && this.outputFile == outputFile
      ensures this.writable == writable && progressSaves == 0 && outputSaves == 0
    {
      this.clock := clock;
      this.signals := signals;
      this.progressFile := progressFile;
      this.outputFile := outputFile;
      this.writable := writable;
      progressSaves, outputSaves := 0, 0;
    }

    method ReadClock() returns (elapsedMicros: nat)
      modifies this`clock
      ensures elapsedMicros == Next(old(clock), 0) && clock == Drop(old(clock))
    {
      elapsedMicros := Next(clock, 0);
      clock := Drop(clock);
    }

    method PollSignal() returns (arrived: bool)
      modifies this`signals
      ensures arrived == Next(old(signals), false) && signals == Drop(old(signals))
    {
      arrived := Next(signals, false);
      signals := Drop(signals);
    }
  }

  class ProductionHarvester {
    const maxClicks: int
    const maxRuntimeHours: int
    var propertyLinks: set<string>
    var clicksPerformed: int
    var consecutiveNoNew: int
    var shutdownRequested: bool

    /** The part of the state the checkpoint file keeps. */
    function Snapshot(): Progress
      reads this
    {
      Progress(clicksPerformed, propertyLinks, consecutiveNoNew)
    }

    /** The state the main loop works on, with the scripts of the page and the host. */
    ghost function LoopView(page: Page, host: Host): LoopState
      reads this`clicksPerformed, this`propertyLinks, this`consecutiveNoNew, this`shutdownRequested
      reads host`signals, host`clock, page`attempts, page`anchors
    {
      LoopState(clicksPerformed, propertyLinks, consecutiveNoNew, shutdownRequested,
                host.signals, host.clock, page.attempts, page.anchors)
    }

    constructor (maxClicks: int, maxRuntimeHours: int)
      ensures this.maxClicks == maxClicks && this.maxRuntimeHours == maxRuntimeHours
      ensures Snapshot() == Progress(0, {}, 0) && !shutdownRequested
    {
      this.maxClicks := maxClicks;
      this.maxRuntimeHours := maxRuntimeHours;
      propertyLinks := {};
      clicksPerformed := 0;
      consecutiveNoNew := 0;
      shutdownRequested := false;
    }

    method SignalHandler()
      modifies this`shutdownRequested
      ensures shutdownRequested
    {
      shutdownRequested := true;
    }

    method CheckRuntimeLimit(host: Host) returns (exceeded: bool)
      modifies host`clock
      ensures exceeded == OverRuntime(Next(old(host.clock), 0), maxRuntimeHours)
      ensures host.clock == Drop(old(host.clock))
    {
      var elapsed := host.ReadClock();
      exceeded := OverRuntime(elapsed, maxRuntimeHours);
    }

    method LoadProgress(host: Host)
      modifies this`clicksPerformed, this`propertyLinks, this`consecutiveNoNew
      ensures Snapshot() == Restore(host.progressFile, old(Snapshot()))
    {
      match host.progressFile
      case Present(c) =>
        clicksPerformed := c.clicksPerformed.GetOr(0);
        propertyLinks := Elements(c.propertyLinks.GetOr([]));
        consecutiveNoNew := c.consecutiveNoNew.GetOr(0);
      case _ =>
    }

    method SaveProgress(host: Host)
      modifies host`progressFile, host`progressSaves
      ensures host.progressFile == if host.writable then Present(CheckpointOf(Snapshot())) else old(host.progressFile)
      ensures host.progressSaves == old(host.progressSaves) + 1
    {
      if host.writable {
        host.progressFile := Present(CheckpointOf(Snapshot()));
      }
      host.progressSaves := host.progressSaves + 1;
    }

    method SaveOutput(host: Host)
      modifies host`outputFile, host`outputSaves
      ensures host.outputFile == if host.writable then Some(OutputOf(Snapshot())) else old(host.outputFile)
      ensures host.outputSaves == old(host.outputSaves) + 1
    {
      if host.writable {
        host.outputFile := Some(OutputOf(Snapshot()));
      }
      host.outputSaves := host.outputSaves + 1;
    }

    /** click_show_more: up to RetryAttempts attempts; a click that goes through counts. */
    method ClickShowMore(page: Page) returns (ok: bool)
      modifies this`clicksPerformed, page
      ensures ok == Call(old(page.attempts)).clicked
      ensures page.attempts == DropN(old(page.attempts), Call(old(page.attempts)).tries)
      ensures clicksPerformed == old(clicksPerformed) + (if ok then 1 else 0)
      ensures page.position == old(page.position) + (if ok then 1 else 0)
      ensures page.anchors == old(page.anchors)
    {
      ghost var script := page.attempts;
      var attempt: nat := 0;
      while attempt < RetryAttempts
        invariant attempt <= RetryAttempts
        invariant page.attempts == DropN(script, attempt)
        invariant var rest := ClickRetry(page.attempts, RetryAttempts - attempt);
          ClickRetry(script, RetryAttempts) == ClickOutcome(rest.clicked, rest.tries + attempt)
        invariant clicksPerformed == old(clicksPerformed) && page.position == old(page.position)
        invariant page.anchors == old(page.anchors)
      {
        DropDropN(script, attempt);
        var a := page.TryClick();
        if a == NoButton {
          return false;
        } else if a == Clicked {
          clicksPerformed := clicksPerformed + 1;
          return true;
        }
        if attempt == RetryAttempts - 1 {
          return false;
        }
        attempt := attempt + 1;
      }
      return false;
    }

    /** The loop of harvest_property_links over the hrefs read from the page. */
    method AddLinks(hrefs: seq<string>)
      modifies this`propertyLinks
      ensures propertyLinks == old(propertyLinks) + PageLinks(AnyHref, hrefs)
    {
      for i := 0 to |hrefs|
        invariant propertyLinks == old(propertyLinks) + PageLinks(AnyHref, hrefs[..i])
      {
        PageLinksSnoc(AnyHref, hrefs, i);
        var link := CanonicalizeBy(AnyHref, hrefs[i]);
        if link.Some? {
          propertyLinks := propertyLinks + {link.value};
        }
      }
      assert hrefs[..|hrefs|] == hrefs;
    }

    /**
     * harvest_property_links: add the canonical link of every qualifying href
     * on the page, count the links that are new, and keep the run of harvests
     * that found none. A read that raises changes nothing and counts as 0.
     */
    method HarvestPropertyLinks(page: Page) returns (newCount: int)
      modifies this`propertyLinks, this`consecutiveNoNew, page
      ensures var read := Next(old(page.anchors), Some([]));
        && (read.None? ==> newCount == 0 && propertyLinks == old(propertyLinks) && consecutiveNoNew == old(consecutiveNoNew))
        && (read.Some? ==>
              && propertyLinks == old(propertyLinks) + PageLinks(AnyHref, read.value)
              && newCount == |PageLinks(AnyHref, read.value) - old(propertyLinks)|
              && consecutiveNoNew == if newCount == 0 then old(consecutiveNoNew) + 1 else 0)
      ensures newCount == |propertyLinks| - |old(propertyLinks)|
      ensures page.anchors == Drop(old(page.anchors))
      ensures page.attempts == old(page.attempts) && page.position == old(page.position)
    {
      var read := page.ReadHrefs();
      if read.None? {
        return 0;
      }
      var beforeCount := |propertyLinks|;
      AddLinks(read.value);
      GrowthCountsNew(old(propertyLinks), PageLinks(AnyHref, read.value));
      newCount := |propertyLinks| - beforeCount;
      if newCount == 0 {
        consecutiveNoNew := consecutiveNoNew + 1;
      } else {
        consecutiveNoNew := 0;
      }
    }

    /**
     * The fast-forward of run: up to `resume` clicks without harvesting,
     * stopping at the first click that fails.
     */
    method FastForward(page: Page, resume: int) returns (skipped: nat)
      modifies this`clicksPerformed, page
      ensures skipped == FastForwardBy(old(page.attempts), resume).0
      ensures page.attempts == DropN(old(page.attempts), FastForwardBy(old(page.attempts), resume).1)
      ensures skipped <= Max(resume, 0)
      ensures clicksPerformed == old(clicksPerformed) + skipped
      ensures page.position == old(page.position) + skipped
      ensures page.anchors == old(page.anchors)
    {
      ghost var target := FastForwardBy(page.attempts, resume);
      ghost var left := resume;
      ghost var consumed: nat := 0;
      skipped := 0;
      while skipped < resume
        invariant left == resume - skipped && (skipped == 0 || left >= 0)
        invariant page.attempts == DropN(old(page.attempts), consumed)
        invariant OnTrack(target, skipped, consumed, page.attempts, left)
        invariant clicksPerformed == old(clicksPerformed) + skipped
        invariant page.position == old(page.position) + skipped
        invariant page.anchors == old(page.anchors)
        modifies this`clicksPerformed, page
      {
        ghost var tries;
        var ok;
        ok, tries := SkipOnce(page, target, old(page.attempts), skipped, consumed, left);
        consumed := consumed + tries;
        if !ok {
          break;
        }
        skipped, left := skipped + 1, left - 1;
      }
      if left <= 0 {
        OnTrackDone(target, skipped, consumed, page.attempts, left);
      }
    }

    /**
     * One pass of the fast-forward loop: a call of click_show_more, `consumed`
     * attempts into `start`, and where it leaves the fast-forward to `target`.
     */
    method SkipOnce(page: Page, ghost target: (nat, nat), ghost start: seq<ClickAttempt>,
                    ghost skipped: nat, ghost consumed: nat, ghost left: int) returns (ok: bool, ghost tries: nat)
      requires left > 0 && page.attempts == DropN(start, consumed)
      requires OnTrack(target, skipped, consumed, page.attempts, left)
      modifies this`clicksPerformed, page
      ensures page.attempts == DropN(start, consumed + tries)
      ensures ok ==> OnTrack(target, skipped + 1, consumed + tries, page.attempts, left - 1)
      ensures !ok ==> target == (skipped, consumed + tries)
      ensures clicksPerformed == old(clicksPerformed) + (if ok then 1 else 0)
      ensures page.position == old(page.position) + (if ok then 1 else 0)
      ensures page.anchors == old(page.anchors)
    {
      ghost var before := page.attempts;
      ok := ClickShowMore(page);
      tries := Call(before).tries;
      FastForwardStep(target, start, skipped, consumed, before, left, ok, page.attempts);
    }

    /** The second half of the main loop's body: click; once it took effect, harvest and save both files. */
    method ClickAndRecord(page: Page, host: Host) returns (ok: bool)
      modifies this`clicksPerformed, this`propertyLinks, this`consecutiveNoNew, page
      modifies host`progressFile, host`progressSaves, host`outputFile, host`outputSaves
      ensures var r := ClickRetry(old(page.attempts), RetryAttempts);
        && ok == r.clicked
        && LoopView(page, host) == if ok then Harvest(Clicking(old(LoopView(page, host)), r)) else Clicking(old(LoopView(page, host)), r)
      ensures clicksPerformed == old(clicksPerformed) + (if ok then 1 else 0)
      ensures page.position == old(page.position) + (if ok then 1 else 0)
      ensures !ok ==> && propertyLinks == old(propertyLinks) && consecutiveNoNew == old(consecutiveNoNew)
                      && page.anchors == old(page.anchors)
      ensures ok ==> var read := Next(old(page.anchors), Some([]));
        && (read.None? ==> propertyLinks == old(propertyLinks))
        && (read.Some? ==> propertyLinks == old(propertyLinks) + PageLinks(AnyHref, read.value))
        && page.anchors == Drop(old(page.anchors))
      ensures old(propertyLinks) <= propertyLinks
      ensures forall u :: u in propertyLinks - old(propertyLinks) ==> IsCanonical(u)
      ensures host.progressSaves == old(host.progressSaves) + (if ok then 1 else 0)
      ensures host.outputSaves == old(host.outputSaves) + (if ok then 1 else 0)
      ensures !host.writable || !ok ==> host.progressFile == old(host.progressFile) && host.outputFile == old(host.outputFile)
      ensures host.writable && ok ==>
        host.progressFile == Present(CheckpointOf(Snapshot())) && host.outputFile == Some(OutputOf(Snapshot()))
    {
      ghost var s := Clicking(LoopView(page, host), ClickRetry(page.attempts, RetryAttempts));
      ok := ClickShowMore(page);
      if ok {
        ghost var s1 := LoopView(page, host);
        assert s1 == s;
        var _ := HarvestPropertyLinks(page);
        HarvestOfView(s1, LoopView(page, host));
        HarvestGrows(s1);
        SaveProgress(host);
        SaveOutput(host);
      } else {
        assert LoopView(page, host) == s;
      }
    }

    /**
     * One round of the main loop: check for a signal, the runtime limit and
     * the run of empty harvests, then click and record. `stop` is the reason
     * the loop ends in this round, or None when it goes on as NextRound says.
     */
    method Round(page: Page, host: Host) returns (stop: Option<StopReason>)
      requires clicksPerformed < maxClicks
      modifies this`clicksPerformed, this`propertyLinks, this`consecutiveNoNew, this`shutdownRequested, page, host
      ensures var s := old(LoopView(page, host));
        && (stop.None? ==> Proceeds(s, maxClicks, maxRuntimeHours) && LoopView(page, host) == NextRound(s))
        && (stop.Some? ==> && stop.value == MainLoop(s, maxClicks, maxRuntimeHours).reason
                           && LoopView(page, host) == MainLoop(s, maxClicks, maxRuntimeHours).state)
      ensures clicksPerformed == old(clicksPerformed) + (if stop.None? then 1 else 0)
      ensures page.position == old(page.position) + (if stop.None? then 1 else 0)
      ensures host.progressSaves == old(host.progressSaves) + (if stop.None? then 1 else 0)
      ensures host.outputSaves == old(host.outputSaves) + (if stop.None? then 1 else 0)
      ensures !host.writable ==> host.progressFile == old(host.progressFile) && host.outputFile == old(host.outputFile)
    {
      ghost var s := LoopView(page, host);
      var arrived := host.PollSignal();
      if arrived {
        SignalHandler();
      }
      assert LoopView(page, host) == Polled(s);
      if shutdownRequested {
        return Some(ShutdownRequested);
      }
      var over := CheckRuntimeLimit(host);
      assert LoopView(page, host) == Ticked(Polled(s));
      if over {
        return Some(RuntimeExceeded);
      }
      if consecutiveNoNew >= MaxConsecutiveNoNew {
        return Some(NoNewLinks);
      }
      var ok := ClickAndRecord(page, host);
      if !ok {
        return Some(ClickFailed);
      }
      stop := None;
    }

    /**
     * The main loop of run: while fewer than maxClicks clicks are made, check
     * for a signal, the runtime limit and the run of empty harvests, then
     * click, harvest and save both files. It ends as MainLoop says.
     */
    method ClickLoop(page: Page, host: Host) returns (reason: StopReason, ghost clicked: nat)
      modifies this`clicksPerformed, this`propertyLinks, this`consecutiveNoNew, this`shutdownRequested, page, host
      ensures var r := MainLoop(old(LoopView(page, host)), maxClicks, maxRuntimeHours);
        reason == r.reason && LoopView(page, host) == r.state
      ensures clicksPerformed == old(clicksPerformed) + clicked
      ensures reason in {TargetReached, ShutdownRequested, RuntimeExceeded, NoNewLinks, ClickFailed}
      ensures reason == TargetReached <==> clicksPerformed >= maxClicks
      ensures clicked > 0 ==> clicksPerformed <= maxClicks
      ensures var r := MainLoop(old(LoopView(page, host)), maxClicks, maxRuntimeHours);
        StoppedFor(reason, shutdownRequested, OverRuntime(r.lastReading, maxRuntimeHours), consecutiveNoNew, r.lastClicked)
      ensures page.position == old(page.position) + clicked
      ensures old(propertyLinks) <= propertyLinks
      ensures forall u :: u in propertyLinks - old(propertyLinks) ==> IsCanonical(u)
      ensures host.progressSaves == old(host.progressSaves) + clicked
      ensures host.outputSaves == old(host.outputSaves) + clicked
      ensures !host.writable ==> host.progressFile == old(host.progressFile) && host.outputFile == old(host.outputFile)
    {
      reason, clicked := TargetReached, 0;
      ghost var start := LoopView(page, host);
      MainLoopStops(start, maxClicks, maxRuntimeHours);
      MainLoopLinks(start, maxClicks, maxRuntimeHours);
      while clicksPerformed < maxClicks
        invariant MainLoop(LoopView(page, host), maxClicks, maxRuntimeHours) == MainLoop(start, maxClicks, maxRuntimeHours)
        invariant clicksPerformed == old(clicksPerformed) + clicked
        invariant page.position == old(page.position) + clicked
        invariant host.progressSaves == old(host.progressSaves) + clicked
        invariant host.outputSaves == old(host.outputSaves) + clicked
        invariant !host.writable ==> host.progressFile == old(host.progressFile) && host.outputFile == old(host.outputFile)
        decreases maxClicks - clicksPerformed
      {
        ghost var s := LoopView(page, host);
        var stop := Round(page, host);
        if stop.Some? {
          return stop.value, clicked;
        }
        clicked := clicked + 1;
        MainLoopContinues(s, maxClicks, maxRuntimeHours);
      }
    }

    /** The opening of a session: fast-forward past the clicks already made, harvest once and save both files. */
    method OpenSession(page: Page, host: Host) returns (ghost skipped: nat)
      modifies this`clicksPerformed, this`propertyLinks, this`consecutiveNoNew, page
      modifies host`progressFile, host`progressSaves, host`outputFile, host`outputSaves
      ensures skipped == FastForwardBy(old(page.attempts), old(clicksPerformed)).0
      ensures LoopView(page, host) == SessionStart(old(LoopView(page, host)))
      ensures clicksPerformed == old(clicksPerformed) + skipped
      ensures skipped <= Max(old(clicksPerformed), 0)
      ensures page.position == old(page.position) + skipped
      ensures old(propertyLinks) <= propertyLinks
      ensures forall u :: u in propertyLinks - old(propertyLinks) ==> IsCanonical(u)
      ensures host.progressSaves == old(host.progressSaves) + 1
      ensures host.outputSaves == old(host.outputSaves) + 1
      ensures !host.writable ==> host.progressFile == old(host.progressFile) && host.outputFile == old(host.outputFile)
    {
      ghost var s := LoopView(page, host);
      skipped := FastForward(page, clicksPerformed);
      ghost var mid := LoopView(page, host);
      assert mid == s.(clicks := s.clicks + skipped, attempts := page.attempts);
      var _ := HarvestPropertyLinks(page);
      HarvestOfView(mid, LoopView(page, host));
      HarvestGrows(mid);
      SessionStartOf(s, mid, LoopView(page, host));
      ghost var t := LoopView(page, host);
      SaveProgress(host);
      assert LoopView(page, host) == t;
      SaveOutput(host);
      assert LoopView(page, host) == t;
    }

    /**
     * The body of run once the driver and the page are ready: fast-forward
     * past the clicks already made, harvest and save, run the main loop and
     * harvest once more. `loopEnd` is how the main loop ended.
     */
    method Session(page: Page, host: Host)
      returns (reason: StopReason, ghost skipped: nat, ghost clicked: nat, ghost loopEnd: LoopEnd)
      modifies this`clicksPerformed, this`propertyLinks, this`consecutiveNoNew, this`shutdownRequested, page, host
      ensures skipped == FastForwardBy(old(page.attempts), old(clicksPerformed)).0
      ensures loopEnd == MainLoop(SessionStart(old(LoopView(page, host))), maxClicks, maxRuntimeHours)
      ensures reason == loopEnd.reason && LoopView(page, host) == Harvest(loopEnd.state)
      ensures clicksPerformed == old(clicksPerformed) + skipped + clicked
      ensures skipped <= Max(old(clicksPerformed), 0)
      ensures reason in {TargetReached, ShutdownRequested, RuntimeExceeded, NoNewLinks, ClickFailed}
      ensures reason == TargetReached <==> clicksPerformed >= maxClicks
      ensures clicked > 0 ==> clicksPerformed <= maxClicks
      ensures StoppedFor(reason, loopEnd.state.shutdown, OverRuntime(loopEnd.lastReading, maxRuntimeHours),
                         loopEnd.state.noNew, loopEnd.lastClicked)
      ensures page.position == old(page.position) + skipped + clicked
      ensures old(propertyLinks) <= propertyLinks
      ensures forall u :: u in propertyLinks - old(propertyLinks) ==> IsCanonical(u)
      ensures host.progressSaves == old(host.progressSaves) + 1 + clicked
      ensures host.outputSaves == old(host.outputSaves) + 1 + clicked
      ensures !host.writable ==> host.progressFile == old(host.progressFile) && host.outputFile == old(host.outputFile)
    {
      skipped := OpenSession(page, host);
      ghost var links1 := propertyLinks;
      reason, clicked := ClickLoop(page, host);
      loopEnd := MainLoop(SessionStart(old(LoopView(page, host))), maxClicks, maxRuntimeHours);
      ghost var s := LoopView(page, host);
      var _ := HarvestPropertyLinks(page);
      HarvestOfView(s, LoopView(page, host));
      HarvestGrows(s);
      assert old(propertyLinks) <= links1 <= s.links <= propertyLinks;
    }

    /**
     * The try block of run and its finally, from the state load_progress
     * left: the early exits for the driver and the page, or the session;
     * whatever happens, both files are saved before returning.
     */
    method RunLoaded(page: Page, host: Host, driverReady: bool, pageLoaded: bool)
      returns (reason: StopReason, ghost skipped: nat, ghost clicked: nat, ghost loopEnd: LoopEnd)
      modifies this`clicksPerformed, this`propertyLinks, this`consecutiveNoNew, this`shutdownRequested, page, host
      ensures reason == DriverFailed <==> !driverReady
      ensures reason == PageLoadFailed <==> driverReady && !pageLoaded
      ensures reason == DriverFailed || reason == PageLoadFailed ==>
        && LoopView(page, host) == old(LoopView(page, host)) && skipped == 0 && clicked == 0
        && host.progressSaves == old(host.progressSaves) + 1
        && host.outputSaves == old(host.outputSaves) + 1
      ensures reason != DriverFailed && reason != PageLoadFailed ==>
        && skipped == FastForwardBy(old(page.attempts), old(clicksPerformed)).0
        && loopEnd == MainLoop(SessionStart(old(LoopView(page, host))), maxClicks, maxRuntimeHours)
        && reason == loopEnd.reason && LoopView(page, host) == Harvest(loopEnd.state)
        && host.progressSaves == old(host.progressSaves) + 2 + clicked
        && host.outputSaves == old(host.outputSaves) + 2 + clicked
      ensures old(propertyLinks) <= propertyLinks
      ensures forall u :: u in propertyLinks - old(propertyLinks) ==> IsCanonical(u)
      ensures clicksPerformed == old(clicksPerformed) + skipped + clicked
      ensures skipped <= Max(old(clicksPerformed), 0)
      ensures reason in {ShutdownRequested, RuntimeExceeded, NoNewLinks, ClickFailed} ==> clicksPerformed < maxClicks
      ensures reason == TargetReached ==> clicksPerformed >= maxClicks
      ensures StoppedFor(reason, loopEnd.state.shutdown, OverRuntime(loopEnd.lastReading, maxRuntimeHours),
                         loopEnd.state.noNew, loopEnd.lastClicked)
      ensures clicksPerformed <= Max(maxClicks, old(clicksPerformed) + skipped)
      ensures page.position == old(page.position) + skipped + clicked
      ensures host.progressFile == if host.writable then Present(CheckpointOf(Snapshot())) else old(host.progressFile)
      ensures host.outputFile == if host.writable then Some(OutputOf(Snapshot())) else old(host.outputFile)
    {
      skipped, clicked := 0, 0;
      loopEnd := LoopEnd(TargetReached, LoopView(page, host), 0, true);
      if !driverReady {
        reason := DriverFailed;
      } else if !pageLoaded {
        reason := PageLoadFailed;
      } else {
        reason, skipped, clicked, loopEnd := Session(page, host);
      }
      SaveProgress(host);
      SaveOutput(host);
    }

    /**
     * run: resume from the checkpoint, then the try block and its finally.
     * `driverReady` and `pageLoaded` are what setup_driver and load_page
     * return; `loopEnd` is how the main loop ended.
     */
    method Run(page: Page, host: Host, driverReady: bool, pageLoaded: bool)
      returns (reason: StopReason, ghost resumedFrom: int, ghost skipped: nat, ghost clicked: nat, ghost loopEnd: LoopEnd)
      modifies this, page, host
      ensures var loaded := Restore(old(host.progressFile), old(Snapshot()));
        && resumedFrom == loaded.clicks
        && loaded.links <= propertyLinks
        && (forall u :: u in propertyLinks - loaded.links ==> IsCanonical(u))
        && (reason == DriverFailed || reason == PageLoadFailed ==> Snapshot() == loaded)
        && (reason != DriverFailed && reason != PageLoadFailed ==>
              && skipped == FastForwardBy(old(page.attempts), loaded.clicks).0
              && loopEnd == MainLoop(SessionStart(WithProgress(old(LoopView(page, host)), loaded)), maxClicks, maxRuntimeHours)
              && reason == loopEnd.reason && LoopView(page, host) == Harvest(loopEnd.state))
      ensures reason == DriverFailed <==> !driverReady
      ensures reason == PageLoadFailed <==> driverReady && !pageLoaded
      ensures clicksPerformed == resumedFrom + skipped + clicked
      ensures skipped <= Max(resumedFrom, 0)
      ensures reason in {ShutdownRequested, RuntimeExceeded, NoNewLinks, ClickFailed} ==> clicksPerformed < maxClicks
      ensures reason == TargetReached ==> clicksPerformed >= maxClicks
      ensures StoppedFor(reason, loopEnd.state.shutdown, OverRuntime(loopEnd.lastReading, maxRuntimeHours),
                         loopEnd.state.noNew, loopEnd.lastClicked)
      ensures clicksPerformed <= Max(maxClicks, resumedFrom + skipped)
      ensures page.position == old(page.position) + skipped + clicked
      ensures host.progressFile == if host.writable then Present(CheckpointOf(Snapshot())) else old(host.progressFile)
      ensures host.outputFile == if host.writable then Some(OutputOf(Snapshot())) else old(host.outputFile)
      ensures reason == DriverFailed || reason == PageLoadFailed ==>
        && skipped == 0 && clicked == 0
        && host.progressSaves == old(host.progressSaves) + 1
        && host.outputSaves == old(host.outputSaves) + 1
      ensures reason != DriverFailed && reason != PageLoadFailed ==>
        && host.progressSaves == old(host.progressSaves) + 2 + clicked
        && host.outputSaves == old(host.outputSaves) + 2 + clicked
    {
      LoadProgress(host);
      resumedFrom := clicksPerformed;
      assert LoopView(page, host) == WithProgress(old(LoopView(page, host)), Restore(old(host.progressFile), old(Snapshot())));
      reason, skipped, clicked, loopEnd := RunLoaded(page, host, driverReady, pageLoaded);
    }
  }
}
