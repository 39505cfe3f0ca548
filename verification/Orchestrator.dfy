/** The recovery ladder of one beat and the loop over all beats (scripts/demo-orchestrator.py).

    Every outside command (compose run, make target, script, wire replay) is answered by an
    arbitrary environment that may look at the whole history of commands before it answers. */
module Orchestrator {
  import opened Sequences

  datatype Command =
    | LiveRun(beat: int)
    | Restart(target: string)
    | Beat8Script
    | WireReplay(beat: int)

  datatype Answer = Answer(ok: bool, detail: string)
  datatype Event = Event(command: Command, answer: Answer)
  type Oracle = (seq<Event>, Command) -> Answer

  datatype BeatPlan = BeatPlan(index: int, description: string, recovery: string, skippable: bool)

  /** What the halt message names. */
  datatype Halt = Halt(beatIndex: int, description: string, recovery: string, detail: string)

  /** The value of a BeatOutcome. */
  datatype Outcome = Outcome(
    beatIndex: int, description: string, attempts: seq<string>, succeeded: bool,
    finalPath: string, error: Option<Halt>, skipReason: Option<string>)

  datatype ProbeState = Present(installId: Option<string>) | Absent | Unclear

  const WORM := "worm-restart"
  const ADAPTER := "adapter-restart"
  const SCRIPT := "beat8-script"
  const SKIPPED := "skipped-pre-installed"

  class Environment {
    const answer: Oracle
    var past: seq<Event>
    var slices: set<int>

    constructor (answer: Oracle)
      ensures this.answer == answer && past == [] && slices == {}
    {
      this.answer := answer;
      past, slices := [], {};
    }

    method Call(c: Command) returns (a: Answer)
      modifies this`past
      ensures a == answer(old(past), c)
      ensures past == old(past) + [Event(c, a)]
    {
      a := answer(past, c);
      past := past + [Event(c, a)];
    }
  }

  class BeatOutcome {
    const beatIndex: int
    const description: string
    var attempts: seq<string>
    var succeeded: bool
    var finalPath: string
    var error: Option<Halt>
    var skipReason: Option<string>

    function View(): Outcome
      reads this
    {
      Outcome(beatIndex, description, attempts, succeeded, finalPath, error, skipReason)
    }

    constructor (beatIndex: int, description: string)
      ensures View() == Outcome(beatIndex, description, [], false, "unrun", None, None)
    {
      this.beatIndex, this.description := beatIndex, description;
      attempts, succeeded, finalPath, error, skipReason := [], false, "unrun", None, None;
    }

    method Succeed(path: string)
      modifies this
      ensures View() == old(View()).(succeeded := true, finalPath := path)
    {
      succeeded := true;
      finalPath := path;
    }

    method Attempt(name: string)
      modifies this
      ensures View() == old(View()).(attempts := old(attempts) + [name])
    {
      attempts := attempts + [name];
    }
  }

  // ---------------------------------------------------------------- one beat

  /** A rung either tries to complete the beat, and names the path it stands for,
      or is a gate that the next rung depends on. */
  datatype Rung = Try(command: Command, path: string) | Gate(command: Command)

  predicate IsRestart(recovery: string) { recovery == WORM || recovery == ADAPTER }

  function Ladder(p: BeatPlan): seq<Rung> {
    [Try(LiveRun(p.index), "first-try")] + (Recovery(p) + Fallback(p))
  }

  function Recovery(p: BeatPlan): seq<Rung> {
    if IsRestart(p.recovery) then [Gate(Restart(p.recovery)), Try(LiveRun(p.index), p.recovery)]
    else if p.recovery == SCRIPT then [Try(Beat8Script, SCRIPT)]
    else []
  }

  function Fallback(p: BeatPlan): seq<Rung> { [Try(WireReplay(p.index), "wire-replay")] }

  datatype Ascent = Ascent(events: seq<Event>, path: Option<string>)

  /** Climbs until a try succeeds; a closed gate also skips the rung it guards. */
  function Climb(answer: Oracle, rungs: seq<Rung>, past: seq<Event>): (r: Ascent)
    ensures rungs != [] ==> r.events != []
    decreases |rungs|
  {
    if rungs == [] then Ascent([], None)
    else
      var e := Event(rungs[0].command, answer(past, rungs[0].command));
      if rungs[0].Try? && e.answer.ok then Ascent([e], Some(rungs[0].path))
      else
        After(e, Climb(answer, Rest(rungs, e), past + [e]))
  }

  function After(e: Event, above: Ascent): Ascent { Ascent([e] + above.events, above.path) }

  function Rest(rungs: seq<Rung>, e: Event): (rest: seq<Rung>)
    requires rungs != []
    ensures |rest| < |rungs|
  {
    if rungs[0].Gate? && !e.answer.ok && |rungs| >= 2 then rungs[2..] else rungs[1..]
  }

  function BeatAscent(answer: Oracle, p: BeatPlan, past: seq<Event>): (a: Ascent)
    ensures a.events != []
  {
    Climb(answer, Ladder(p), past)
  }

  function AttemptNames(p: BeatPlan, es: seq<Event>): seq<string> {
    if |es| <= 1 then ["first-try"]
    else
      ["first-try", "recovery:" + p.recovery]
      + (if p.recovery == SCRIPT then ["recovery:beat8-script-result"] else [])
      + (if es[|es| - 1].command.WireReplay? then ["wire-replay"] else [])
  }

  function BeatResult(p: BeatPlan, a: Ascent): Outcome
    requires a.events != []
  {
    Outcome(p.index, p.description, AttemptNames(p, a.events), a.path.Some?,
      if a.path.Some? then a.path.value else "halted",
      if a.path.Some? then None
          else Some(Halt(p.index, p.description, p.recovery, a.events[|a.events|-1].answer.detail)),
      None)
  }

  /** The event completes the beat. */
  predicate Completes(e: Event) { !e.command.Restart? && e.answer.ok }

  predicate IsLive(e: Event) { e.command.LiveRun? }
  predicate IsReplay(e: Event) { e.command.WireReplay? }

  function Count(es: seq<Event>, f: Event -> bool): nat {
    if es == [] then 0 else Count(es[..|es| - 1], f) + if f(es[|es| - 1]) then 1 else 0
  }

  /** The recoveries that restart a service. */
  predicate Restarts(recovery: string) { recovery == "worm-restart" || recovery == "adapter-restart" }

  /** What a bystander who sees only the commands and their answers can rely on. */
  ghost predicate Lawful(p: BeatPlan, a: Ascent) {
    var es := a.events;
    && 1 <= |es| <= 4
    && es[0].command == LiveRun(p.index)
    // nothing is tried after a success, and a success is what ends the beat well
    && (forall i :: 0 <= i < |es| - 1 ==> !Completes(es[i]))
    && (a.path.Some? <==> Completes(es[|es| - 1]))
    // giving up takes a failed wire replay; a wire replay is always the last word
    && (a.path.None? ==> es[|es| - 1].command.WireReplay?)
    && (forall i :: 0 <= i < |es| && es[i].command.WireReplay? ==> i == |es| - 1 && es[i].command.beat == p.index)
    // a restart follows the first failure only, on the declared target; a second live run needs it to have worked
    && (forall i :: 0 <= i < |es| && es[i].command.Restart? ==>
        i == 1 && Restarts(p.recovery) && es[i].command.target == p.recovery)
    && (forall i :: 1 <= i < |es| && es[i].command.LiveRun? ==>
        i == 2 && es[1].command.Restart? && es[1].answer.ok && es[i].command.beat == p.index)
    && (Restarts(p.recovery) && |es| > 1 ==>
        es[1].command.Restart? && (es[1].answer.ok ==> |es| > 2 && es[2].command.LiveRun?))
    // the script runs exactly when it is the declared recovery and the first run failed
    && (forall i :: 0 <= i < |es| && es[i].command.Beat8Script? ==> i == 1 && p.recovery == "beat8-script")
    && (p.recovery == "beat8-script" && |es| > 1 ==> es[1].command.Beat8Script?)
    && Named(p, a)
  }

  /** The path names the kind of the command that succeeded. */
  ghost predicate Named(p: BeatPlan, a: Ascent)
    requires 1 <= |a.events|
  {
    a.path.Some? ==>
      var last := a.events[|a.events| - 1].command;
      && (a.path.value == "first-try" <==> |a.events| == 1)
      && (a.path.value == "wire-replay" <==> last.WireReplay?)
      && (a.path.value == "beat8-script" <==> last.Beat8Script?)
      && (a.path.value == p.recovery && Restarts(p.recovery) <==> last.LiveRun? && |a.events| == 3)
      && a.path.value in ["first-try", "wire-replay", "beat8-script", "worm-restart", "adapter-restart"]
  }


  function Did(answer: Oracle, past: seq<Event>, c: Command): Event { Event(c, answer(past, c)) }

  ghost predicate NoGateAtTheTop(rungs: seq<Rung>) {
    rungs != [] ==> rungs[|rungs| - 1].Try?
  }

  /** What climbing `high` adds to an ascent that has not succeeded. */
  function Onward(answer: Oracle, below: Ascent, high: seq<Rung>, past: seq<Event>): Ascent {
    if below.path.Some? then below
    else
      var above := Climb(answer, high, past + below.events);
      Ascent(below.events + above.events, above.path)
  }

  lemma OnwardAfter(answer: Oracle, e: Event, below: Ascent, high: seq<Rung>, past: seq<Event>)
    ensures Onward(answer, After(e, below), high, past) == After(e, Onward(answer, below, high, past + [e]))
  {
    assert past + [e] + below.events == past + ([e] + below.events);
    if below.path.None? {
      var above := Climb(answer, high, past + [e] + below.events);
      assert [e] + below.events + above.events == [e] + (below.events + above.events);
    }
  }

  /** Climbing two ladders in a row. */
  lemma {:induction false} ClimbConcat(answer: Oracle, low: seq<Rung>, high: seq<Rung>, past: seq<Event>)
    requires NoGateAtTheTop(low)
    ensures Climb(answer, low + high, past) == Onward(answer, Climb(answer, low, past), high, past)
    decreases |low|
  {
    if low == [] {
      assert low + high == high;
      assert past + [] == past;
    } else {
      var e := Did(answer, past, low[0].command);
      if !(low[0].Try? && e.answer.ok) {
        RestConcat(low, high, e);
        ClimbConcat(answer, Rest(low, e), high, past + [e]);
        OnwardAfter(answer, e, Climb(answer, Rest(low, e), past + [e]), high, past);
      }
    }
  }

  lemma RestConcat(low: seq<Rung>, high: seq<Rung>, e: Event)
    requires low != [] && NoGateAtTheTop(low)
    ensures Rest(low + high, e) == Rest(low, e) + high
    ensures NoGateAtTheTop(Rest(low, e))
  {
  }

  function RecoveryAscent(answer: Oracle, p: BeatPlan, past: seq<Event>): Ascent {
    Climb(answer, Recovery(p), past)
  }

  lemma RecoveryShape(answer: Oracle, p: BeatPlan, past: seq<Event>)
    ensures
      var m := Did(answer, past, Restart(p.recovery));
      var l := Did(answer, past + [m], LiveRun(p.index));
      var s := Did(answer, past, Beat8Script);
      RecoveryAscent(answer, p, past)
      == if IsRestart(p.recovery) then
           if !m.answer.ok then Ascent([m], None)
           else Ascent([m, l], if l.answer.ok then Some(p.recovery) else None)
         else if p.recovery == SCRIPT then Ascent([s], if s.answer.ok then Some(SCRIPT) else None)
         else Ascent([], None)
  {
    if IsRestart(p.recovery) {
      var m := Did(answer, past, Restart(p.recovery));
      var l := Did(answer, past + [m], LiveRun(p.index));
      var live := [Try(LiveRun(p.index), p.recovery)];
      assert Recovery(p)[1..] == live && Recovery(p)[2..] == [] && live[1..] == [];
      assert Climb(answer, [], past + [m]) == Climb(answer, [], past + [m] + [l]) == Ascent([], None);
      assert Climb(answer, live, past + [m]) == Ascent([l], if l.answer.ok then Some(p.recovery) else None);
      assert [m] + [l] == [m, l];
    } else if p.recovery == SCRIPT {
      var s := Did(answer, past, Beat8Script);
      assert Recovery(p)[1..] == [] && Climb(answer, [], past + [s]) == Ascent([], None);
    }
  }

  lemma RecoveryEnding(answer: Oracle, p: BeatPlan, past: seq<Event>)
    ensures
      var rec := RecoveryAscent(answer, p, past);
      rec.path.Some? ==> rec.events != [] && !rec.events[|rec.events| - 1].command.WireReplay?
  {
    RecoveryShape(answer, p, past);
  }

  /** A beat is its first run, then its recovery, then the wire replay, each only if nothing succeeded before. */
  lemma BeatShape(answer: Oracle, p: BeatPlan, past: seq<Event>)
    ensures
      var e := Did(answer, past, LiveRun(p.index));
      var rec := RecoveryAscent(answer, p, past + [e]);
      var w := Did(answer, past + [e] + rec.events, WireReplay(p.index));
      BeatAscent(answer, p, past)
      == if e.answer.ok then Ascent([e], Some("first-try"))
         else if rec.path.Some? then Ascent([e] + rec.events, rec.path)
         else Ascent([e] + rec.events + [w], if w.answer.ok then Some("wire-replay") else None)
  {
    var e := Did(answer, past, LiveRun(p.index));
    var rec := RecoveryAscent(answer, p, past + [e]);
    var tired := past + [e] + rec.events;
    var w := Did(answer, tired, WireReplay(p.index));
    assert Rest(Ladder(p), e) == Recovery(p) + Fallback(p);
    ClimbConcat(answer, Recovery(p), Fallback(p), past + [e]);
    assert Rest(Fallback(p), w) == [] && Climb(answer, [], tired + [w]) == Ascent([], None);
    assert Climb(answer, Fallback(p), tired) == Ascent([w], if w.answer.ok then Some("wire-replay") else None);
    assert [e] + (rec.events + [w]) == [e] + rec.events + [w];
  }

  /** Whatever the environment answers, a beat is lawful. */
  lemma BeatIsLawful(answer: Oracle, p: BeatPlan, past: seq<Event>)
    ensures Lawful(p, BeatAscent(answer, p, past))
  {
    BeatShape(answer, p, past);
    RecoveryShape(answer, p, past + [Did(answer, past, LiveRun(p.index))]);
  }

  /** Each event is what the environment answers at that point of the history. */
  ghost predicate Answered(answer: Oracle, past: seq<Event>, es: seq<Event>) {
    forall i :: 0 <= i < |es| ==> es[i] == Did(answer, past + es[..i], es[i].command)
  }

  lemma EventAt(answer: Oracle, past: seq<Event>, es: seq<Event>, i: nat, before: seq<Event>)
    requires Answered(answer, past, es) && i < |es| && es[..i] == before
    ensures es[i] == Did(answer, past + before, es[i].command)
  {
  }

  /** The law leaves an environment only one ascent, so any code that obeys it does what the
      orchestrator does. */
  lemma OnlyOneLawfulAscent(answer: Oracle, p: BeatPlan, past: seq<Event>, a: Ascent)
    requires Lawful(p, a) && Answered(answer, past, a.events)
    ensures a == BeatAscent(answer, p, past)
  {
    var es := a.events;
    EventAt(answer, past, es, 0, []);
    assert past + [] == past;
    BeatShape(answer, p, past);
    if !es[0].answer.ok {
      RecoveryShape(answer, p, past + [es[0]]);
      EventAt(answer, past, es, 1, [es[0]]);
      if |es| == 2 {
        assert es == [es[0]] + [] + [es[1]] == [es[0]] + [es[1]];
        assert past + [es[0]] + [] == past + [es[0]];
      } else {
        EventAt(answer, past, es, 2, [es[0]] + [es[1]]);
        assert past + ([es[0]] + [es[1]]) == past + [es[0]] + [es[1]];
        OnlyOneLongAscent(answer, p, past, a);
      }
    }
  }

  lemma OnlyOneLongAscent(answer: Oracle, p: BeatPlan, past: seq<Event>, a: Ascent)
    requires Lawful(p, a) && Answered(answer, past, a.events)
    requires |a.events| > 2 && a.events[0] == Did(answer, past, LiveRun(p.index))
    requires a.events[1] == Did(answer, past + [a.events[0]], a.events[1].command)
    requires a.events[2] == Did(answer, past + [a.events[0]] + [a.events[1]], a.events[2].command)
    ensures a == BeatAscent(answer, p, past)
  {
    var es := a.events;
    BeatShape(answer, p, past);
    RecoveryShape(answer, p, past + [es[0]]);
    if |es| == 3 {
      assert es == [es[0]] + [es[1]] + [es[2]] == [es[0]] + [es[1], es[2]];
    } else {
      EventAt(answer, past, es, 3, [es[0]] + [es[1], es[2]]);
      assert past + ([es[0]] + [es[1], es[2]]) == past + [es[0]] + [es[1], es[2]];
      assert es == [es[0]] + [es[1], es[2]] + [es[3]];
    }
  }

  // ------------------------------------------------------------------ methods

  function RecoveryNames(p: BeatPlan): seq<string> {
    ["recovery:" + p.recovery] + if p.recovery == SCRIPT then ["recovery:beat8-script-result"] else []
  }

  /** The value of an outcome after the recovery. */
  function Recovered(o: Outcome, p: BeatPlan, rec: Ascent): Outcome {
    var tried := o.(attempts := o.attempts + RecoveryNames(p));
    if rec.path.Some? then tried.(succeeded := true, finalPath := rec.path.value) else tried
  }

  /** The value of an outcome after the wire replay `w`. */
  function FellBack(o: Outcome, p: BeatPlan, w: Event): Outcome {
    var tried := o.(attempts := o.attempts + ["wire-replay"]);
    if w.answer.ok then tried.(succeeded := true, finalPath := "wire-replay")
    else tried.(finalPath := "halted", error := Some(Halt(p.index, p.description, p.recovery, w.answer.detail)))
  }

  function Opened(p: BeatPlan): Outcome {
    Outcome(p.index, p.description, ["first-try"], false, "unrun", None, None)
  }

  lemma BeatResultShape(answer: Oracle, p: BeatPlan, past: seq<Event>)
    ensures
      var e := Did(answer, past, LiveRun(p.index));
      var rec := RecoveryAscent(answer, p, past + [e]);
      var w := Did(answer, past + [e] + rec.events, WireReplay(p.index));
      BeatResult(p, BeatAscent(answer, p, past))
         == if e.answer.ok then Opened(p).(succeeded := true, finalPath := "first-try")
            else if rec.path.Some? then Recovered(Opened(p), p, rec)
            else FellBack(Recovered(Opened(p), p, rec), p, w)
  {
    BeatShape(answer, p, past);
    RecoveryEnding(answer, p, past + [Did(answer, past, LiveRun(p.index))]);
  }

  method TryRestart(env: Environment, p: BeatPlan) returns (ok: bool)
    requires IsRestart(p.recovery)
    modifies env`past
    ensures
      var rec := RecoveryAscent(env.answer, p, old(env.past));
      env.past == old(env.past) + rec.events && ok == rec.path.Some?
  {
    RecoveryShape(env.answer, p, env.past);
    ghost var before := env.past;
    var restarted := env.Call(Restart(p.recovery));
    ok := false;
    if restarted.ok {
      var live := env.Call(LiveRun(p.index));
      ok := live.ok;
    }
  }

  method Recover(env: Environment, p: BeatPlan, out: BeatOutcome) returns (ok: bool)
    modifies env`past, out
    ensures
      var rec := RecoveryAscent(env.answer, p, old(env.past));
      && env.past == old(env.past) + rec.events
      && ok == rec.path.Some?
      && out.View() == Recovered(old(out.View()), p, rec)
  {
    RecoveryShape(env.answer, p, env.past);
    out.Attempt("recovery:" + p.recovery);
    ok := false;
    if IsRestart(p.recovery) {
      ok := TryRestart(env, p);
      if ok {
        out.Succeed(p.recovery);
      }
    } else if p.recovery == SCRIPT {
      var script := env.Call(Beat8Script);
      out.Attempt("recovery:beat8-script-result");
      ok := script.ok;
      if ok {
        out.Succeed(SCRIPT);
      }
    }
  }

  method FallBack(env: Environment, p: BeatPlan, out: BeatOutcome)
    modifies env`past, out
    ensures
      var w := Did(env.answer, old(env.past), WireReplay(p.index));
      env.past == old(env.past) + [w] && out.View() == FellBack(old(out.View()), p, w)
  {
    out.Attempt("wire-replay");
    var replay := env.Call(WireReplay(p.index));
    if replay.ok {
      out.Succeed("wire-replay");
    } else {
      out.error := Some(Halt(p.index, p.description, p.recovery, replay.detail));
      out.finalPath := "halted";
    }
  }

  method FirstTry(env: Environment, p: BeatPlan) returns (out: BeatOutcome, ok: bool)
    modifies env
    ensures fresh(out)
    ensures
      var e := Did(env.answer, old(env.past), LiveRun(p.index));
      && env.past == old(env.past) + [e]
      && ok == e.answer.ok
      && out.View() == if ok then Opened(p).(succeeded := true, finalPath := "first-try") else Opened(p)
    ensures env.slices == old(env.slices) + {p.index}
  {
    out := new BeatOutcome(p.index, p.description);
    env.slices := env.slices + {p.index};
    out.Attempt("first-try");
    var live := env.Call(LiveRun(p.index));
    ok := live.ok;
    if ok {
      out.Succeed("first-try");
    }
  }

  method ExecuteBeat(env: Environment, p: BeatPlan) returns (out: BeatOutcome)
    modifies env
    ensures fresh(out)
    ensures env.past == old(env.past) + BeatAscent(env.answer, p, old(env.past)).events
    ensures out.View() == BeatResult(p, BeatAscent(env.answer, p, old(env.past)))
    ensures env.slices == old(env.slices) + {p.index}
  {
    BeatShape(env.answer, p, env.past);
    BeatResultShape(env.answer, p, env.past);
    var ok;
    out, ok := FirstTry(env, p);
    if !ok {
      ok := Recover(env, p, out);
      if !ok {
        FallBack(env, p, out);
      }
    }
  }

  // ---------------------------------------------------------------- all beats

  datatype Run = Run(past: seq<Event>, outcomes: seq<Outcome>)

  predicate Stopped(outcomes: seq<Outcome>) {
    outcomes != [] && !outcomes[|outcomes| - 1].succeeded
  }

  predicate Passes(outcomes: seq<Outcome>) {
    forall i :: 0 <= i < |outcomes| ==> outcomes[i].succeeded
  }

  function SkippedOutcome(p: BeatPlan, reason: string): Outcome {
    Outcome(p.index, p.description, [SKIPPED], true, SKIPPED, None, Some(reason))
  }

  /** What one more plan adds to a run that has not stopped. */
  function RunStep(answer: Oracle, skip: Option<string>, run: Run, p: BeatPlan): Run {
    if skip.Some? && p.skippable then Run(run.past, run.outcomes + [SkippedOutcome(p, skip.value)])
    else
      var a := BeatAscent(answer, p, run.past);
      Run(run.past + a.events, run.outcomes + [BeatResult(p, a)])
  }

  /** The run over all plans; `skip` holds the reason when flagged plans are to be skipped. */
  function RunPlans(answer: Oracle, skip: Option<string>, plans: seq<BeatPlan>, past: seq<Event>): (r: Run) {
    if plans == [] then Run(past, [])
    else
      var run := RunPlans(answer, skip, plans[..|plans| - 1], past);
      if Stopped(run.outcomes) then run else RunStep(answer, skip, run, plans[|plans| - 1])
  }

  function SkipReason(skipInstalled: bool, probe: ProbeState): Option<string> {
    if skipInstalled && probe.Present? then
      Some("skippable_if_pre_installed=true; install "
           + (if probe.installId.Some? && probe.installId.value != "" then probe.installId.value else "<unknown>")
           + " already exists")
    else None
  }

  // ------------------------------------------------------------ laws of a run

  lemma {:induction false} StoppedStays(answer: Oracle, skip: Option<string>, plans: seq<BeatPlan>, past: seq<Event>,
                                        n: nat)
    requires n <= |plans|
    requires Stopped(RunPlans(answer, skip, plans[..n], past).outcomes)
    ensures RunPlans(answer, skip, plans, past) == RunPlans(answer, skip, plans[..n], past)
  {
    if n == |plans| {
      assert plans[..n] == plans;
    } else {
      assert plans[..|plans| - 1][..n] == plans[..n];
      StoppedStays(answer, skip, plans[..|plans| - 1], past, n);
    }
  }

  /** Outcome by outcome, the report says what happened to a prefix of the plans. */
  ghost predicate Aligned(skip: Option<string>, plans: seq<BeatPlan>, outcomes: seq<Outcome>) {
    && |outcomes| <= |plans|
    && (|outcomes| < |plans| ==> Stopped(outcomes))
    && (forall i :: 0 <= i < |outcomes| ==> Reports(skip, plans[i], outcomes[i]))
    && (forall i :: 0 <= i < |outcomes| - 1 ==> outcomes[i].succeeded)
  }

  ghost predicate Reports(skip: Option<string>, p: BeatPlan, o: Outcome) {
    && o.beatIndex == p.index && o.description == p.description
    && (o.finalPath == SKIPPED <==> skip.Some? && p.skippable)
    && (o.finalPath == SKIPPED ==> o.succeeded && o.skipReason == skip && o.attempts == [SKIPPED])
    && (o.finalPath != SKIPPED ==> o.skipReason.None?)
    && (o.finalPath == "halted" <==> !o.succeeded)
    && (o.error.Some? <==> !o.succeeded)
    && (!o.succeeded ==> "wire-replay" in o.attempts)
  }

  lemma StepReports(answer: Oracle, skip: Option<string>, run: Run, p: BeatPlan)
    ensures
      var next := RunStep(answer, skip, run, p);
      && |next.outcomes| == |run.outcomes| + 1
      && next.outcomes[..|run.outcomes|] == run.outcomes
      && Reports(skip, p, next.outcomes[|run.outcomes|])
  {
    BeatIsLawful(answer, p, run.past);
  }

  /** Whatever the environment answers, outcomes line up with a prefix of the plans and only the
      last can have failed. */
  lemma {:induction false} RunIsAligned(answer: Oracle, skip: Option<string>, plans: seq<BeatPlan>, past: seq<Event>)
    ensures Aligned(skip, plans, RunPlans(answer, skip, plans, past).outcomes)
  {
    if plans != [] {
      var n := |plans| - 1;
      RunIsAligned(answer, skip, plans[..n], past);
      var run := RunPlans(answer, skip, plans[..n], past);
      if !Stopped(run.outcomes) {
        StepReports(answer, skip, run, plans[n]);
        AlignedGrows(skip, plans, run.outcomes, RunStep(answer, skip, run, plans[n]).outcomes);
      }
    }
  }

  lemma AlignedGrows(skip: Option<string>, plans: seq<BeatPlan>, before: seq<Outcome>, after: seq<Outcome>)
    requires plans != [] && Aligned(skip, plans[..|plans| - 1], before) && !Stopped(before)
    requires |after| == |before| + 1 && after[..|before|] == before
    requires Reports(skip, plans[|plans| - 1], after[|before|])
    ensures Aligned(skip, plans, after)
  {
    forall i | 0 <= i < |after|
      ensures Reports(skip, plans[i], after[i])
      ensures i < |after| - 1 ==> after[i].succeeded
    {
      if i < |before| {
        assert after[i] == before[i] && plans[..|plans| - 1][i] == plans[i];
      }
    }
  }

  /** Exit status 0 means that every plan has a successful outcome, and nothing else does. */
  lemma PassesIffAllPlansDo(answer: Oracle, skip: Option<string>, plans: seq<BeatPlan>, past: seq<Event>)
    ensures
      var outcomes := RunPlans(answer, skip, plans, past).outcomes;
      Passes(outcomes) <==> |outcomes| == |plans| && forall i :: 0 <= i < |plans| ==> outcomes[i].succeeded
  {
    RunIsAligned(answer, skip, plans, past);
  }

  /** The beat at `i` turned `before` into `after`: skipped without a command, or one lawful climb. */
  ghost predicate LawfulStep(answer: Oracle, skip: Option<string>, p: BeatPlan, before: seq<Event>, after: seq<Event>,
                             o: Outcome) {
    if skip.Some? && p.skippable then after == before && o == SkippedOutcome(p, skip.value)
    else
      var a := BeatAscent(answer, p, before);
      && after == before + a.events
      && o == BeatResult(p, a)
      && Lawful(p, a)
  }

  lemma {:induction false} PrefixRun(answer: Oracle, skip: Option<string>, plans: seq<BeatPlan>, past: seq<Event>,
                                     n: nat)
    requires n <= |plans|
    ensures
      var part, whole := RunPlans(answer, skip, plans[..n], past).outcomes,
          RunPlans(answer, skip, plans, past).outcomes;
      |part| <= |whole| && whole[..|part|] == part
  {
    if n == |plans| {
      assert plans[..n] == plans;
    } else {
      var m := |plans| - 1;
      assert plans[..m][..n] == plans[..n];
      PrefixRun(answer, skip, plans[..m], past, n);
      var run := RunPlans(answer, skip, plans[..m], past);
      StepReports(answer, skip, run, plans[m]);
      PrefixOf(RunPlans(answer, skip, plans[..n], past).outcomes, run.outcomes,
               RunPlans(answer, skip, plans, past).outcomes);
    }
  }

  lemma PrefixOf<T>(a: seq<T>, b: seq<T>, c: seq<T>)
    requires |a| <= |b| <= |c| && b[..|a|] == a && c[..|b|] == b
    ensures c[..|a|] == a
  {
    assert c[..|a|] == c[..|b|][..|a|];
  }

  /** A beat that has an outcome found the run going, and every earlier beat has one too. */
  lemma StillGoing(answer: Oracle, skip: Option<string>, plans: seq<BeatPlan>, past: seq<Event>, i: nat)
    requires i < |RunPlans(answer, skip, plans, past).outcomes|
    ensures i < |plans|
    ensures
      var before := RunPlans(answer, skip, plans[..i], past).outcomes;
      !Stopped(before) && |before| == i
  {
    RunIsAligned(answer, skip, plans, past);
    RunIsAligned(answer, skip, plans[..i], past);
    if Stopped(RunPlans(answer, skip, plans[..i], past).outcomes) {
      StoppedStays(answer, skip, plans, past, i);
    }
  }

  /** The history when the first `i` beats are over. */
  function PastAfter(answer: Oracle, skip: Option<string>, plans: seq<BeatPlan>, past: seq<Event>, i: nat): seq<Event>
    requires i <= |plans|
  {
    RunPlans(answer, skip, plans[..i], past).past
  }

  function Outcomes(answer: Oracle, skip: Option<string>, plans: seq<BeatPlan>, past: seq<Event>): seq<Outcome> {
    RunPlans(answer, skip, plans, past).outcomes
  }

  /** The log of a run is the logs of its beats one after the other, each lawful. */
  lemma EveryBeatIsLawful(answer: Oracle, skip: Option<string>, plans: seq<BeatPlan>, past: seq<Event>, i: nat)
    requires i < |plans| && i < |Outcomes(answer, skip, plans, past)|
    ensures LawfulStep(answer, skip, plans[i], PastAfter(answer, skip, plans, past, i),
                       PastAfter(answer, skip, plans, past, i + 1), Outcomes(answer, skip, plans, past)[i])
  {
    StillGoing(answer, skip, plans, past, i);
    var before := RunPlans(answer, skip, plans[..i], past);
    var after := RunPlans(answer, skip, plans[..i + 1], past);
    assert plans[..i + 1][..i] == plans[..i];
    assert after == RunStep(answer, skip, before, plans[i]);
    BeatIsLawful(answer, plans[i], before.past);
    PrefixRun(answer, skip, plans, past, i + 1);
    assert Outcomes(answer, skip, plans, past)[..|after.outcomes|][i] == after.outcomes[i];
  }

  lemma {:induction false} CountConcat(xs: seq<Event>, ys: seq<Event>, f: Event -> bool)
    ensures Count(xs + ys, f) == Count(xs, f) + Count(ys, f)
  {
    if ys == [] {
      assert xs + ys == xs;
    } else {
      assert (xs + ys)[..|xs + ys| - 1] == xs + ys[..|ys| - 1];
      CountConcat(xs, ys[..|ys| - 1], f);
    }
  }

  lemma {:induction false} CountNone(es: seq<Event>, f: Event -> bool)
    requires forall i :: 0 <= i < |es| ==> !f(es[i])
    ensures Count(es, f) == 0
  {
    if es != [] {
      CountNone(es[..|es| - 1], f);
    }
  }

  lemma {:induction false} LiveAtMostTwice(es: seq<Event>)
    requires forall i :: 0 <= i < |es| && IsLive(es[i]) ==> i == 0 || i == 2
    ensures Count(es, IsLive) <= if |es| == 0 then 0 else if |es| <= 2 then 1 else 2
  {
    if es != [] {
      LiveAtMostTwice(es[..|es| - 1]);
    }
  }

  lemma ReplayLast(es: seq<Event>)
    requires es != []
    requires forall i :: 0 <= i < |es| && IsReplay(es[i]) ==> i == |es| - 1
    ensures Count(es, IsReplay) == if IsReplay(es[|es| - 1]) then 1 else 0
  {
    CountNone(es[..|es| - 1], IsReplay);
  }

  lemma BeatBudget(p: BeatPlan, a: Ascent)
    requires Lawful(p, a)
    ensures Count(a.events, IsLive) <= 2
    ensures Count(a.events, IsReplay) == if a.path == None || a.path == Some("wire-replay") then 1 else 0
  {
    LiveAtMostTwice(a.events);
    ReplayLast(a.events);
  }

  /** The outcomes that needed the wire replay, in vain or not. */
  function Replayed(outcomes: seq<Outcome>): nat {
    if outcomes == [] then 0
    else
      var n := |outcomes| - 1;
      Replayed(outcomes[..n]) + if outcomes[n].finalPath in ["wire-replay", "halted"] then 1 else 0
  }

  /** Over a whole run: at most two live runs a beat, and one wire replay for exactly the beats
      that end on it or halt. */
  lemma {:induction false} RunBudget(answer: Oracle, skip: Option<string>, plans: seq<BeatPlan>, past: seq<Event>)
    ensures
      var run := RunPlans(answer, skip, plans, past);
      && Count(run.past, IsLive) <= Count(past, IsLive) + 2 * |run.outcomes|
      && Count(run.past, IsReplay) == Count(past, IsReplay) + Replayed(run.outcomes)
  {
    if plans != [] {
      var n := |plans| - 1;
      RunBudget(answer, skip, plans[..n], past);
      var run := RunPlans(answer, skip, plans[..n], past);
      if !Stopped(run.outcomes) {
        StepBudget(answer, skip, run, plans[n]);
      }
    }
  }

  lemma StepBudget(answer: Oracle, skip: Option<string>, run: Run, p: BeatPlan)
    ensures
      var next := RunStep(answer, skip, run, p);
      && |next.outcomes| == |run.outcomes| + 1
      && Count(next.past, IsLive) <= Count(run.past, IsLive) + 2
      && Count(next.past, IsReplay) - Count(run.past, IsReplay) == Replayed(next.outcomes) - Replayed(run.outcomes)
  {
    StepReports(answer, skip, run, p);
    var next := RunStep(answer, skip, run, p);
    assert next.outcomes[..|next.outcomes| - 1] == run.outcomes;
    if !(skip.Some? && p.skippable) {
      var a := BeatAscent(answer, p, run.past);
      LawfulBudget(answer, p, run.past);
      CountConcat(run.past, a.events, IsLive);
      CountConcat(run.past, a.events, IsReplay);
    }
  }

  lemma LawfulBudget(answer: Oracle, p: BeatPlan, past: seq<Event>)
    ensures
      var a := BeatAscent(answer, p, past);
      && Count(a.events, IsLive) <= 2
      && Count(a.events, IsReplay) == if BeatResult(p, a).finalPath in ["wire-replay", "halted"] then 1 else 0
  {
    BeatIsLawful(answer, p, past);
    BeatBudget(p, BeatAscent(answer, p, past));
  }

  // ---------------------------------------------------------------- the loop

  class RunReport {
    var beats: seq<BeatOutcome>

    constructor ()
      ensures beats == []
    {
      beats := [];
    }

    function Views(): (vs: seq<Outcome>)
      reads this, beats
      ensures |vs| == |beats| && forall i :: 0 <= i < |beats| ==> vs[i] == beats[i].View()
    {
      seq(|beats|, i requires 0 <= i < |beats| reads this, beats => beats[i].View())
    }

    method Add(beat: BeatOutcome)
      modifies this
      ensures beats == old(beats) + [beat]
      ensures Views() == old(Views()) + [beat.View()]
    {
      beats := beats + [beat];
    }

    method Passed() returns (ok: bool)
      ensures ok == Passes(Views())
    {
      ok := true;
      for i := 0 to |beats|
        invariant ok == forall k :: 0 <= k < i ==> beats[k].View().succeeded
      {
        ok := ok && beats[i].succeeded;
      }
    }
  }

  /** The beats that wrote a scenario slice. */
  function Ran(outcomes: seq<Outcome>): set<int> {
    if outcomes == [] then {}
    else Ran(outcomes[..|outcomes| - 1])
         + if outcomes[|outcomes| - 1].finalPath == SKIPPED then {} else {outcomes[|outcomes| - 1].beatIndex}
  }

  method NewSkippedOutcome(p: BeatPlan, reason: string) returns (out: BeatOutcome)
    ensures fresh(out) && out.View() == SkippedOutcome(p, reason)
  {
    out := new BeatOutcome(p.index, p.description);
    out.attempts := [SKIPPED];
    out.Succeed(SKIPPED);
    out.skipReason := Some(reason);
  }

  lemma NotSkipped(answer: Oracle, p: BeatPlan, past: seq<Event>)
    ensures BeatResult(p, BeatAscent(answer, p, past)).finalPath != SKIPPED
  {
    BeatIsLawful(answer, p, past);
  }

  /** One round of the loop. */
  method RunBeat(env: Environment, report: RunReport, p: BeatPlan, skip: Option<string>)
    returns (out: BeatOutcome, wrote: bool)
    modifies env, report
    ensures report.beats == old(report.beats) + [out] && fresh(out)
    ensures Run(env.past, report.Views()) == RunStep(env.answer, skip, Run(old(env.past), old(report.Views())), p)
    ensures report.Views() == old(report.Views()) + [out.View()]
    ensures wrote <==> out.finalPath != SKIPPED
    ensures env.slices == old(env.slices) + if wrote then {p.index} else {}
    ensures out.beatIndex == p.index
  {
    if skip.Some? && p.skippable {
      out := NewSkippedOutcome(p, skip.value);
      wrote := false;
    } else {
      NotSkipped(env.answer, p, env.past);
      out := ExecuteBeat(env, p);
      wrote := true;
    }
    report.Add(out);
  }

  method Unlink(env: Environment, written: seq<int>)
    modifies env`slices
    ensures env.slices == old(env.slices) - Elements(written)
  {
    for i := 0 to |written|
      invariant env.slices == old(env.slices) - Elements(written[..i])
    {
      env.slices := env.slices - {written[i]};
    }
    assert written[..|written|] == written;
  }

  /** Where the loop stands after `i` plans: the run so far, and the slices it has written. */
  ghost predicate At(env: Environment, report: RunReport, skip: Option<string>, plans: seq<BeatPlan>, i: nat,
                     past: seq<Event>, slices: set<int>, written: seq<int>)
    reads env, report, report.beats
    requires i <= |plans|
  {
    && Run(env.past, report.Views()) == RunPlans(env.answer, skip, plans[..i], past)
    && Elements(written) == Ran(report.Views())
    && env.slices == slices + Ran(report.Views())
  }

  method RunNext(env: Environment, report: RunReport, skip: Option<string>, plans: seq<BeatPlan>, i: nat,
                 written: seq<int>, ghost past: seq<Event>, ghost slices: set<int>)
    returns (out: BeatOutcome, written': seq<int>)
    requires i < |plans| && At(env, report, skip, plans, i, past, slices, written) && !Stopped(report.Views())
    modifies env, report
    ensures At(env, report, skip, plans, i + 1, past, slices, written')
    ensures fresh(out) && report.beats == old(report.beats) + [out]
    ensures out.succeeded <==> !Stopped(report.Views())
  {
    RunGrows(env.answer, skip, plans, past, i);
    var wrote;
    out, wrote := RunBeat(env, report, plans[i], skip);
    written' := if wrote then written + [out.beatIndex] else written;
  }

  method RunBeats(env: Environment, report: RunReport, plans: seq<BeatPlan>, skip: Option<string>)
    returns (written: seq<int>)
    requires report.beats == []
    modifies env, report
    ensures fresh(report.beats)
    ensures Run(env.past, report.Views()) == RunPlans(env.answer, skip, plans, old(env.past))
    ensures Elements(written) == Ran(report.Views())
    ensures env.slices == old(env.slices) + Ran(report.Views())
  {
    written := [];
    var ok := true;
    var i := 0;
    while i < |plans| && ok
      invariant 0 <= i <= |plans|
      invariant fresh(report.beats)
      invariant At(env, report, skip, plans, i, old(env.past), old(env.slices), written)
      invariant ok <==> !Stopped(report.Views())
    {
      var out;
      out, written := RunNext(env, report, skip, plans, i, written, old(env.past), old(env.slices));
      ok := out.succeeded;
      i := i + 1;
    }
    NothingFollows(env.answer, skip, plans, old(env.past), i);
  }

  lemma NothingFollows(answer: Oracle, skip: Option<string>, plans: seq<BeatPlan>, past: seq<Event>, i: nat)
    requires i <= |plans|
    requires i == |plans| || Stopped(RunPlans(answer, skip, plans[..i], past).outcomes)
    ensures RunPlans(answer, skip, plans[..i], past) == RunPlans(answer, skip, plans, past)
  {
    if i == |plans| {
      assert plans[..i] == plans;
    } else {
      StoppedStays(answer, skip, plans, past, i);
    }
  }

  lemma RunGrows(answer: Oracle, skip: Option<string>, plans: seq<BeatPlan>, past: seq<Event>, i: nat)
    requires i < |plans| && !Stopped(RunPlans(answer, skip, plans[..i], past).outcomes)
    ensures RunPlans(answer, skip, plans[..i + 1], past)
            == RunStep(answer, skip, RunPlans(answer, skip, plans[..i], past), plans[i])
  {
    assert plans[..i + 1][..i] == plans[..i];
  }

  /** Exactly the flagged beats are skipped, and only when skipping is on and the probe found an install:
      an absent or an unclear one skips nothing.  The reason names the install, if its id is known. */
  ghost predicate SkipsRight(plans: seq<BeatPlan>, skipInstalled: bool, probe: ProbeState, outcomes: seq<Outcome>) {
    && |outcomes| <= |plans|
    && forall k :: 0 <= k < |outcomes| ==> SkipRight(plans[k], skipInstalled, probe, outcomes[k])
  }

  ghost predicate SkipRight(p: BeatPlan, skipInstalled: bool, probe: ProbeState, o: Outcome) {
    && (o.finalPath == "skipped-pre-installed" <==> skipInstalled && probe.Present? && p.skippable)
    && (o.finalPath != "skipped-pre-installed" ==> o.skipReason == None)
    && (o.finalPath == "skipped-pre-installed" ==>
          exists id :: o.skipReason == Some("skippable_if_pre_installed=true; install " + id + " already exists")
                       && NamesInstall(probe, id))
  }

  /** `id` is the install's id, or stands for one that is absent or empty. */
  ghost predicate NamesInstall(probe: ProbeState, id: string) {
    && probe.Present?
    && (id == "<unknown>" || probe.installId == Some(id))
    && (probe.installId == None || probe.installId == Some("") ==> id == "<unknown>")
    && (probe.installId != None && probe.installId != Some("") ==> probe.installId == Some(id))
  }

  lemma SkipsAreRight(answer: Oracle, plans: seq<BeatPlan>, past: seq<Event>, skipInstalled: bool, probe: ProbeState)
    ensures SkipsRight(plans, skipInstalled, probe,
                       RunPlans(answer, SkipReason(skipInstalled, probe), plans, past).outcomes)
  {
    var skip := SkipReason(skipInstalled, probe);
    var outcomes := RunPlans(answer, skip, plans, past).outcomes;
    RunIsAligned(answer, skip, plans, past);
    forall k | 0 <= k < |outcomes| ensures SkipRight(plans[k], skipInstalled, probe, outcomes[k]) {
      assert Reports(skip, plans[k], outcomes[k]);
      if outcomes[k].finalPath == SKIPPED {
        var id := if probe.installId.Some? && probe.installId.value != "" then probe.installId.value else "<unknown>";
        assert NamesInstall(probe, id);
      }
    }
  }

  /** `main`, after the arguments are parsed: `plans` is None when the scenario cannot be loaded. */
  method RunScenario(env: Environment, plans: Option<seq<BeatPlan>>, skipInstalled: bool, probe: ProbeState)
    returns (exit: int, report: RunReport)
    modifies env
    ensures fresh(report)
    ensures plans.None? ==>
              exit == 2 && report.beats == [] && env.past == old(env.past) && env.slices == old(env.slices)
    ensures plans.Some? ==>
      && Run(env.past, report.Views())
          == RunPlans(env.answer, SkipReason(skipInstalled, probe), plans.value, old(env.past))
      && SkipsRight(plans.value, skipInstalled, probe, report.Views())
      && exit == (if Passes(report.Views()) then 0 else 1)
      && env.slices == old(env.slices) - Ran(report.Views())
  {
    report := new RunReport();
    if plans.None? {
      return 2, report;
    }
    var skip := SkipReason(skipInstalled, probe);
    var written := RunBeats(env, report, plans.value, skip);
    Unlink(env, written);
    var passed := report.Passed();
    exit := if passed then 0 else 1;
    SkipsAreRight(env.answer, plans.value, old(env.past), skipInstalled, probe);
  }
}
