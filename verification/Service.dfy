/** The long-lived service: the session state machine (speaktap/service.py) and the
    command handler over an abstract pipeline (speaktap/service_app.py). Desktop calls are
    best effort and do not raise; what the pipeline and the configured adapters do is
    given per command. */
module Service {
  import opened Domain

  datatype ServiceState = Idle | Recording | Finalizing | Outputting

  datatype SessionOptions = SessionOptions(asrProfile: string, cleanupEnabled: bool)

  datatype Snapshot = Snapshot(state: ServiceState, sessionId: Option<string>,
                               options: Option<SessionOptions>, lastError: Option<string>)

  /** A transition returns the new snapshot or raises; raising changes nothing. */
  datatype Transition = Moved(snapshot: Snapshot) | InvalidTransition | EmptySessionId

  const IDLE := Snapshot(Idle, None, None, None)

  function AfterStart(s: Snapshot, options: SessionOptions, id: string): Transition {
    if !s.state.Idle? then InvalidTransition
    else if id == "" then EmptySessionId
    else Moved(Snapshot(Recording, Some(id), Some(options), None))
  }

  function AfterBeginFinalization(s: Snapshot): Transition {
    if s.state.Recording? then Moved(s.(state := Finalizing)) else InvalidTransition
  }

  function AfterBeginOutput(s: Snapshot): Transition {
    if s.state.Finalizing? then Moved(s.(state := Outputting)) else InvalidTransition
  }

  function AfterComplete(s: Snapshot): Transition {
    if s.state.Outputting? then Moved(IDLE) else InvalidTransition
  }

  function AfterCancel(s: Snapshot): Transition {
    if s.state.Idle? then InvalidTransition else Moved(IDLE)
  }

  function AfterFail(s: Snapshot, error: string): Snapshot {
    IDLE.(lastError := Some(error))
  }

  class ServiceStateMachine {
    var state: ServiceState
    var sessionId: Option<string>
    var options: Option<SessionOptions>
    var lastError: Option<string>

    function View(): Snapshot
      reads this
    {
      Snapshot(state, sessionId, options, lastError)
    }

    /** A session id and options are present exactly while a session is active. */
    predicate Valid()
      reads this
    {
      (state.Idle? <==> sessionId.None?) && (state.Idle? <==> options.None?)
      && (sessionId.Some? ==> sessionId.value != "")
    }

    constructor ()
      ensures Valid() && View() == IDLE
    {
      state, sessionId, options, lastError := Idle, None, None, None;
    }

    method Start(newOptions: SessionOptions, newId: string) returns (r: Transition)
      requires Valid()
      modifies this
      ensures Valid()
      ensures r == AfterStart(old(View()), newOptions, newId)
      ensures View() == if r.Moved? then r.snapshot else old(View())
    {
      if state != Idle {
        return InvalidTransition;
      }
      if newId == "" {
        return EmptySessionId;
      }
      state := Recording;
      sessionId := Some(newId);
      options := Some(newOptions);
      lastError := None;
      r := Moved(View());
    }

    method BeginFinalization() returns (r: Transition)
      requires Valid()
      modifies this
      ensures Valid()
      ensures r == AfterBeginFinalization(old(View()))
      ensures View() == if r.Moved? then r.snapshot else old(View())
    {
      if state != Recording {
        return InvalidTransition;
      }
      state := Finalizing;
      r := Moved(View());
    }

    method BeginOutput() returns (r: Transition)
      requires Valid()
      modifies this
      ensures Valid()
      ensures r == AfterBeginOutput(old(View()))
      ensures View() == if r.Moved? then r.snapshot else old(View())
    {
      if state != Finalizing {
        return InvalidTransition;
      }
      state := Outputting;
      r := Moved(View());
    }

    method Complete() returns (r: Transition)
      requires Valid()
      modifies this
      ensures Valid()
      ensures r == AfterComplete(old(View()))
      ensures View() == if r.Moved? then r.snapshot else old(View())
    {
      if state != Outputting {
        return InvalidTransition;
      }
      ClearSession(true);
      r := Moved(View());
    }

    method Cancel() returns (r: Transition)
      requires Valid()
      modifies this
      ensures Valid()
      ensures r == AfterCancel(old(View()))
      ensures View() == if r.Moved? then r.snapshot else old(View())
    {
      if state == Idle {
        return InvalidTransition;
      }
      ClearSession(true);
      r := Moved(View());
    }

    method Fail(error: string)
      requires Valid()
      modifies this
      ensures Valid()
      ensures View() == AfterFail(old(View()), error)
    {
      lastError := Some(error);
      ClearSession(false);
    }

    method ClearSession(clearError: bool)
      modifies this
      ensures View() == IDLE.(lastError := if clearError then None else old(lastError))
    {
      state, sessionId, options := Idle, None, None;
      if clearError {
        lastError := None;
      }
    }
  }

  // ---------------------------------------------------------------- commands

  datatype Command = Start(cleanupEnabled: Option<bool>) | Stop | Cancel | Status | Shutdown

  datatype Response = Response(ok: bool, state: ServiceState, message: string,
                               sessionId: Option<string>, text: Option<string>)

  /** How pipeline.stop and the delivery of its result go. */
  datatype StopOutcome =
    | Transcribed(text: string, warnings: string)
    | StopRaises(error: string)
    | DeliveryRaises(error: string)

  /** What a command meets: the next session id, whether the configured adapters exist,
      whether pipeline.start raises, and how a stop goes. */
  datatype World = World(asrProfile: string, cleanupDefault: bool, newId: string, adaptersSupported: bool,
                         startError: Option<string>, stopOutcome: StopOutcome)

  /** AsrService: a pipeline is known by the session it was started for. */
  datatype App = App(machine: Snapshot, pipeline: Option<string>, shutdownRequested: bool)

  /** The reply built when a command raises, in the handler or in the socket loop. */
  function Refused(s: Snapshot, message: string): Response {
    Response(false, s.state, message, s.sessionId, None)
  }

  function OptionsFor(w: World, c: Command): SessionOptions
    requires c.Start?
  {
    SessionOptions(w.asrProfile, if c.cleanupEnabled.Some? then c.cleanupEnabled.value else w.cleanupDefault)
  }

  const INVALID := "invalid transition"

  function StartApp(app: App, c: Command, w: World): (App, Response)
    requires c.Start?
  {
    match AfterStart(app.machine, OptionsFor(w, c), w.newId)
    case InvalidTransition => (app, Refused(app.machine, INVALID))
    case EmptySessionId => (app, Refused(app.machine, "id_factory returned an empty session ID"))
    case Moved(recording) =>
      if !w.adaptersSupported then
        (app.(machine := recording), Refused(recording, "adapter is not implemented"))
      else if w.startError.Some? then
        var failed := AfterFail(recording, w.startError.value);
        (app.(machine := failed), Refused(failed, w.startError.value))
      else
        (app.(machine := recording, pipeline := recording.sessionId),
         Response(true, Recording, "recording started", recording.sessionId, None))
  }

  function FailApp(app: App, error: string): (App, Response) {
    var failed := AfterFail(app.machine, error);
    (app.(machine := failed, pipeline := None), Refused(failed, error))
  }

  function StopApp(app: App, w: World): (App, Response) {
    match AfterBeginFinalization(app.machine)
    case Moved(finalizing) =>
      if app.pipeline.None? then
        var failed := AfterFail(finalizing, "recording pipeline is missing");
        (app.(machine := failed), Refused(failed, "recording pipeline is missing"))
      else
        (match w.stopOutcome
         case StopRaises(error) => FailApp(app, error)
         case DeliveryRaises(error) => FailApp(app, error)
         case Transcribed(text, warnings) =>
           (app.(machine := IDLE, pipeline := None),
            Response(true, Idle, "transcription complete" + warnings, finalizing.sessionId, Some(text))))
    case _ => (app, Refused(app.machine, INVALID))
  }

  function CancelApp(app: App): (App, Response) {
    match AfterCancel(app.machine)
    case Moved(idle) =>
      (app.(machine := idle, pipeline := None), Response(true, Idle, "recording cancelled", None, None))
    case _ => (app.(pipeline := None), Refused(app.machine, INVALID))
  }

  /** Cancelling the state machine raises when it is idle, before the flag is set. */
  function ShutdownApp(app: App): (App, Response) {
    var stopped := Response(true, Idle, "service stopped", None, None);
    if app.pipeline.None? then (app.(shutdownRequested := true), stopped)
    else
      match AfterCancel(app.machine)
      case Moved(idle) => (App(idle, None, true), stopped)
      case _ => (app.(pipeline := None), Refused(app.machine, INVALID))
  }

  function StatusOf(s: Snapshot): Response {
    var message := if s.lastError.Some? && s.lastError.value != "" then s.lastError.value else StateName(s.state);
    Response(true, s.state, message, s.sessionId, None)
  }

  function StateName(s: ServiceState): string {
    match s
    case Idle => "idle"
    case Recording => "recording"
    case Finalizing => "finalizing"
    case Outputting => "outputting"
  }

  function Handled(app: App, c: Command, w: World): (App, Response) {
    match c
    case Start(_) => StartApp(app, c, w)
    case Stop => StopApp(app, w)
    case Cancel => CancelApp(app)
    case Status => (app, StatusOf(app.machine))
    case Shutdown => ShutdownApp(app)
  }

  // ---------------------------------------------------------------- in place

  class AsrService {
    const machine: ServiceStateMachine
    var pipeline: Option<string>
    var shutdownRequested: bool

    function View(): App
      reads this, machine
    {
      App(machine.View(), pipeline, shutdownRequested)
    }

    constructor ()
      ensures fresh(machine) && machine.Valid() && View() == App(IDLE, None, false)
    {
      machine := new ServiceStateMachine();
      pipeline, shutdownRequested := None, false;
    }

    method Handle(c: Command, w: World) returns (r: Response)
      requires machine.Valid()
      modifies this, machine
      ensures machine.Valid()
      ensures (View(), r) == Handled(old(View()), c, w)
    {
      match c {
        case Start(_) => r := StartSession(c, w);
        case Stop => r := StopSession(w);
        case Cancel => r := CancelSession();
        case Status => r := StatusOf(machine.View());
        case Shutdown => r := ShutDown();
      }
    }

    method StartSession(c: Command, w: World) returns (r: Response)
      requires machine.Valid() && c.Start?
      modifies this, machine
      ensures machine.Valid()
      ensures (View(), r) == StartApp(old(View()), c, w)
    {
      var started := machine.Start(OptionsFor(w, c), w.newId);
      if started.InvalidTransition? {
        return Refused(machine.View(), INVALID);
      }
      if started.EmptySessionId? {
        return Refused(machine.View(), "id_factory returned an empty session ID");
      }
      if !w.adaptersSupported {
        return Refused(machine.View(), "adapter is not implemented");
      }
      if w.startError.Some? {
        machine.Fail(w.startError.value);
        return Refused(machine.View(), w.startError.value);
      }
      pipeline := started.snapshot.sessionId;
      r := Response(true, Recording, "recording started", started.snapshot.sessionId, None);
    }

    method StopSession(w: World) returns (r: Response)
      requires machine.Valid()
      modifies this, machine
      ensures machine.Valid()
      ensures (View(), r) == StopApp(old(View()), w)
    {
      var finalizing := machine.BeginFinalization();
      if !finalizing.Moved? {
        return Refused(machine.View(), INVALID);
      }
      if pipeline.None? {
        machine.Fail("recording pipeline is missing");
        return Refused(machine.View(), "recording pipeline is missing");
      }
      if w.stopOutcome.StopRaises? {
        r := FailSession(w.stopOutcome.error);
        return;
      }
      var outputting := machine.BeginOutput();
      if w.stopOutcome.DeliveryRaises? {
        r := FailSession(w.stopOutcome.error);
        return;
      }
      var completed := machine.Complete();
      pipeline := None;
      r := Response(true, Idle, "transcription complete" + w.stopOutcome.warnings,
                    finalizing.snapshot.sessionId, Some(w.stopOutcome.text));
    }

    /** The except clause of _stop: cancel the pipeline, record the error. */
    method FailSession(error: string) returns (r: Response)
      requires machine.Valid()
      modifies this, machine
      ensures machine.Valid()
      ensures (View(), r) == FailApp(old(View()), error)
    {
      pipeline := None;
      machine.Fail(error);
      r := Refused(machine.View(), error);
    }

    method CancelSession() returns (r: Response)
      requires machine.Valid()
      modifies this, machine
      ensures machine.Valid()
      ensures (View(), r) == CancelApp(old(View()))
    {
      pipeline := None;
      var cancelled := machine.Cancel();
      if !cancelled.Moved? {
        return Refused(machine.View(), INVALID);
      }
      r := Response(true, Idle, "recording cancelled", None, None);
    }

    method ShutDown() returns (r: Response)
      requires machine.Valid()
      modifies this, machine
      ensures machine.Valid()
      ensures (View(), r) == ShutdownApp(old(View()))
    {
      if pipeline.Some? {
        pipeline := None;
        var cancelled := machine.Cancel();
        if !cancelled.Moved? {
          return Refused(machine.View(), INVALID);
        }
      }
      shutdownRequested := true;
      r := Response(true, Idle, "service stopped", None, None);
    }
  }

  // ---------------------------------------------------------------- laws

  /** Between commands the service is idle or recording, and it is recording exactly when
      it holds a pipeline, started for the session the state machine names. */
  predicate Consistent(app: App) {
    && (app.machine.state.Idle? || app.machine.state.Recording?)
    && app.pipeline == app.machine.sessionId
    && (app.machine.state.Recording? <==> app.pipeline.Some?)
    && (app.machine.state.Recording? <==> app.machine.options.Some?)
    && (app.pipeline.Some? ==> app.pipeline.value != "")
  }

  /** One command keeps the service consistent and reports the state it reached. */
  lemma CommandKeeps(app: App, c: Command, w: World)
    requires Consistent(app) && w.adaptersSupported
    ensures var (app', r) := Handled(app, c, w);
            && Consistent(app')
            && r.state == app'.machine.state
            && (r.ok && !c.Stop? ==> r.sessionId == app'.machine.sessionId)
            && (!r.ok ==> r.sessionId == app'.machine.sessionId)
            && (app'.shutdownRequested <==> app.shutdownRequested || c.Shutdown?)
  {
  }

  /** The service after some commands, and its replies. */
  function Served(app: App, commands: seq<(Command, World)>): (App, seq<Response>) {
    if commands == [] then (app, [])
    else
      var (before, replies) := Served(app, commands[..|commands| - 1]);
      var (c, w) := commands[|commands| - 1];
      var (after, reply) := Handled(before, c, w);
      (after, replies + [reply])
  }

  /** After any sequence of commands from a fresh service: consistent, and every reply
      gave the state reached at that point. */
  lemma {:induction false} ServiceStaysConsistent(commands: seq<(Command, World)>, k: nat)
    requires forall i :: 0 <= i < |commands| ==> commands[i].1.adaptersSupported
    requires k <= |commands|
    ensures Consistent(Served(App(IDLE, None, false), commands).0)
    ensures |Served(App(IDLE, None, false), commands).1| == |commands|
    ensures k < |commands| ==>
              Served(App(IDLE, None, false), commands).1[k].state
                == Served(App(IDLE, None, false), commands[..k + 1]).0.machine.state
  {
    var fresh_ := App(IDLE, None, false);
    if commands != [] {
      var p := commands[..|commands| - 1];
      var (c, w) := commands[|commands| - 1];
      ServiceStaysConsistent(p, if k < |p| then k else 0);
      assert Served(fresh_, commands).0 == Handled(Served(fresh_, p).0, c, w).0;
      CommandKeeps(Served(fresh_, p).0, c, w);
      hide Handled, Consistent;
      if k < |p| { assert p[..k + 1] == commands[..k + 1]; }
      assert commands[..|commands|] == commands;
    }
  }

  /** Starting from idle keeps the service consistent exactly when the configured adapters
      exist: make_pipeline raises after the state machine has moved. */
  lemma StartConsistentIff(app: App, c: Command, w: World)
    requires Consistent(app) && c.Start? && app.machine.state.Idle? && w.newId != ""
    ensures Consistent(Handled(app, c, w).0) <==> w.adaptersSupported
  {
  }

  /** After such a start, shutdown reports idle although the state machine is recording;
      a stop or a cancel brings the service back. */
  lemma UnsupportedAdapterEffects(app: App, c: Command, w: World, v: World)
    requires Consistent(app) && c.Start? && app.machine.state.Idle? && w.newId != "" && !w.adaptersSupported
    ensures var broken := Handled(app, c, w).0;
            && Handled(broken, Shutdown, v).1.state == Idle
            && Handled(broken, Shutdown, v).0.machine.state == Recording
            && Consistent(Handled(broken, Command.Stop, v).0) && Consistent(Handled(broken, Cancel, v).0)
  {
  }

  /** A session from start to stop: the reply to stop carries the text and the id given
      at the start, and the service is idle again without an error. */
  lemma SessionCompletes(app: App, c: Command, w: World, v: World)
    requires Consistent(app) && app.machine.state.Idle? && c.Start?
    requires w.adaptersSupported && w.newId != "" && w.startError.None? && v.stopOutcome.Transcribed?
    ensures var (recording, started) := Handled(app, c, w);
            var (after, stopped) := Handled(recording, Command.Stop, v);
            && started.ok && started.sessionId == Some(w.newId)
            && stopped.ok && stopped.sessionId == Some(w.newId) && stopped.text == Some(v.stopOutcome.text)
            && after == App(IDLE, None, app.shutdownRequested)
  {
  }

  // ---------------------------------------------------------------- what each command comes to

  /** A start from idle: the id, the profile and the caller's choice of cleanup, or else the
      configured one, reach the session. If starting the pipeline raises, the error is the
      reply and is kept; while recording, a start is refused and changes nothing. */
  lemma StartComesTo(app: App, choice: Option<bool>, w: World)
    requires Consistent(app) && w.adaptersSupported && w.newId != ""
    ensures var (after, r) := Handled(app, Command.Start(choice), w);
            if app.machine.state.Recording? then
              after == app && !r.ok && r.state == Recording && r.text == None
            else if w.startError.Some? then
              && after == App(Snapshot(Idle, None, None, Some(w.startError.value)), None, app.shutdownRequested)
              && r == Response(false, Idle, w.startError.value, None, None)
            else
              && after.pipeline == Some(w.newId) && after.shutdownRequested == app.shutdownRequested
              && after.machine.state == Recording && after.machine.sessionId == Some(w.newId)
              && after.machine.lastError == None
              && after.machine.options.value.asrProfile == w.asrProfile
              && (choice == None ==> after.machine.options.value.cleanupEnabled == w.cleanupDefault)
              && (choice.Some? ==> after.machine.options.value.cleanupEnabled == choice.value)
              && r == Response(true, Recording, "recording started", Some(w.newId), None)
  {
  }

  /** A stop whose pipeline or delivery raises: the reply is the error, without a text, the
      service is idle again, and status reports that error until a session starts. */
  lemma FailedStop(app: App, w: World, v: World)
    requires Consistent(app) && app.machine.state.Recording?
    requires w.stopOutcome.StopRaises? || w.stopOutcome.DeliveryRaises?
    ensures var error := w.stopOutcome.error;
            var (after, r) := Handled(app, Command.Stop, w);
            && r == Response(false, Idle, error, None, None)
            && after == App(Snapshot(Idle, None, None, Some(error)), None, app.shutdownRequested)
            && (error != "" ==> Handled(after, Status, v) == (after, Response(true, Idle, error, None, None)))
            && (v.newId != "" && v.adaptersSupported && v.startError.None? ==>
                  Handled(after, Command.Start(None), v).0.machine.lastError == None)
  {
  }

  /** The other commands: a stop or cancel while idle is refused and changes nothing, and
      keeps an earlier error; a cancel while recording clears the session and reports no
      text; shutdown also asks the service to end; status changes nothing. */
  lemma OtherCommandsComeTo(app: App, w: World)
    requires Consistent(app)
    ensures app.machine.state.Idle? ==>
              && Handled(app, Command.Stop, w).0 == app && !Handled(app, Command.Stop, w).1.ok
              && Handled(app, Cancel, w).0 == app && !Handled(app, Cancel, w).1.ok
              && Handled(app, Shutdown, w).0 == app.(shutdownRequested := true)
    ensures app.machine.state.Recording? ==>
              && Handled(app, Cancel, w)
                   == (App(IDLE, None, app.shutdownRequested), Response(true, Idle, "recording cancelled", None, None))
              && Handled(app, Shutdown, w).0 == App(IDLE, None, true)
    ensures Handled(app, Shutdown, w).1 == Response(true, Idle, "service stopped", None, None)
    ensures var (after, r) := Handled(app, Status, w);
            && after == app && r.ok && r.text == None && r.sessionId == app.machine.sessionId
            && (app.machine.lastError == None ==>
                  r.message == if app.machine.state.Recording? then "recording" else "idle")
  {
  }
}
