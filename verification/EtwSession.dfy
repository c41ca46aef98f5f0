/**
  The two ends of an ETW recording session: the editor's session handle, whose state the menu
  actions and the save dialog change, and the elevated child that records the trace. Whether a
  write, a read or a call into the performance recorder succeeds is decided outside and passed in.
*/
module EtwSession {
  import opened Wrappers

  datatype Command = Save(outputPath: string) | Cancel

  datatype Status = Started | Stopped(outputPath: string) | Cancelled | Error

  // ----- the editor's end -----

  datatype SessionState = Recording | ChoosingOutputPath | Stopping

  /** What a handler leaves behind: the new state and the commands it wrote to the socket. */
  datatype Effect = Effect(state: SessionState, written: seq<Command>)

  /** Prompting for a path; a dialog opens exactly when the state changes. */
  function Prompted(state: SessionState): SessionState
  {
    if state.Recording? then ChoosingOutputPath else state
  }

  function SaveRequested(state: SessionState, path: string, sendOk: bool): Effect
  {
    if !state.ChoosingOutputPath? then Effect(state, [])
    else if sendOk then Effect(Stopping, [Save(path)])
    else Effect(Recording, [])
  }

  function Resumed(state: SessionState): SessionState
  {
    if state.ChoosingOutputPath? then Recording else state
  }

  function CancelRequested(state: SessionState, sendOk: bool): Effect
  {
    if state.Stopping? then Effect(state, [])
    else if sendOk then Effect(Stopping, [Cancel])
    else Effect(Recording, [])
  }

  /** How a save dialog ends. */
  datatype Picked = PickedPath(path: string) | Dismissed | PickFailed

  function DialogEnded(state: SessionState, picked: Picked, sendOk: bool): Effect
  {
    match picked
    case PickedPath(path) => SaveRequested(state, path, sendOk)
    case Dismissed => Effect(Resumed(state), [])
    case PickFailed => Effect(Resumed(state), [])
  }

  class Socket {
    var written: seq<Command>

    constructor ()
      ensures written == []
    {
      written := [];
    }

    method Send(command: Command, sendOk: bool) returns (ok: bool)
      modifies this
      ensures ok == sendOk
      ensures written == if sendOk then old(written) + [command] else old(written)
    {
      if sendOk {
        written := written + [command];
      }
      ok := sendOk;
    }
  }

  class EtwSessionHandle {
    const writer: Socket
    var state: SessionState

    constructor (writer: Socket)
      ensures this.writer == writer && state == Recording
    {
      this.writer := writer;
      state := Recording;
    }
  }

  class GlobalEtwSession {
    var session: EtwSessionHandle?
    var openDialogs: nat

    constructor ()
      ensures session == null && openDialogs == 0
    {
      session := null;
      openDialogs := 0;
    }

    method PromptForEtwOutputPath()
      modifies this`openDialogs, session
      ensures session == null ==> openDialogs == old(openDialogs)
      ensures session != null ==>
        && session.state == Prompted(old(session.state))
        && openDialogs == old(openDialogs) + (if session.state != old(session.state) then 1 else 0)
      ensures session != null ==>
        if old(session.state).Recording? then session.state.ChoosingOutputPath? && openDialogs == old(openDialogs) + 1
        else session.state == old(session.state) && openDialogs == old(openDialogs)
    {
      if session == null {
        return;
      }
      match session.state {
        case Recording =>
          session.state := ChoosingOutputPath;
        case ChoosingOutputPath =>
          return;
        case Stopping =>
          return;
      }
      openDialogs := openDialogs + 1;
    }

    method SaveEtwRecording(path: string, sendOk: bool)
      modifies session, if session == null then null else session.writer
      ensures session != null ==>
        var effect := SaveRequested(old(session.state), path, sendOk);
        session.state == effect.state && session.writer.written == old(session.writer.written) + effect.written
      ensures session != null && old(session.state).ChoosingOutputPath? ==>
        if sendOk then session.state.Stopping? && session.writer.written == old(session.writer.written) + [Save(path)]
        else session.state.Recording? && session.writer.written == old(session.writer.written)
      ensures session != null && !old(session.state).ChoosingOutputPath? ==>
        session.state == old(session.state) && session.writer.written == old(session.writer.written)
    {
      if session == null || session.state != ChoosingOutputPath {
        return;
      }
      var ok := session.writer.Send(Save(path), sendOk);
      session.state := if ok then Stopping else Recording;
    }

    method ResumeEtwRecording()
      modifies session
      ensures session != null ==> session.state == Resumed(old(session.state))
      ensures session != null ==>
        session.state == if old(session.state).ChoosingOutputPath? then Recording else old(session.state)
    {
      if session == null {
        return;
      }
      if session.state == ChoosingOutputPath {
        session.state := Recording;
      }
    }

    method CancelEtwRecording(sendOk: bool)
      modifies session, if session == null then null else session.writer
      ensures session != null ==>
        var effect := CancelRequested(old(session.state), sendOk);
        session.state == effect.state && session.writer.written == old(session.writer.written) + effect.written
      ensures session != null && !old(session.state).Stopping? ==>
        if sendOk then session.state.Stopping? && session.writer.written == old(session.writer.written) + [Cancel]
        else session.state.Recording? && session.writer.written == old(session.writer.written)
      ensures session != null && old(session.state).Stopping? ==>
        session.state.Stopping? && session.writer.written == old(session.writer.written)
    {
      if session == null || session.state == Stopping {
        return;
      }
      var ok := session.writer.Send(Cancel, sendOk);
      session.state := if ok then Stopping else Recording;
    }

    /** What the task of a save dialog does when the dialog ends, whichever session is stored then. */
    method DialogResolved(picked: Picked, sendOk: bool)
      requires openDialogs > 0
      modifies this`openDialogs, session, if session == null then null else session.writer
      ensures openDialogs == old(openDialogs) - 1
      ensures session != null ==>
        var effect := DialogEnded(old(session.state), picked, sendOk);
        session.state == effect.state && session.writer.written == old(session.writer.written) + effect.written
      ensures session != null && old(session.state).ChoosingOutputPath? ==>
        if picked.PickedPath? && sendOk
        then session.state.Stopping? && session.writer.written == old(session.writer.written) + [Save(picked.path)]
        else session.state.Recording? && session.writer.written == old(session.writer.written)
      ensures session != null && !old(session.state).ChoosingOutputPath? ==>
        session.state == old(session.state) && session.writer.written == old(session.writer.written)
    {
      openDialogs := openDialogs - 1;
      match picked {
        case PickedPath(path) => SaveEtwRecording(path, sendOk);
        case Dismissed => ResumeEtwRecording();
        case PickFailed => ResumeEtwRecording();
      }
    }
  }

  // ----- the child's end -----

  /** The calls into the performance recorder. GuardCancel is the deferred cancel of an error path. */
  datatype WprCall = LeftoverCancel | StartOk | SaveOk(path: string) | SaveFailed | CancelOk | CancelFailed | GuardCancel

  /** Where the child stands; Exited remembers the status that was last to be sent. */
  datatype ChildPhase =
    | Preparing
    | Armed
    | Listening
    | Handling(command: Command)
    | Reporting(status: Status)
    | Exited(status: Status)

  datatype Child = Child(phase: ChildPhase, wpr: seq<WprCall>, sent: seq<Status>)

  const NEW_CHILD := Child(Preparing, [], [])

  datatype Preparation = BuildFailed | StartFailed | RecordingStarted

  /** Builds the profiles, cancels leftovers and starts the recording. */
  function Prepared(c: Child, p: Preparation): Child
  {
    if !c.phase.Preparing? then c
    else
      match p
      case BuildFailed => c.(phase := Reporting(Error))
      case StartFailed => c.(phase := Reporting(Error), wpr := c.wpr + [LeftoverCancel])
      case RecordingStarted => c.(phase := Armed, wpr := c.wpr + [LeftoverCancel, StartOk])
  }

  function Announced(c: Child, sendOk: bool): Child
  {
    if !c.phase.Armed? then c
    else if sendOk then c.(phase := Listening, sent := c.sent + [Started])
    else c.(phase := Reporting(Error), wpr := c.wpr + [GuardCancel])
  }

  /** Reads a command; None when the read fails, the socket is closed or the text is malformed. */
  function Commanded(c: Child, command: Option<Command>): Child
  {
    if !c.phase.Listening? then c
    else
      match command
      case Some(cmd) => c.(phase := Handling(cmd))
      case None => c.(phase := Reporting(Error), wpr := c.wpr + [GuardCancel])
  }

  function Finished(c: Child, callOk: bool): Child
  {
    match c.phase
    case Handling(Cancel) =>
      if callOk then c.(phase := Reporting(Cancelled), wpr := c.wpr + [CancelOk])
      else c.(phase := Reporting(Error), wpr := c.wpr + [CancelFailed, GuardCancel])
    case Handling(Save(path)) =>
      if callOk then c.(phase := Reporting(Stopped(path)), wpr := c.wpr + [SaveOk(path)])
      else c.(phase := Reporting(Error), wpr := c.wpr + [SaveFailed, GuardCancel])
    case _ => c
  }

  function Reported(c: Child, sendOk: bool): Child
  {
    match c.phase
    case Reporting(status) =>
      c.(phase := Exited(status), sent := if sendOk then c.sent + [status] else c.sent)
    case _ => c
  }

  /** The recording was saved, cancelled, or at least tried to be cancelled by the guard. */
  predicate Released(wpr: seq<WprCall>)
  {
    wpr != [] && var last := wpr[|wpr| - 1]; last.SaveOk? || last.CancelOk? || last.GuardCancel?
  }

  /** What may go wrong in one life of the child. */
  datatype Outcomes = Outcomes(
    buildOk: bool, startOk: bool, announceOk: bool, command: Option<Command>, callOk: bool, reportOk: bool)

  function PreparationOf(o: Outcomes): Preparation
  {
    if !o.buildOk then BuildFailed else if !o.startOk then StartFailed else RecordingStarted
  }

  /** The whole life of the child, step by step. */
  function ChildLife(o: Outcomes): Child
  {
    Reported(Finished(Commanded(Announced(Prepared(NEW_CHILD, PreparationOf(o)), o.announceOk), o.command), o.callOk), o.reportOk)
  }

  /** The recorder calls of one life, case by case. */
  function ChildCalls(o: Outcomes): seq<WprCall>
  {
    if !o.buildOk then []
    else if !o.startOk then [LeftoverCancel]
    else if !o.announceOk || o.command.None? then [LeftoverCancel, StartOk, GuardCancel]
    else
      match o.command.value
      case Cancel => if o.callOk then [LeftoverCancel, StartOk, CancelOk] else [LeftoverCancel, StartOk, CancelFailed, GuardCancel]
      case Save(path) => if o.callOk then [LeftoverCancel, StartOk, SaveOk(path)] else [LeftoverCancel, StartOk, SaveFailed, GuardCancel]
  }

  /** The last status of one life. */
  function FinalStatus(o: Outcomes): Status
  {
    if !o.buildOk || !o.startOk || !o.announceOk || o.command.None? || !o.callOk then Error
    else match o.command.value case Cancel => Cancelled case Save(path) => Stopped(path)
  }

  function ChildStatuses(o: Outcomes): seq<Status>
  {
    (if o.buildOk && o.startOk && o.announceOk then [Started] else []) + (if o.reportOk then [FinalStatus(o)] else [])
  }

  lemma ChildLifeIs(o: Outcomes)
    ensures ChildLife(o) == Child(Exited(FinalStatus(o)), ChildCalls(o), ChildStatuses(o))
  {
    var prepared := Prepared(NEW_CHILD, PreparationOf(o));
    assert prepared.wpr == if !o.buildOk then [] else if !o.startOk then [LeftoverCancel] else [LeftoverCancel, StartOk];
    var announced := Announced(prepared, o.announceOk);
    var finished := Finished(Commanded(announced, o.command), o.callOk);
    assert finished == Child(Reporting(FinalStatus(o)), ChildCalls(o), announced.sent);
  }

  class ControlManager {
    var calls: seq<WprCall>

    constructor ()
      ensures calls == []
    {
      calls := [];
    }

    method Call(call: WprCall)
      modifies this
      ensures calls == old(calls) + [call]
    {
      calls := calls + [call];
    }
  }

  class StatusStream {
    var sent: seq<Status>

    constructor ()
      ensures sent == []
    {
      sent := [];
    }

    method Send(status: Status, sendOk: bool) returns (ok: bool)
      modifies this
      ensures ok == sendOk
      ensures sent == if sendOk then old(sent) + [status] else old(sent)
    {
      if sendOk {
        sent := sent + [status];
      }
      ok := sendOk;
    }
  }

  /**
    The body of the child in the source's order. The deferred guard runs on every way out of the
    block that has not aborted it.
  */
  method RecordEtwTraceInner(control: ControlManager, stream: StatusStream, o: Outcomes) returns (ok: bool)
    requires control.calls == [] && stream.sent == []
    modifies control, stream
    ensures StartOk in control.calls ==> Released(control.calls)
    ensures control.calls == ChildCalls(o)
    ensures ok <==> FinalStatus(o) != Error
    ensures ok ==> stream.sent == ChildStatuses(o)
    ensures !ok ==> stream.sent == if o.buildOk && o.startOk && o.announceOk then [Started] else []
  {
    if !o.buildOk {
      return false;
    }
    control.Call(LeftoverCancel);
    if !o.startOk {
      return false;
    }
    control.Call(StartOk);
    var guardArmed := true;
    ok := false;
    label Guarded: {
      var announced := stream.Send(Started, o.announceOk);
      if !announced {
        break Guarded;
      }
      if o.command.None? {
        break Guarded;
      }
      match o.command.value {
        case Cancel =>
          control.Call(if o.callOk then CancelOk else CancelFailed);
          if !o.callOk {
            break Guarded;
          }
          guardArmed := false;
          var _ := stream.Send(Cancelled, o.reportOk);
        case Save(path) =>
          control.Call(if o.callOk then SaveOk(path) else SaveFailed);
          if !o.callOk {
            break Guarded;
          }
          guardArmed := false;
          var _ := stream.Send(Stopped(path), o.reportOk);
      }
      ok := true;
    }
    if guardArmed {
      control.Call(GuardCancel);
    }
  }

  /** The child: on an error of the body, the error is reported as well. */
  method RecordEtwTrace(control: ControlManager, stream: StatusStream, o: Outcomes) returns (ok: bool)
    requires control.calls == [] && stream.sent == []
    modifies control, stream
    ensures control.calls == ChildLife(o).wpr && stream.sent == ChildLife(o).sent
    ensures StartOk in control.calls ==> Released(control.calls)
  {
    ok := RecordEtwTraceInner(control, stream, o);
    if !ok {
      var _ := stream.Send(Error, o.reportOk);
    }
    ChildLifeIs(o);
  }
}
