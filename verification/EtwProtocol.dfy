/**
  All runs of the recording protocol: one editor, any number of launches and save dialogs, and one
  child per launch. Steps are interleaved freely; each send, read and recorder call succeeds or
  fails as the step says. A step that is not enabled changes nothing.
*/
module EtwProtocol {
  import opened Wrappers
  import opened EtwSession
  import opened Sequences

  /** What the editor tells the user at the end of a session. */
  datatype Report = SavedTo(path: string) | RecordingCancelled | EndedUnexpectedly | RecordingFailed

  /** The editor's task for one launch. */
  datatype TaskPhase =
    | Launching
    | Launched
    | Waiting
    | Received(report: Report)
    | LaunchFailed
    | Done(report: Report)

  /** One launch: its task, the socket in both directions, and its child. */
  datatype Link = Link(
    task: TaskPhase,
    written: seq<Command>,
    writerOpen: bool,
    child: Child,
    statusesRead: nat)

  /** The session stored in the editor, with the launch it belongs to. */
  datatype Handle = Handle(id: nat, state: SessionState)

  datatype Event =
    | CommandSent(id: nat, command: Command)
    | TraceSaved(id: nat, path: string)
    | TraceCancelled(id: nat)
    | UserTold(id: nat, report: Report)

  datatype World = World(session: Option<Handle>, openDialogs: nat, links: seq<Link>, history: seq<Event>)

  datatype Step =
    | Start
    | FailLaunch(id: nat)
    | ReadLaunchStatus(id: nat, readOk: bool)
    | StoreSession(id: nat)
    | ReadFinalStatus(id: nat, readOk: bool)
    | EndSession(id: nat)
    | Prompt
    | EndDialog(picked: Picked, sendOk: bool)
    | RequestCancel(sendOk: bool)
    | ChildPrepares(id: nat, preparation: Preparation)
    | ChildAnnounces(id: nat, sendOk: bool)
    | ChildReads(id: nat, readOk: bool)
    | ChildFinishes(id: nat, callOk: bool)
    | ChildReports(id: nat, sendOk: bool)

  const INITIAL := World(None, 0, [], [])

  // ----- the steps -----

  function SetLink(w: World, id: nat, link: Link): World
    requires id < |w.links|
  {
    w.(links := w.links[id := link])
  }

  /** Dropping the stored handle drops the writing half of its socket. */
  function DropHandle(w: World): World
  {
    match w.session
    case None => w
    case Some(h) =>
      var w' := w.(session := None);
      if h.id < |w.links| then SetLink(w', h.id, w.links[h.id].(writerOpen := false)) else w'
  }

  function SentEvents(id: nat, commands: seq<Command>): (events: seq<Event>)
    ensures |events| == |commands|
    ensures forall i :: 0 <= i < |commands| ==> events[i] == CommandSent(id, commands[i])
  {
    seq(|commands|, i requires 0 <= i < |commands| => CommandSent(id, commands[i]))
  }

  /** A handler changes the stored session's state and writes to its socket. */
  function ApplyEffect(w: World, effect: Effect): World
    requires w.session.Some? && w.session.value.id < |w.links|
  {
    var id := w.session.value.id;
    World(Some(Handle(id, effect.state)), w.openDialogs,
          w.links[id := w.links[id].(written := w.links[id].written + effect.written)],
          w.history + SentEvents(id, effect.written))
  }

  function ReportOf(status: Status): Report
  {
    match status
    case Stopped(path) => SavedTo(path)
    case Cancelled => RecordingCancelled
    case Error => RecordingFailed
    case Started => EndedUnexpectedly
  }

  /** The next status the editor reads, if it reads one. */
  function NextStatus(link: Link, readOk: bool): Option<Status>
  {
    if readOk && link.statusesRead < |link.child.sent| then Some(link.child.sent[link.statusesRead]) else None
  }

  /** Nothing has come yet, and the child may still send. */
  predicate MustWait(link: Link, readOk: bool)
  {
    readOk && link.statusesRead >= |link.child.sent| && !link.child.phase.Exited?
  }

  function StepStart(w: World): World
  {
    if w.session.Some? then w else w.(links := w.links + [Link(Launching, [], true, NEW_CHILD, 0)])
  }

  function StepFailLaunch(w: World, id: nat): World
    requires id < |w.links|
  {
    if !w.links[id].task.Launching? then w
    else SetLink(w, id, w.links[id].(task := LaunchFailed, writerOpen := false))
  }

  function StepReadLaunchStatus(w: World, id: nat, readOk: bool): World
    requires id < |w.links|
  {
    var link := w.links[id];
    if !link.task.Launching? || MustWait(link, readOk) then w
    else
      match NextStatus(link, readOk)
      case Some(Started) => SetLink(w, id, link.(task := Launched, statusesRead := link.statusesRead + 1))
      case _ => SetLink(w, id, link.(task := LaunchFailed, writerOpen := false))
  }

  function StepStoreSession(w: World, id: nat): World
    requires id < |w.links|
  {
    if !w.links[id].task.Launched? then w
    else
      var dropped := DropHandle(w);
      SetLink(dropped, id, dropped.links[id].(task := Waiting)).(session := Some(Handle(id, Recording)))
  }

  function StepReadFinalStatus(w: World, id: nat, readOk: bool): World
    requires id < |w.links|
  {
    var link := w.links[id];
    if !link.task.Waiting? || MustWait(link, readOk) then w
    else
      match NextStatus(link, readOk)
      case Some(status) =>
        SetLink(w, id, link.(task := Received(ReportOf(status)), statusesRead := link.statusesRead + 1))
      case None => SetLink(w, id, link.(task := Received(RecordingFailed)))
  }

  /** The end of a session's task clears whichever session is stored. */
  function StepEndSession(w: World, id: nat): World
    requires id < |w.links|
  {
    match w.links[id].task
    case Received(report) =>
      var dropped := DropHandle(w);
      SetLink(dropped, id, dropped.links[id].(task := Done(report))).(history := w.history + [UserTold(id, report)])
    case _ => w
  }

  function StepPrompt(w: World): World
  {
    match w.session
    case None => w
    case Some(h) =>
      var state := Prompted(h.state);
      w.(session := Some(Handle(h.id, state)), openDialogs := w.openDialogs + (if state != h.state then 1 else 0))
  }

  function StepEndDialog(w: World, picked: Picked, sendOk: bool): World
  {
    if w.openDialogs == 0 then w
    else
      var closed := w.(openDialogs := w.openDialogs - 1);
      match w.session
      case None => closed
      case Some(h) => if h.id < |w.links| then ApplyEffect(closed, DialogEnded(h.state, picked, sendOk)) else closed
  }

  function StepRequestCancel(w: World, sendOk: bool): World
  {
    match w.session
    case None => w
    case Some(h) => if h.id < |w.links| then ApplyEffect(w, CancelRequested(h.state, sendOk)) else w
  }

  function SetChild(w: World, id: nat, child: Child): World
    requires id < |w.links|
  {
    SetLink(w, id, w.links[id].(child := child))
  }

  /**
    The two halves share one socket: the child sees its end once the handle is gone and the task,
    which holds the reading half, no longer waits for a status.
  */
  predicate SocketClosed(link: Link)
  {
    !link.writerOpen && !link.task.Waiting?
  }

  /** The child reads the first command; without one it waits until the socket is closed, or fails. */
  function StepChildReads(w: World, id: nat, readOk: bool): World
    requires id < |w.links|
  {
    var link := w.links[id];
    if readOk && link.written != [] then SetChild(w, id, Commanded(link.child, Some(link.written[0])))
    else if readOk && !SocketClosed(link) then w
    else SetChild(w, id, Commanded(link.child, None))
  }

  function OutcomeEvents(id: nat, before: Child, callOk: bool): seq<Event>
  {
    match before.phase
    case Handling(Save(path)) => if callOk then [TraceSaved(id, path)] else []
    case Handling(Cancel) => if callOk then [TraceCancelled(id)] else []
    case _ => []
  }

  function StepChildFinishes(w: World, id: nat, callOk: bool): World
    requires id < |w.links|
  {
    var child := w.links[id].child;
    SetChild(w, id, Finished(child, callOk)).(history := w.history + OutcomeEvents(id, child, callOk))
  }

  function Apply(w: World, step: Step): World
  {
    match step
    case Start => StepStart(w)
    case Prompt => StepPrompt(w)
    case EndDialog(picked, sendOk) => StepEndDialog(w, picked, sendOk)
    case RequestCancel(sendOk) => StepRequestCancel(w, sendOk)
    case FailLaunch(id) => if id < |w.links| then StepFailLaunch(w, id) else w
    case ReadLaunchStatus(id, readOk) => if id < |w.links| then StepReadLaunchStatus(w, id, readOk) else w
    case StoreSession(id) => if id < |w.links| then StepStoreSession(w, id) else w
    case ReadFinalStatus(id, readOk) => if id < |w.links| then StepReadFinalStatus(w, id, readOk) else w
    case EndSession(id) => if id < |w.links| then StepEndSession(w, id) else w
    case ChildPrepares(id, p) => if id < |w.links| then SetChild(w, id, Prepared(w.links[id].child, p)) else w
    case ChildAnnounces(id, sendOk) => if id < |w.links| then SetChild(w, id, Announced(w.links[id].child, sendOk)) else w
    case ChildReads(id, readOk) => if id < |w.links| then StepChildReads(w, id, readOk) else w
    case ChildFinishes(id, callOk) => if id < |w.links| then StepChildFinishes(w, id, callOk) else w
    case ChildReports(id, sendOk) => if id < |w.links| then SetChild(w, id, Reported(w.links[id].child, sendOk)) else w
  }

  function Run(steps: seq<Step>): World
  {
    if steps == [] then INITIAL else Apply(Run(steps[..|steps| - 1]), steps[|steps| - 1])
  }

  // ----- the invariant of one launch -----

  /** The child's recorder calls when it is about to send (or has tried to send) its last status. */
  predicate ConsistentEnd(wpr: seq<WprCall>, written: seq<Command>, status: Status)
  {
    match status
    case Started => false
    case Stopped(path) => wpr == [LeftoverCancel, StartOk, SaveOk(path)] && written == [Save(path)]
    case Cancelled => wpr == [LeftoverCancel, StartOk, CancelOk] && written == [Cancel]
    case Error =>
      || wpr == []
      || wpr == [LeftoverCancel]
      || wpr == [LeftoverCancel, StartOk, GuardCancel]
      || wpr == [LeftoverCancel, StartOk, SaveFailed, GuardCancel]
      || wpr == [LeftoverCancel, StartOk, CancelFailed, GuardCancel]
  }

  /** Everything sent before the last status: nothing, or Started. */
  predicate ConsistentStart(sent: seq<Status>, status: Status)
  {
    sent == [Started] || (sent == [] && status == Error)
  }

  predicate ChildOk(c: Child, written: seq<Command>)
  {
    match c.phase
    case Preparing => c.wpr == [] && c.sent == []
    case Armed => c.wpr == [LeftoverCancel, StartOk] && c.sent == []
    case Listening => c.wpr == [LeftoverCancel, StartOk] && c.sent == [Started]
    case Handling(command) => c.wpr == [LeftoverCancel, StartOk] && c.sent == [Started] && written == [command]
    case Reporting(status) => ConsistentEnd(c.wpr, written, status) && ConsistentStart(c.sent, status)
    case Exited(status) =>
      && ConsistentEnd(c.wpr, written, status)
      && (ConsistentStart(c.sent, status) || c.sent == [Started, status] || (c.sent == [status] && status == Error))
  }

  /** What the editor's task has read agrees with what the child has sent. */
  predicate TaskOk(link: Link)
  {
    match link.task
    case Launching => link.statusesRead == 0 && link.written == [] && link.writerOpen
    case Launched => link.statusesRead == 1 && link.child.sent != [] && link.child.sent[0] == Started && link.written == [] && link.writerOpen
    case Waiting => link.statusesRead == 1 && link.child.sent != [] && link.child.sent[0] == Started
    case LaunchFailed => link.written == [] && !link.writerOpen
    case Received(report) => ReportOk(link, report)
    case Done(report) => ReportOk(link, report) && !link.writerOpen
  }

  predicate ReportOk(link: Link, report: Report)
  {
    || report == RecordingFailed
    || (report.SavedTo? && link.child.sent == [Started, Stopped(report.path)])
    || (report == RecordingCancelled && link.child.sent == [Started, Cancelled])
  }

  predicate LinkOk(link: Link)
  {
    |link.written| <= 1 && ChildOk(link.child, link.written) && TaskOk(link)
  }

  // ----- the invariant of the editor -----

  predicate IsLive(link: Link)
  {
    link.task.Waiting? || link.task.Received?
  }

  /** The stored session belongs to an unfinished task and has an open socket. */
  predicate SessionOk(w: World)
  {
    match w.session
    case None => true
    case Some(h) =>
      && h.id < |w.links|
      && IsLive(w.links[h.id])
      && w.links[h.id].writerOpen
      && (h.state.Stopping? <==> |w.links[h.id].written| == 1)
      && (h.state.ChoosingOutputPath? ==> w.openDialogs > 0)
  }

  /** Of the sessions whose task is unfinished, only the stored one still has an open socket. */
  predicate OthersClosed(w: World)
  {
    forall i :: 0 <= i < |w.links| && IsLive(w.links[i]) && w.links[i].writerOpen ==>
      w.session.Some? && w.session.value.id == i
  }

  predicate LinksOk(w: World)
  {
    forall i :: 0 <= i < |w.links| ==> LinkOk(w.links[i])
  }

  // ----- the invariant of the history -----

  /** Each event was preceded by what it depends on, and happens at most once per launch. */
  ghost predicate Justified(history: seq<Event>, k: nat)
    requires k < |history|
  {
    var earlier := history[..k];
    match history[k]
    case CommandSent(id, _) => forall c :: CommandSent(id, c) !in earlier
    case TraceSaved(id, path) => CommandSent(id, Save(path)) in earlier
    case TraceCancelled(id) => CommandSent(id, Cancel) in earlier
    case UserTold(id, report) =>
      && (forall r :: UserTold(id, r) !in earlier)
      && (report.SavedTo? ==> TraceSaved(id, report.path) in earlier)
      && (report.RecordingCancelled? ==> TraceCancelled(id) in earlier)
      && !report.EndedUnexpectedly?
  }

  ghost predicate HistoryOk(history: seq<Event>)
  {
    forall k :: 0 <= k < |history| ==> Justified(history, k)
  }

  /** The history records what the links show. */
  ghost predicate Recorded(w: World)
  {
    && (forall id: nat, c :: CommandSent(id, c) in w.history ==> id < |w.links| && w.links[id].written == [c])
    && (forall id: nat, r :: UserTold(id, r) in w.history ==> id < |w.links| && w.links[id].task.Done?)
    && (forall id :: 0 <= id < |w.links| ==> LinkRecorded(w.history, id, w.links[id]))
  }

  ghost predicate LinkRecorded(history: seq<Event>, id: nat, link: Link)
  {
    && (forall c :: c in link.written ==> CommandSent(id, c) in history)
    && (forall path :: SaveOk(path) in link.child.wpr ==> TraceSaved(id, path) in history)
    && (CancelOk in link.child.wpr ==> TraceCancelled(id) in history)
  }

  ghost predicate Invariant(w: World)
  {
    SessionOk(w) && OthersClosed(w) && LinksOk(w) && HistoryOk(w.history) && Recorded(w)
  }

  // ----- every step keeps the invariant -----

  /** A step that only changes one launch, and neither its commands nor the history. */
  lemma LinkChangeKeeps(w: World, id: nat, link: Link)
    requires Invariant(w) && id < |w.links|
    requires LinkOk(link) && link.written == w.links[id].written
    requires LinkRecorded(w.history, id, link)
    requires w.links[id].task.Done? ==> link.task.Done?
    requires w.session.Some? && w.session.value.id == id ==> IsLive(link) && link.writerOpen
    requires IsLive(link) && link.writerOpen ==> w.session.Some? && w.session.value.id == id
    ensures Invariant(SetLink(w, id, link))
  {
  }

  lemma DropHandleKeeps(w: World)
    requires Invariant(w)
    ensures Invariant(DropHandle(w)) && DropHandle(w).session.None?
    ensures |DropHandle(w).links| == |w.links| && DropHandle(w).history == w.history
    ensures forall i :: 0 <= i < |w.links| ==> DropHandle(w).links[i] == w.links[i].(writerOpen := DropHandle(w).links[i].writerOpen)
    ensures forall i :: 0 <= i < |w.links| && !IsLive(w.links[i]) ==> DropHandle(w).links[i] == w.links[i]
  {
  }

  lemma StartKeeps(w: World)
    requires Invariant(w)
    ensures Invariant(StepStart(w))
  {
  }

  lemma FailLaunchKeeps(w: World, id: nat)
    requires Invariant(w) && id < |w.links|
    ensures Invariant(StepFailLaunch(w, id))
  {
    if w.links[id].task.Launching? {
      LinkChangeKeeps(w, id, w.links[id].(task := LaunchFailed, writerOpen := false));
    }
  }

  lemma ReadLaunchStatusKeeps(w: World, id: nat, readOk: bool)
    requires Invariant(w) && id < |w.links|
    ensures Invariant(StepReadLaunchStatus(w, id, readOk))
  {
    var link := w.links[id];
    if link.task.Launching? && !MustWait(link, readOk) {
      if NextStatus(link, readOk) == Some(Started) {
        LinkChangeKeeps(w, id, link.(task := Launched, statusesRead := link.statusesRead + 1));
      } else {
        LinkChangeKeeps(w, id, link.(task := LaunchFailed, writerOpen := false));
      }
    }
  }

  lemma StoreSessionKeeps(w: World, id: nat)
    requires Invariant(w) && id < |w.links|
    ensures Invariant(StepStoreSession(w, id))
  {
    if w.links[id].task.Launched? {
      DropHandleKeeps(w);
    }
  }

  /** The report a session receives is what the child's statuses say. */
  lemma ReadFinalStatusKeeps(w: World, id: nat, readOk: bool)
    requires Invariant(w) && id < |w.links|
    ensures Invariant(StepReadFinalStatus(w, id, readOk))
  {
    var link := w.links[id];
    if link.task.Waiting? && !MustWait(link, readOk) {
      match NextStatus(link, readOk)
      case Some(status) =>
        assert link.child.sent == [Started, status];
        LinkChangeKeeps(w, id, link.(task := Received(ReportOf(status)), statusesRead := link.statusesRead + 1));
      case None =>
        LinkChangeKeeps(w, id, link.(task := Received(RecordingFailed)));
    }
  }

  lemma HistoryPush(history: seq<Event>, event: Event)
    requires HistoryOk(history) && Justified(history + [event], |history|)
    ensures HistoryOk(history + [event])
  {
    var longer := history + [event];
    forall k | 0 <= k < |longer| ensures Justified(longer, k) {
      if k < |history| {
        assert longer[..k] == history[..k];
        assert Justified(history, k);
      }
    }
  }

  /** Telling the user is justified by what the child did. */
  lemma ReportIsJustified(w: World, id: nat, report: Report)
    requires Invariant(w) && id < |w.links| && w.links[id].task == Received(report)
    ensures Justified(w.history + [UserTold(id, report)], |w.history|)
  {
  }

  lemma EndSessionKeeps(w: World, id: nat)
    requires Invariant(w) && id < |w.links|
    ensures Invariant(StepEndSession(w, id))
  {
    if w.links[id].task.Received? {
      var report := w.links[id].task.report;
      ReportIsJustified(w, id, report);
      HistoryPush(w.history, UserTold(id, report));
      DropHandleKeeps(w);
      var dropped := DropHandle(w);
      var link := dropped.links[id].(task := Done(report));
      assert LinkOk(dropped.links[id]) && LinkRecorded(w.history, id, dropped.links[id]);
      LinkChangeKeeps(dropped, id, link);
      ToldKeeps(SetLink(dropped, id, link), id, report);
    }
  }

  lemma ToldKeeps(w: World, id: nat, report: Report)
    requires Invariant(w) && id < |w.links| && w.links[id].task.Done?
    requires HistoryOk(w.history + [UserTold(id, report)])
    ensures Invariant(w.(history := w.history + [UserTold(id, report)]))
  {
  }

  lemma PromptKeeps(w: World)
    requires Invariant(w)
    ensures Invariant(StepPrompt(w))
  {
  }

  /** A handler that writes at most one command, and only when it moves to Stopping. */
  predicate EffectOk(before: SessionState, effect: Effect)
  {
    && |effect.written| <= 1
    && (effect.written != [] ==> !before.Stopping? && effect.state.Stopping?)
    && (effect.written == [] ==> (effect.state.Stopping? <==> before.Stopping?))
  }

  lemma NothingWrittenKeeps(w: World, state: SessionState)
    requires Invariant(w) && w.session.Some?
    requires state.Stopping? <==> w.session.value.state.Stopping?
    requires state.ChoosingOutputPath? ==> w.openDialogs > 0
    ensures Invariant(ApplyEffect(w, Effect(state, [])))
  {
    var id := w.session.value.id;
    var w' := ApplyEffect(w, Effect(state, []));
    assert w.history + SentEvents(id, []) == w.history;
    assert w.links[id].written + [] == w.links[id].written;
    assert w'.links == w.links;
  }

  lemma RecordedAfterCommand(w: World, id: nat, command: Command)
    requires Recorded(w) && HistoryOk(w.history) && id < |w.links| && w.links[id].written == []
    ensures var w' := SetLink(w, id, w.links[id].(written := [command])).(history := w.history + [CommandSent(id, command)]);
            Recorded(w') && HistoryOk(w'.history)
  {
    var event := CommandSent(id, command);
    var link' := w.links[id].(written := [command]);
    assert (w.history + [event])[..|w.history|] == w.history;
    HistoryPush(w.history, event);
    var w' := SetLink(w, id, link').(history := w.history + [event]);
    forall i | 0 <= i < |w.links| ensures LinkRecorded(w'.history, i, w'.links[i]) {
      assert LinkRecorded(w.history, i, w.links[i]);
    }
  }

  /** The world after a command was written to the stored session. */
  function AfterCommand(w: World, command: Command): World
    requires w.session.Some? && w.session.value.id < |w.links|
  {
    var id := w.session.value.id;
    World(Some(Handle(id, Stopping)), w.openDialogs, w.links[id := w.links[id].(written := [command])],
          w.history + [CommandSent(id, command)])
  }

  lemma SessionAfterCommand(w: World, command: Command)
    requires SessionOk(w) && OthersClosed(w) && LinksOk(w)
    requires w.session.Some? && !w.session.value.state.Stopping?
    ensures var w' := AfterCommand(w, command); SessionOk(w') && OthersClosed(w') && LinksOk(w')
    ensures w.links[w.session.value.id].written == []
  {
  }

  lemma ApplyEffectIsAfterCommand(w: World, command: Command)
    requires w.session.Some? && w.session.value.id < |w.links| && w.links[w.session.value.id].written == []
    ensures ApplyEffect(w, Effect(Stopping, [command])) == AfterCommand(w, command)
  {
    var id := w.session.value.id;
    assert w.links[id].written + [command] == [command];
    assert SentEvents(id, [command]) == [CommandSent(id, command)];
  }

  lemma CommandWrittenKeeps(w: World, command: Command)
    requires Invariant(w) && w.session.Some? && !w.session.value.state.Stopping?
    ensures Invariant(ApplyEffect(w, Effect(Stopping, [command])))
  {
    SessionAfterCommand(w, command);
    ApplyEffectIsAfterCommand(w, command);
    var id := w.session.value.id;
    RecordedAfterCommand(w, id, command);
    var changed := SetLink(w, id, w.links[id].(written := [command])).(history := w.history + [CommandSent(id, command)]);
    assert AfterCommand(w, command) == changed.(session := Some(Handle(id, Stopping)));
    assert Recorded(AfterCommand(w, command));
  }

  lemma ApplyEffectKeeps(w: World, effect: Effect)
    requires Invariant(w) && w.session.Some?
    requires EffectOk(w.session.value.state, effect)
    requires effect.state.ChoosingOutputPath? ==> w.openDialogs > 0
    ensures Invariant(ApplyEffect(w, effect))
  {
    if effect.written == [] {
      NothingWrittenKeeps(w, effect.state);
    } else {
      CommandWrittenKeeps(w, effect.written[0]);
      assert effect == Effect(Stopping, [effect.written[0]]);
    }
  }

  lemma DialogClosedKeeps(w: World)
    requires Invariant(w) && w.openDialogs > 0
    requires w.session.Some? ==> !w.session.value.state.ChoosingOutputPath?
    ensures Invariant(w.(openDialogs := w.openDialogs - 1))
  {
  }

  lemma DialogOfSessionKeeps(w: World, picked: Picked, sendOk: bool)
    requires Invariant(w) && w.openDialogs > 0 && w.session.Some?
    ensures Invariant(StepEndDialog(w, picked, sendOk))
  {
    var effect := DialogEnded(w.session.value.state, picked, sendOk);
    ApplyEffectKeeps(w, effect);
    DialogClosedKeeps(ApplyEffect(w, effect));
    assert StepEndDialog(w, picked, sendOk) == ApplyEffect(w, effect).(openDialogs := w.openDialogs - 1);
  }

  /** A dialog that ends leaves no session choosing, so the invariant does not need it any more. */
  lemma EndDialogKeeps(w: World, picked: Picked, sendOk: bool)
    requires Invariant(w)
    ensures Invariant(StepEndDialog(w, picked, sendOk))
  {
    if w.openDialogs > 0 {
      if w.session.Some? {
        DialogOfSessionKeeps(w, picked, sendOk);
      } else {
        DialogClosedKeeps(w);
      }
    }
  }

  lemma RequestCancelKeeps(w: World, sendOk: bool)
    requires Invariant(w)
    ensures Invariant(StepRequestCancel(w, sendOk))
  {
    match w.session
    case None =>
    case Some(h) =>
      ApplyEffectKeeps(w, CancelRequested(h.state, sendOk));
  }

  /** The child's steps other than the one that saves or cancels the trace. */
  lemma ChildChangeKeeps(w: World, id: nat, child: Child)
    requires Invariant(w) && id < |w.links|
    requires ChildOk(child, w.links[id].written)
    requires w.links[id].child.sent <= child.sent
    requires forall call :: call in child.wpr && (call.SaveOk? || call.CancelOk?) ==> call in w.links[id].child.wpr
    ensures Invariant(SetChild(w, id, child))
  {
    var link := w.links[id];
    assert LinkRecorded(w.history, id, link);
    assert LinkOk(link.(child := child));
    LinkChangeKeeps(w, id, link.(child := child));
  }

  lemma ChildPreparesKeeps(w: World, id: nat, p: Preparation)
    requires Invariant(w) && id < |w.links|
    ensures Invariant(SetChild(w, id, Prepared(w.links[id].child, p)))
  {
    assert LinkOk(w.links[id]);
    ChildChangeKeeps(w, id, Prepared(w.links[id].child, p));
  }

  lemma ChildAnnouncesKeeps(w: World, id: nat, sendOk: bool)
    requires Invariant(w) && id < |w.links|
    ensures Invariant(SetChild(w, id, Announced(w.links[id].child, sendOk)))
  {
    assert LinkOk(w.links[id]);
    ChildChangeKeeps(w, id, Announced(w.links[id].child, sendOk));
  }

  lemma ChildReadsKeeps(w: World, id: nat, readOk: bool)
    requires Invariant(w) && id < |w.links|
    ensures Invariant(StepChildReads(w, id, readOk))
  {
    var link := w.links[id];
    assert LinkOk(link);
    if readOk && link.written != [] {
      ChildChangeKeeps(w, id, Commanded(link.child, Some(link.written[0])));
    } else if !(readOk && !SocketClosed(link)) {
      ChildChangeKeeps(w, id, Commanded(link.child, None));
    }
  }

  lemma ChildReportsKeeps(w: World, id: nat, sendOk: bool)
    requires Invariant(w) && id < |w.links|
    ensures Invariant(SetChild(w, id, Reported(w.links[id].child, sendOk)))
  {
    assert LinkOk(w.links[id]);
    ChildChangeKeeps(w, id, Reported(w.links[id].child, sendOk));
  }

  /** Saving or cancelling the trace is justified by the command, and recorded. */
  lemma OutcomeKeeps(w: World, id: nat, child: Child, event: Event)
    requires Invariant(w) && id < |w.links|
    requires child == Finished(w.links[id].child, true)
    requires OutcomeEvents(id, w.links[id].child, true) == [event]
    ensures Invariant(SetChild(w, id, child).(history := w.history + [event]))
  {
    var link := w.links[id];
    var w' := SetChild(w, id, child).(history := w.history + [event]);
    assert LinkOk(link) && LinkRecorded(w.history, id, link);
    assert (w.history + [event])[..|w.history|] == w.history;
    HistoryPush(w.history, event);
    assert LinkOk(w'.links[id]);
    forall i | 0 <= i < |w.links| ensures LinkRecorded(w'.history, i, w'.links[i]) {
      assert LinkRecorded(w.history, i, w.links[i]);
    }
  }

  lemma ChildFinishesKeeps(w: World, id: nat, callOk: bool)
    requires Invariant(w) && id < |w.links|
    ensures Invariant(StepChildFinishes(w, id, callOk))
  {
    var link := w.links[id];
    assert LinkOk(link);
    var child := Finished(link.child, callOk);
    var events := OutcomeEvents(id, link.child, callOk);
    if events == [] {
      assert w.history + events == w.history;
      ChildChangeKeeps(w, id, child);
    } else {
      OutcomeKeeps(w, id, child, events[0]);
    }
  }

  lemma ApplyKeeps(w: World, step: Step)
    requires Invariant(w)
    ensures Invariant(Apply(w, step))
  {
    match step
    case Start => StartKeeps(w);
    case Prompt => PromptKeeps(w);
    case EndDialog(picked, sendOk) => EndDialogKeeps(w, picked, sendOk);
    case RequestCancel(sendOk) => RequestCancelKeeps(w, sendOk);
    case FailLaunch(id) => if id < |w.links| { FailLaunchKeeps(w, id); }
    case ReadLaunchStatus(id, readOk) => if id < |w.links| { ReadLaunchStatusKeeps(w, id, readOk); }
    case StoreSession(id) => if id < |w.links| { StoreSessionKeeps(w, id); }
    case ReadFinalStatus(id, readOk) => if id < |w.links| { ReadFinalStatusKeeps(w, id, readOk); }
    case EndSession(id) => if id < |w.links| { EndSessionKeeps(w, id); }
    case ChildPrepares(id, p) => if id < |w.links| { ChildPreparesKeeps(w, id, p); }
    case ChildAnnounces(id, sendOk) => if id < |w.links| { ChildAnnouncesKeeps(w, id, sendOk); }
    case ChildReads(id, readOk) => if id < |w.links| { ChildReadsKeeps(w, id, readOk); }
    case ChildFinishes(id, callOk) => if id < |w.links| { ChildFinishesKeeps(w, id, callOk); }
    case ChildReports(id, sendOk) => if id < |w.links| { ChildReportsKeeps(w, id, sendOk); }
  }

  lemma {:induction false} RunKeeps(steps: seq<Step>)
    ensures Invariant(Run(steps))
    decreases |steps|
  {
    if steps != [] {
      RunKeeps(steps[..|steps| - 1]);
      ApplyKeeps(Run(steps[..|steps| - 1]), steps[|steps| - 1]);
    }
  }

  // ----- prompts and reads -----

  /** A prompt on a recording session opens one dialog and lets it choose; on any other nothing happens. */
  lemma PromptExactly(w: World)
    ensures var after := Apply(w, Prompt);
            if w.session.Some? && w.session.value.state == Recording then
              && after.session == Some(Handle(w.session.value.id, ChoosingOutputPath))
              && after.openDialogs == w.openDialogs + 1 && after.links == w.links && after.history == w.history
            else after == w
  {
  }

  /**
    A listening child gets the command that was written; without one it waits while the socket is open,
    and reports an error when the socket is closed or the read fails.
  */
  lemma ReadExactly(w: World, id: nat, readOk: bool)
    requires id < |w.links| && w.links[id].child.phase == Listening
    ensures var link, after := w.links[id], Apply(w, ChildReads(id, readOk)).links[id].child;
            && (readOk && link.written != [] ==> after.phase == Handling(link.written[0]))
            && (readOk && link.written == [] && (link.writerOpen || link.task.Waiting?) ==> after == link.child)
            && (!readOk || (link.written == [] && !link.writerOpen && !link.task.Waiting?) ==> after.phase == Reporting(Error))
  {
  }

  // ----- what holds in every run -----

  ghost predicate HappenedBefore(history: seq<Event>, event: Event, k: nat)
    requires k <= |history|
  {
    exists j :: 0 <= j < k && history[j] == event
  }

  /**
    The user is told that a trace was saved to a path only after the child of that launch saved it
    there, which it did only after the editor sent it that path; likewise for a cancelled one.
  */
  lemma ReportsAreTrue(steps: seq<Step>, k: nat)
    requires k < |Run(steps).history|
    ensures var history := Run(steps).history;
            match history[k]
            case UserTold(id, SavedTo(path)) =>
              exists m :: 0 <= m < k && history[m] == TraceSaved(id, path) && HappenedBefore(history, CommandSent(id, Save(path)), m)
            case UserTold(id, RecordingCancelled) =>
              exists m :: 0 <= m < k && history[m] == TraceCancelled(id) && HappenedBefore(history, CommandSent(id, Cancel), m)
            case UserTold(id, EndedUnexpectedly) => false
            case _ => true
  {
    RunKeeps(steps);
    var history := Run(steps).history;
    assert Justified(history, k);
    match history[k] {
      case UserTold(id, SavedTo(path)) =>
        var m :| 0 <= m < k && history[..k][m] == TraceSaved(id, path);
        assert Justified(history, m);
        var j :| 0 <= j < m && history[..m][j] == CommandSent(id, Save(path));
        assert history[j] == CommandSent(id, Save(path));
      case UserTold(id, RecordingCancelled) =>
        var m :| 0 <= m < k && history[..k][m] == TraceCancelled(id);
        assert Justified(history, m);
        var j :| 0 <= j < m && history[..m][j] == CommandSent(id, Cancel);
        assert history[j] == CommandSent(id, Cancel);
      case _ =>
    }
  }

  /** No launch is sent two commands, and the user is told its end at most once. */
  lemma OncePerLaunch(steps: seq<Step>, j: nat, k: nat)
    requires j < k < |Run(steps).history|
    ensures var history := Run(steps).history;
            && !(history[j].CommandSent? && history[k].CommandSent? && history[j].id == history[k].id)
            && !(history[j].UserTold? && history[k].UserTold? && history[j].id == history[k].id)
  {
    RunKeeps(steps);
    var history := Run(steps).history;
    assert Justified(history, k);
    assert history[..k][j] == history[j];
  }

  /**
    A stored session is stopping exactly when one command has been written to its socket, and no
    command has otherwise. While it waits for a path a dialog is open, and however a dialog ends,
    including one left over from an earlier session, the session stops waiting.
  */
  lemma StoredSessionIsNeverStuck(steps: seq<Step>, picked: Picked, sendOk: bool)
    requires Run(steps).session.Some?
    ensures var w := Run(steps);
            var h := w.session.value;
            && h.id < |w.links|
            && |w.links[h.id].written| == (if h.state.Stopping? then 1 else 0)
            && (h.state.ChoosingOutputPath? ==>
                  && w.openDialogs > 0
                  && Apply(w, EndDialog(picked, sendOk)).session.Some?
                  && Apply(w, EndDialog(picked, sendOk)).session.value.id == h.id
                  && !Apply(w, EndDialog(picked, sendOk)).session.value.state.ChoosingOutputPath?)
  {
    RunKeeps(steps);
    var w := Run(steps);
    assert LinkOk(w.links[w.session.value.id]);
  }

  /** A child that started a recording does not exit without having released it or tried to. */
  lemma ChildrenRelease(steps: seq<Step>, id: nat)
    requires id < |Run(steps).links|
    ensures var child := Run(steps).links[id].child;
            child.phase.Exited? && StartOk in child.wpr ==> Released(child.wpr)
  {
    RunKeeps(steps);
    assert LinkOk(Run(steps).links[id]);
  }

  // ----- commands are what the user asked for -----

  /** The user picks a path in a dialog while the session of this launch waits for one, and it is sent. */
  predicate PicksPath(w: World, step: Step, id: nat, path: string)
  {
    w.openDialogs > 0 && w.session == Some(Handle(id, ChoosingOutputPath)) && step == EndDialog(PickedPath(path), true)
  }

  /** The user cancels while the session of this launch is stored and not stopping, and it is sent. */
  predicate Cancels(w: World, step: Step, id: nat)
  {
    && w.session.Some? && w.session.value.id == id && w.session.value.state != Stopping
    && step == RequestCancel(true)
  }

  predicate Asks(w: World, step: Step, id: nat, command: Command)
  {
    match command
    case Save(path) => PicksPath(w, step, id, path)
    case Cancel => Cancels(w, step, id)
  }

  predicate AsksAt(steps: seq<Step>, k: nat, id: nat, command: Command)
  {
    k < |steps| && Asks(Run(steps[..k]), steps[k], id, command)
  }

  ghost predicate AskedIn(steps: seq<Step>, id: nat, command: Command)
  {
    exists k: nat :: AsksAt(steps, k, id, command)
  }

  lemma SentByEffect(w: World, effect: Effect, id: nat, command: Command)
    requires w.session.Some? && w.session.value.id < |w.links|
    ensures CommandSent(id, command) in ApplyEffect(w, effect).history
       <==> CommandSent(id, command) in w.history || (id == w.session.value.id && command in effect.written)
  {
    var events := SentEvents(w.session.value.id, effect.written);
    if command in effect.written && id == w.session.value.id {
      var i :| 0 <= i < |effect.written| && effect.written[i] == command;
      assert events[i] == CommandSent(id, command);
    }
  }

  lemma DialogSends(w: World, picked: Picked, sendOk: bool, id: nat, command: Command)
    requires SessionOk(w)
    ensures CommandSent(id, command) in StepEndDialog(w, picked, sendOk).history
       <==> CommandSent(id, command) in w.history || Asks(w, EndDialog(picked, sendOk), id, command)
  {
    if w.openDialogs > 0 && w.session.Some? {
      SentByEffect(w.(openDialogs := w.openDialogs - 1), DialogEnded(w.session.value.state, picked, sendOk), id, command);
    }
  }

  lemma CancelSends(w: World, sendOk: bool, id: nat, command: Command)
    requires SessionOk(w)
    ensures CommandSent(id, command) in StepRequestCancel(w, sendOk).history
       <==> CommandSent(id, command) in w.history || Asks(w, RequestCancel(sendOk), id, command)
  {
    if w.session.Some? {
      SentByEffect(w, CancelRequested(w.session.value.state, sendOk), id, command);
    }
  }

  /** A step sends exactly what the user asks for with it. */
  lemma StepSends(w: World, step: Step, id: nat, command: Command)
    requires SessionOk(w)
    ensures CommandSent(id, command) in Apply(w, step).history
       <==> CommandSent(id, command) in w.history || Asks(w, step, id, command)
  {
    match step
    case EndDialog(picked, sendOk) => DialogSends(w, picked, sendOk, id, command);
    case RequestCancel(sendOk) => CancelSends(w, sendOk, id, command);
    case _ =>
  }

  lemma AsksAtFront(steps: seq<Step>, n: nat, k: nat, id: nat, command: Command)
    requires |steps| == n + 1 && k < n
    ensures AsksAt(steps[..n], k, id, command) <==> AsksAt(steps, k, id, command)
  {
    assert steps[..n][..k] == steps[..k];
  }

  lemma AskedPush(steps: seq<Step>, n: nat, id: nat, command: Command)
    requires |steps| == n + 1
    ensures AskedIn(steps, id, command) <==> AskedIn(steps[..n], id, command) || AsksAt(steps, n, id, command)
  {
    if AskedIn(steps, id, command) {
      var k: nat :| AsksAt(steps, k, id, command);
      if k < n {
        AsksAtFront(steps, n, k, id, command);
      }
    }
    if AskedIn(steps[..n], id, command) {
      var k: nat :| AsksAt(steps[..n], k, id, command);
      AsksAtFront(steps, n, k, id, command);
    }
  }

  /**
    In every run, a command was sent to a launch if and only if the user asked for it: a path was picked
    while its session waited for one, or its session was cancelled before it was stopping.
  */
  lemma {:induction false} CommandsAreAskedFor(steps: seq<Step>, id: nat, command: Command)
    ensures CommandSent(id, command) in Run(steps).history <==> AskedIn(steps, id, command)
    decreases |steps|
  {
    if steps != [] {
      var n := |steps| - 1;
      CommandsAreAskedFor(steps[..n], id, command);
      RunKeeps(steps[..n]);
      StepSends(Run(steps[..n]), steps[n], id, command);
      AskedPush(steps, n, id, command);
    }
  }

  /** The user is told that a trace was saved to a path only after having picked that path for that session. */
  lemma SavedWherePicked(steps: seq<Step>, id: nat, path: string)
    requires UserTold(id, SavedTo(path)) in Run(steps).history
    ensures exists k :: 0 <= k < |steps| && PicksPath(Run(steps[..k]), steps[k], id, path)
  {
    var k :| 0 <= k < |Run(steps).history| && Run(steps).history[k] == UserTold(id, SavedTo(path));
    ReportsAreTrue(steps, k);
    CommandsAreAskedFor(steps, id, Save(path));
    var m: nat :| AsksAt(steps, m, id, Save(path));
    assert PicksPath(Run(steps[..m]), steps[m], id, path);
  }

  /** And that a recording was cancelled only after having cancelled that session. */
  lemma CancelledWhereAsked(steps: seq<Step>, id: nat)
    requires UserTold(id, RecordingCancelled) in Run(steps).history
    ensures exists k :: 0 <= k < |steps| && Cancels(Run(steps[..k]), steps[k], id)
  {
    var k :| 0 <= k < |Run(steps).history| && Run(steps).history[k] == UserTold(id, RecordingCancelled);
    ReportsAreTrue(steps, k);
    CommandsAreAskedFor(steps, id, Cancel);
    var m: nat :| AsksAt(steps, m, id, Cancel);
    assert Cancels(Run(steps[..m]), steps[m], id);
  }

  // ----- when no session is lost -----

  /** The step stores a session: the launch it belongs to has just succeeded. */
  predicate Stores(w: World, step: Step)
  {
    step.StoreSession? && step.id < |w.links| && w.links[step.id].task.Launched?
  }

  /** The step drops the handle of a session other than the one whose task it ends. */
  predicate Loses(w: World, step: Step)
  {
    && w.session.Some?
    && (|| Stores(w, step)
        || (step.EndSession? && step.id < |w.links| && w.links[step.id].task.Received?
            && step.id != w.session.value.id))
  }

  predicate NoSessionIsLost(steps: seq<Step>)
  {
    steps != [] ==>
      NoSessionIsLost(steps[..|steps| - 1]) && !Loses(Run(steps[..|steps| - 1]), steps[|steps| - 1])
  }

  /** Whenever a session is stored, none is stored already. */
  predicate StoresFindNone(steps: seq<Step>)
  {
    steps != [] ==>
      var before := Run(steps[..|steps| - 1]);
      StoresFindNone(steps[..|steps| - 1]) && (Stores(before, steps[|steps| - 1]) ==> before.session.None?)
  }

  /** An unfinished session is the stored one. */
  predicate Owned(w: World)
  {
    forall i :: 0 <= i < |w.links| && IsLive(w.links[i]) ==> w.session.Some? && w.session.value.id == i
  }

  /** A step that changes one launch without making it live. */
  lemma LinkChangeKeepsOwned(w: World, id: nat, link: Link)
    requires Owned(w) && id < |w.links| && (IsLive(link) ==> IsLive(w.links[id]))
    ensures Owned(SetLink(w, id, link))
  {
  }

  lemma StoreKeepsOwned(w: World, id: nat)
    requires SessionOk(w) && Owned(w) && id < |w.links|
    requires w.links[id].task.Launched? ==> w.session.None?
    ensures Owned(StepStoreSession(w, id))
  {
  }

  lemma EndKeepsOwned(w: World, id: nat)
    requires SessionOk(w) && Owned(w) && id < |w.links|
    ensures Owned(StepEndSession(w, id))
  {
  }

  lemma EditorStepKeepsOwned(w: World, step: Step)
    requires SessionOk(w) && Owned(w)
    requires step.Start? || step.Prompt? || step.EndDialog? || step.RequestCancel?
    ensures Owned(Apply(w, step))
  {
  }

  lemma ApplyKeepsOwned(w: World, step: Step)
    requires SessionOk(w) && Owned(w) && (Stores(w, step) ==> w.session.None?)
    ensures Owned(Apply(w, step))
  {
    if step.Start? || step.Prompt? || step.EndDialog? || step.RequestCancel? {
      EditorStepKeepsOwned(w, step);
    } else if step.id < |w.links| {
      if step.StoreSession? {
        StoreKeepsOwned(w, step.id);
      } else if step.EndSession? {
        EndKeepsOwned(w, step.id);
      } else {
        LinkChangeKeepsOwned(w, step.id, Apply(w, step).links[step.id]);
      }
    }
  }

  lemma {:induction false} RunKeepsOwned(steps: seq<Step>)
    requires StoresFindNone(steps)
    ensures Owned(Run(steps))
    decreases |steps|
  {
    if steps != [] {
      var front := steps[..|steps| - 1];
      RunKeeps(front);
      RunKeepsOwned(front);
      ApplyKeepsOwned(Run(front), steps[|steps| - 1]);
    }
  }

  /**
    In a run no session is lost, neither by storing another one nor by the end of another one,
    exactly when every session that is stored finds the place empty.
  */
  lemma {:induction false} NoSessionIsLostExactly(steps: seq<Step>)
    ensures NoSessionIsLost(steps) <==> StoresFindNone(steps)
    decreases |steps|
  {
    if steps != [] {
      var front := steps[..|steps| - 1];
      NoSessionIsLostExactly(front);
      if StoresFindNone(front) {
        RunKeepsOwned(front);
      }
    }
  }

  /** Then a session's end clears that session, and no other one is left running. */
  lemma EndClearsOwnSession(steps: seq<Step>, id: nat)
    requires StoresFindNone(steps)
    requires id < |Run(steps).links| && Run(steps).links[id].task.Received?
    ensures Run(steps).session.Some? && Run(steps).session.value.id == id
    ensures Apply(Run(steps), EndSession(id)).session.None?
    ensures forall i :: 0 <= i < |Run(steps).links| && i != id ==> !IsLive(Run(steps).links[i])
  {
    RunKeepsOwned(steps);
  }

  // ----- a lost session stays lost -----

  /** The session of this launch was stored once, and is not stored any more. */
  predicate Lost(w: World, id: nat)
  {
    && id < |w.links| && (IsLive(w.links[id]) || w.links[id].task.Done?)
    && (w.session.Some? ==> w.session.value.id != id)
  }

  ghost predicate SameCommands(before: World, after: World, id: nat)
    requires id < |before.links| && id < |after.links|
  {
    && after.links[id].written == before.links[id].written
    && forall c :: CommandSent(id, c) in after.history <==> CommandSent(id, c) in before.history
  }

  lemma EditorStepKeepsLost(w: World, step: Step, id: nat)
    requires Lost(w, id)
    requires step.Start? || step.Prompt? || step.EndDialog? || step.RequestCancel?
    ensures Lost(Apply(w, step), id) && SameCommands(w, Apply(w, step), id)
  {
  }

  lemma StoredOrEndedKeepsLost(w: World, step: Step, id: nat)
    requires Lost(w, id) && (step.StoreSession? || step.EndSession?)
    ensures Lost(Apply(w, step), id) && SameCommands(w, Apply(w, step), id)
  {
  }

  lemma ApplyKeepsLost(w: World, step: Step, id: nat)
    requires Lost(w, id)
    ensures Lost(Apply(w, step), id) && SameCommands(w, Apply(w, step), id)
  {
    if step.Start? || step.Prompt? || step.EndDialog? || step.RequestCancel? {
      EditorStepKeepsLost(w, step, id);
    } else if step.StoreSession? || step.EndSession? {
      StoredOrEndedKeepsLost(w, step, id);
    }
  }

  lemma {:induction false} RunKeepsLost(steps: seq<Step>, more: seq<Step>, id: nat)
    requires Lost(Run(steps), id)
    ensures Lost(Run(steps + more), id) && SameCommands(Run(steps), Run(steps + more), id)
    decreases |more|
  {
    if more == [] {
      assert steps + more == steps;
    } else {
      var n := |more| - 1;
      RunKeepsLost(steps, more[..n], id);
      assert steps + more == steps + more[..n] + [more[n]];
      RunPush(steps + more[..n], more[n]);
      ApplyKeepsLost(Run(steps + more[..n]), more[n], id);
    }
  }

  lemma LosingStepLoses(w: World, step: Step)
    requires SessionOk(w) && Loses(w, step)
    ensures Lost(Apply(w, step), w.session.value.id) && SameCommands(w, Apply(w, step), w.session.value.id)
  {
  }

  /** Once a session is lost, no later step of any run stores it again or writes to it. */
  lemma LostSessionStaysLost(steps: seq<Step>, step: Step, more: seq<Step>)
    requires Loses(Run(steps), step)
    ensures var w, later := Run(steps), Run(steps + [step] + more);
            var id := w.session.value.id;
            && id < |w.links| && Lost(later, id) && SameCommands(w, later, id)
  {
    RunKeeps(steps);
    RunPush(steps, step);
    LosingStepLoses(Run(steps), step);
    RunKeepsLost(steps + [step], more, Run(steps).session.value.id);
  }

  /** A lost session that was sent nothing and whose child waits for a command. */
  predicate RecordsOn(w: World, id: nat)
  {
    && Lost(w, id) && w.links[id].task.Waiting? && w.links[id].written == []
    && w.links[id].child.phase.Listening? && w.links[id].statusesRead == |w.links[id].child.sent|
  }

  lemma ApplyRecordsOn(w: World, step: Step, id: nat)
    requires RecordsOn(w, id) && step != ChildReads(id, false) && step != ReadFinalStatus(id, false)
    ensures RecordsOn(Apply(w, step), id) && Apply(w, step).links[id].child == w.links[id].child
  {
  }

  /** Its child records on for ever, and its task waits for ever, unless one of their reads fails. */
  lemma {:induction false} LostChildRecordsOn(steps: seq<Step>, more: seq<Step>, id: nat)
    requires RecordsOn(Run(steps), id)
    requires ChildReads(id, false) !in more && ReadFinalStatus(id, false) !in more
    ensures RecordsOn(Run(steps + more), id) && Run(steps + more).links[id].child == Run(steps).links[id].child
    decreases |more|
  {
    if more == [] {
      assert steps + more == steps;
    } else {
      var n := |more| - 1;
      assert more[n] in more;
      LostChildRecordsOn(steps, more[..n], id);
      assert steps + more == steps + more[..n] + [more[n]];
      RunPush(steps + more[..n], more[n]);
      ApplyRecordsOn(Run(steps + more[..n]), more[n], id);
    }
  }

  // ----- launches that do not overlap -----

  predicate IsOver(link: Link)
  {
    link.task.LaunchFailed? || link.task.Done?
  }

  /** A recording is only started once the tasks of all earlier launches are over. */
  predicate LaunchesDoNotOverlap(steps: seq<Step>)
  {
    steps != [] ==>
      var before := Run(steps[..|steps| - 1]);
      && LaunchesDoNotOverlap(steps[..|steps| - 1])
      && (steps[|steps| - 1].Start? && before.session.None? ==>
            forall i :: 0 <= i < |before.links| ==> IsOver(before.links[i]))
  }

  predicate OnlyLastRuns(w: World)
  {
    forall i :: 0 <= i < |w.links| - 1 ==> IsOver(w.links[i])
  }

  lemma ApplyKeepsOnlyLast(w: World, step: Step)
    requires OnlyLastRuns(w)
    requires step.Start? && w.session.None? ==> forall i :: 0 <= i < |w.links| ==> IsOver(w.links[i])
    ensures OnlyLastRuns(Apply(w, step))
  {
  }

  lemma StoreOfLastFindsNone(w: World, step: Step)
    requires SessionOk(w) && OnlyLastRuns(w) && Stores(w, step)
    ensures w.session.None?
  {
  }

  /** Launches that do not overlap are one way to lose no session. */
  lemma {:induction false} NonOverlappingLosesNone(steps: seq<Step>)
    requires LaunchesDoNotOverlap(steps)
    ensures OnlyLastRuns(Run(steps)) && StoresFindNone(steps)
    decreases |steps|
  {
    if steps != [] {
      var front := steps[..|steps| - 1];
      NonOverlappingLosesNone(front);
      RunKeeps(front);
      ApplyKeepsOnlyLast(Run(front), steps[|steps| - 1]);
      if Stores(Run(front), steps[|steps| - 1]) {
        StoreOfLastFindsNone(Run(front), steps[|steps| - 1]);
      }
    }
  }

  lemma RunPush(steps: seq<Step>, step: Step)
    ensures Run(steps + [step]) == Apply(Run(steps), step)
  {
  }

  lemma RunTwo(steps: seq<Step>, first: Step, second: Step)
    ensures Run(steps + [first, second]) == Apply(Apply(Run(steps), first), second)
  {
    RunPush(steps, first);
    RunPush(steps + [first], second);
    Associative(steps, [first], [second]);
    assert [first] + [second] == [first, second];
  }

  /** Two launches that both start before either session is stored. */
  const BOTH_STARTED: seq<Step> :=
    [Start, Start] + [ChildPrepares(0, RecordingStarted), ChildAnnounces(0, true)]
    + [ChildPrepares(1, RecordingStarted), ChildAnnounces(1, true)]

  const BOTH_LAUNCHED: seq<Step> := BOTH_STARTED + [ReadLaunchStatus(0, true), ReadLaunchStatus(1, true)]

  const BOTH_STORED: seq<Step> := BOTH_LAUNCHED + [StoreSession(0), StoreSession(1)]

  const OVERLAPPING: seq<Step> := BOTH_STORED + [ReadFinalStatus(0, false), EndSession(0)]

  const STARTED_CHILD := Child(Listening, [LeftoverCancel, StartOk], [Started])

  function Twice(link: Link): World
  {
    World(None, 0, [link, link], [])
  }

  const FRESH_LINK := Link(Launching, [], true, NEW_CHILD, 0)
  const STARTED_LINK := Link(Launching, [], true, STARTED_CHILD, 0)

  lemma ChildStarts()
    ensures Announced(Prepared(NEW_CHILD, RecordingStarted), true) == STARTED_CHILD
  {
    assert [] + [LeftoverCancel, StartOk] == [LeftoverCancel, StartOk];
    assert [] + [Started] == [Started];
  }

  const LAUNCHED_LINK := Link(Launched, [], true, STARTED_CHILD, 1)
  const STORED_LINK := Link(Waiting, [], true, STARTED_CHILD, 1)
  const LOST_LINK := Link(Waiting, [], false, STARTED_CHILD, 1)

  function Pair(session: Option<Handle>, first: Link, second: Link): World
  {
    World(session, 0, [first, second], [])
  }

  /** The steps of the run on the worlds they lead to. */
  lemma FreshWorlds()
    ensures Apply(Apply(INITIAL, Start), Start) == Twice(FRESH_LINK)
  {
    assert Apply(Apply(INITIAL, Start), Start).links == [FRESH_LINK, FRESH_LINK];
  }

  lemma StartedWorlds()
    ensures Apply(Apply(Twice(FRESH_LINK), ChildPrepares(0, RecordingStarted)), ChildAnnounces(0, true))
         == Pair(None, STARTED_LINK, FRESH_LINK)
    ensures Apply(Apply(Pair(None, STARTED_LINK, FRESH_LINK), ChildPrepares(1, RecordingStarted)), ChildAnnounces(1, true))
         == Twice(STARTED_LINK)
  {
    ChildStarts();
  }

  lemma LaunchedWorlds()
    ensures Apply(Apply(Twice(STARTED_LINK), ReadLaunchStatus(0, true)), ReadLaunchStatus(1, true)) == Twice(LAUNCHED_LINK)
  {
  }

  lemma StoredWorlds()
    ensures Apply(Apply(Twice(LAUNCHED_LINK), StoreSession(0)), StoreSession(1))
         == Pair(Some(Handle(1, Recording)), LOST_LINK, STORED_LINK)
  {
    assert Apply(Twice(LAUNCHED_LINK), StoreSession(0)) == Pair(Some(Handle(0, Recording)), STORED_LINK, LAUNCHED_LINK);
  }

  lemma EndedWorlds()
    ensures var w := Pair(Some(Handle(1, Recording)), LOST_LINK, STORED_LINK);
            var after := Apply(Apply(w, ReadFinalStatus(0, false)), EndSession(0));
            after.session.None? && |after.links| == 2 && after.links[1] == LOST_LINK
  {
  }

  lemma ChildrenOfBothLaunches()
    ensures Run(BOTH_STARTED) == Twice(STARTED_LINK)
  {
    FreshWorlds();
    StartedWorlds();
    RunTwo([], Start, Start);
    assert [] + [Start, Start] == [Start, Start];
    RunTwo([Start, Start], ChildPrepares(0, RecordingStarted), ChildAnnounces(0, true));
    RunTwo([Start, Start] + [ChildPrepares(0, RecordingStarted), ChildAnnounces(0, true)],
           ChildPrepares(1, RecordingStarted), ChildAnnounces(1, true));
  }

  lemma BothLaunched()
    ensures Run(BOTH_LAUNCHED) == Twice(LAUNCHED_LINK)
  {
    ChildrenOfBothLaunches();
    RunTwo(BOTH_STARTED, ReadLaunchStatus(0, true), ReadLaunchStatus(1, true));
    LaunchedWorlds();
  }

  lemma BothStored()
    ensures Run(BOTH_STORED) == Pair(Some(Handle(1, Recording)), LOST_LINK, STORED_LINK)
  {
    BothLaunched();
    RunTwo(BOTH_LAUNCHED, StoreSession(0), StoreSession(1));
    StoredWorlds();
  }

  lemma AfterOverlap()
    ensures var w := Run(OVERLAPPING);
            w.session.None? && |w.links| == 2 && w.links[1] == LOST_LINK
  {
    BothStored();
    RunTwo(BOTH_STORED, ReadFinalStatus(0, false), EndSession(0));
    EndedWorlds();
  }

  /**
    Overlapping launches can lose a session: session 1 is stored over session 0, and the end of
    session 0 then clears session 1, which is still recording and can neither be saved nor be
    cancelled any more.
  */
  lemma OverlappingLaunchesLoseASession()
    ensures Run(OVERLAPPING).session.None? && |Run(OVERLAPPING).links| == 2
    ensures Run(OVERLAPPING).links[1] == LOST_LINK && RecordsOn(Run(OVERLAPPING), 1)
    ensures !NoSessionIsLost(OVERLAPPING) && !LaunchesDoNotOverlap(OVERLAPPING)
  {
    AfterOverlap();
    assert !Owned(Run(OVERLAPPING));
    NoSessionIsLostExactly(OVERLAPPING);
    if StoresFindNone(OVERLAPPING) {
      RunKeepsOwned(OVERLAPPING);
    }
    if LaunchesDoNotOverlap(OVERLAPPING) {
      NonOverlappingLosesNone(OVERLAPPING);
    }
  }
}
