/**
 * The conflict-resolution dialog: one decision session per file name. It
 * talks to other dialogs only through two topics of the signal bus, a cancel
 * topic on which newer dialogs supersede older ones, and a close topic on
 * which it publishes its one answer.
 *
 * The class `ConflictResolveModal` keeps the fields the dialog updates; the
 * pure functions `Step` and `Run` give the same behaviour on values, so that
 * races between clicks, cancel signals and closing can be stated as event
 * sequences; `Decision` is an independent reference for what a dialog answers.
 */
module ConflictResolve {
  import opened Wrappers
  import opened Signals
  import opened DiffRender

  /** A dialog's answer: a revision to keep, "concatenate both" (left to a later step), or cancelled. */
  datatype MergeResult = Revision(rev: string) | LeaveToSubsequent | Cancelled

  /** What the dialog publishes: a cancel flag, or its answer. */
  datatype Payload = Flag(flag: bool) | Answer(result: MergeResult)

  /** One side of the conflict. */
  datatype RevInfo = RevInfo(rev: string, mtime: int, deleted: bool)

  /** The two sides and the edit script between them. */
  datatype DiffResult = DiffResult(left: RevInfo, right: RevInfo, diff: seq<DiffOp>)

  /** A button of the dialog and the answer a click on it gives. */
  datatype Button = Button(text: string, response: MergeResult)

  const CancelPrefix: string := "cancel-resolve-conflict:"
  const ClosePrefix: string := "close-resolve-conflict:"

  function CancelTopic(filename: string): string { CancelPrefix + filename }
  function CloseTopic(filename: string): string { ClosePrefix + filename }

  /**
   * A dialog's two topics differ from each other and from the topics of every
   * other file name: dialogs for different files never write to each other's topics.
   */
  lemma {:induction false} TopicsSeparate(f1: string, f2: string)
    ensures CancelTopic(f1) != CloseTopic(f2)
    ensures CancelTopic(f1) == CancelTopic(f2) <==> f1 == f2
    ensures CloseTopic(f1) == CloseTopic(f2) <==> f1 == f2
  {
    assert CancelTopic(f1)[1] == 'a' && CloseTopic(f2)[1] == 'l';
    if CancelTopic(f1) == CancelTopic(f2) {
      assert f1 == CancelTopic(f1)[|CancelPrefix|..];
      assert f2 == CancelTopic(f2)[|CancelPrefix|..];
    }
    if CloseTopic(f1) == CloseTopic(f2) {
      assert f1 == CloseTopic(f1)[|ClosePrefix|..];
      assert f2 == CloseTopic(f2)[|ClosePrefix|..];
    }
  }

  // ----- Labels and buttons -----

  function Title(pluginPickMode: bool): string
  {
    if pluginPickMode then "Pick a version" else "Conflicting changes"
  }

  function LocalLabel(pluginPickMode: bool): string
  {
    if pluginPickMode then "Use Local" else "Keep A"
  }

  /** `Use ${remoteName || "Remote"}` in pick mode: an absent or empty name falls back to "Remote". */
  function RemoteLabel(pluginPickMode: bool, remoteName: Option<string>): string
  {
    if !pluginPickMode then "Keep B"
    else if remoteName == None || remoteName == Some("") then "Use Remote"
    else "Use " + remoteName.value
  }

  /**
   * The buttons the dialog shows, in order: keep the right (local) revision,
   * keep the left (remote) revision, "Concat both" outside pick mode, and a
   * last button that cancels.
   */
  function Buttons(pluginPickMode: bool, localName: string, remoteName: string, result: DiffResult): (bs: seq<Button>)
    ensures |bs| == if pluginPickMode then 3 else 4
    ensures bs[0] == Button(localName, Revision(result.right.rev))
    ensures bs[1] == Button(remoteName, Revision(result.left.rev))
    ensures bs[|bs| - 1] == Button(if pluginPickMode then "Cancel" else "Not now", Cancelled)
    ensures (exists i :: 0 <= i < |bs| && bs[i].response == LeaveToSubsequent) <==> !pluginPickMode
    ensures forall i :: 0 <= i < |bs| ==> bs[i].response != LeaveToSubsequent || bs[i].text == "Concat both"
  {
    var bs := [Button(localName, Revision(result.right.rev)), Button(remoteName, Revision(result.left.rev))]
              + (if !pluginPickMode then [Button("Concat both", LeaveToSubsequent)] else [])
              + [Button(if !pluginPickMode then "Not now" else "Cancel", Cancelled)];
    assert !pluginPickMode ==> bs[2].response == LeaveToSubsequent;
    bs
  }

  // ----- The decision session on values -----

  /** The dialog's own state, and whether its one-shot cancel listener is still waiting. */
  datatype Dialog = Dialog(response: MergeResult, consumed: bool, listening: bool)

  /** A dialog together with the shared bus. */
  datatype World = World(dialog: Dialog, bus: seq<Sent<Payload>>)

  /** What can happen to an open dialog. */
  datatype Event =
    | Click(choice: MergeResult)                 // a button is clicked
    | CancelDelivered(wake: WaitResult<bool>)    // the cancel listener's wait resolves
    | Close                                      // the dialog is closed by other means

  /** A constructed dialog, and one whose `onOpen` has armed the cancel listener. */
  const Constructed: Dialog := Dialog(Cancelled, false, false)
  const Opened: Dialog := Dialog(Cancelled, false, true)

  /** `if (forceClose)`: a delivered `true` is truthy, and so is the timeout sentinel. */
  predicate ForcesClose(w: WaitResult<bool>)
  {
    w.TimedOut? || w.value
  }

  /** `onClose`: the first close publishes the answer, then clears the cancel flag; later closes do nothing. */
  function CloseStep(filename: string, w: World): (w': World)
    ensures w'.dialog == w.dialog.(consumed := true)
    ensures w.dialog.consumed ==> w'.bus == w.bus
    ensures !w.dialog.consumed ==>
              w'.bus == w.bus + [Sent(CloseTopic(filename), Answer(w.dialog.response)),
                                 Sent(CancelTopic(filename), Flag(false))]
  {
    if w.dialog.consumed then w
    else
      World(w.dialog.(consumed := true),
            w.bus + [Sent(CloseTopic(filename), Answer(w.dialog.response)),
                     Sent(CancelTopic(filename), Flag(false))])
  }

  /** `sendResponse(r)`: record the answer, then close. */
  function Respond(filename: string, w: World, r: MergeResult): World
  {
    CloseStep(filename, w.(dialog := w.dialog.(response := r)))
  }

  /** One event applied to a dialog and the bus. */
  function Step(filename: string, w: World, e: Event): World
  {
    match e
    case Click(r) => Respond(filename, w, r)
    case Close => CloseStep(filename, w)
    case CancelDelivered(x) =>
      if !w.dialog.listening then w
      else
        var w1 := w.(dialog := w.dialog.(listening := false));
        if ForcesClose(x) then Respond(filename, w1, Cancelled) else w1
  }

  /** A sequence of events applied in order. */
  function Run(filename: string, w: World, events: seq<Event>): World
    decreases |events|
  {
    if events == [] then w else Run(filename, Step(filename, w, events[0]), events[1..])
  }

  /**
   * Reference: the answer a dialog in state `d` publishes under `events`, if
   * any. Decided by the first event that closes it: a click gives the clicked
   * answer, a close gives the recorded response, and the first delivery to
   * the cancel listener cancels when it is truthy and otherwise retires it.
   */
  function Decision(d: Dialog, events: seq<Event>): Option<MergeResult>
    decreases |events|
  {
    if d.consumed || events == [] then None
    else
      match events[0]
      case Click(r) => Some(r)
      case Close => Some(d.response)
      case CancelDelivered(x) =>
        if !d.listening then Decision(d, events[1..])
        else if ForcesClose(x) then Some(Cancelled)
        else Decision(d.(listening := false), events[1..])
  }

  /** What the bus gains from a run, given what the dialog decided. */
  function Published(filename: string, decision: Option<MergeResult>): seq<Sent<Payload>>
  {
    match decision
    case None => []
    case Some(r) => [Sent(CloseTopic(filename), Answer(r)), Sent(CancelTopic(filename), Flag(false))]
  }

  /** Once consumed, no event publishes anything more, and the dialog stays consumed. */
  lemma {:induction false} ConsumedIsSilent(filename: string, w: World, events: seq<Event>)
    requires w.dialog.consumed
    ensures Run(filename, w, events).bus == w.bus
    ensures Run(filename, w, events).dialog.consumed
    decreases |events|
  {
    if events != [] {
      ConsumedIsSilent(filename, Step(filename, w, events[0]), events[1..]);
    }
  }

  /**
   * The whole effect of a run on the bus: exactly the decided answer on the
   * close topic followed by `false` on the cancel topic, or nothing when no
   * event decided.
   */
  lemma {:induction false} RunPublishesDecision(filename: string, w: World, events: seq<Event>)
    ensures Run(filename, w, events).bus == w.bus + Published(filename, Decision(w.dialog, events))
    ensures Run(filename, w, events).dialog.consumed
            <==> w.dialog.consumed || Decision(w.dialog, events).Some?
    decreases |events|
  {
    if w.dialog.consumed {
      ConsumedIsSilent(filename, w, events);
      assert w.bus + [] == w.bus;
    } else if events == [] {
      assert w.bus + [] == w.bus;
    } else {
      var w' := Step(filename, w, events[0]);
      match events[0]
      case Click(r) =>
        ConsumedIsSilent(filename, w', events[1..]);
      case Close =>
        ConsumedIsSilent(filename, w', events[1..]);
      case CancelDelivered(x) =>
        if !w.dialog.listening {
          RunPublishesDecision(filename, w', events[1..]);
        } else if ForcesClose(x) {
          ConsumedIsSilent(filename, w', events[1..]);
        } else {
          RunPublishesDecision(filename, w', events[1..]);
        }
    }
  }

  /** A dialog publishes on its close topic at most once, whatever happens to it. */
  lemma {:induction false} AtMostOneAnswer(filename: string, w: World, events: seq<Event>)
    ensures |History(Run(filename, w, events).bus, CloseTopic(filename))|
            <= |History(w.bus, CloseTopic(filename))| + 1
  {
    RunPublishesDecision(filename, w, events);
    var p := Published(filename, Decision(w.dialog, events));
    HistoryAppend(w.bus, p, CloseTopic(filename));
    if p != [] {
      TopicsSeparate(filename, filename);
      assert p == [p[0]] + [p[1]];
      HistoryAppend([p[0]], [p[1]], CloseTopic(filename));
      assert [p[0]][..0] == [] && [p[1]][..0] == [];
    }
  }

  /** A run touches only the dialog's own two topics: every other topic, those of other files included, is unchanged. */
  lemma {:induction false} RunLeavesOtherTopics(filename: string, w: World, events: seq<Event>, t: string)
    requires t != CloseTopic(filename) && t != CancelTopic(filename)
    ensures History(Run(filename, w, events).bus, t) == History(w.bus, t)
  {
    RunPublishesDecision(filename, w, events);
    HistoryIgnoresOtherTopics(w.bus, Published(filename, Decision(w.dialog, events)), t);
  }

  /** In particular a dialog never writes to the topics of a dialog for another file. */
  lemma {:induction false} OtherFilesUntouched(filename: string, other: string, w: World, events: seq<Event>)
    requires other != filename
    ensures History(Run(filename, w, events).bus, CloseTopic(other)) == History(w.bus, CloseTopic(other))
    ensures History(Run(filename, w, events).bus, CancelTopic(other)) == History(w.bus, CancelTopic(other))
  {
    TopicsSeparate(filename, other);
    TopicsSeparate(other, filename);
    RunLeavesOtherTopics(filename, w, events, CloseTopic(other));
    RunLeavesOtherTopics(filename, w, events, CancelTopic(other));
  }

  /**
   * Without a click the only answer an opened dialog can give is cancelled;
   * and if it is closed at all, that answer is given.
   */
  lemma {:induction false} NoClickMeansCancelled(d: Dialog, events: seq<Event>)
    requires d.response == Cancelled
    requires forall i :: 0 <= i < |events| ==> !events[i].Click?
    ensures Decision(d, events) == None || Decision(d, events) == Some(Cancelled)
    ensures !d.consumed && Close in events ==> Decision(d, events) == Some(Cancelled)
    decreases |events|
  {
    if !d.consumed && events != [] && events[0].CancelDelivered? {
      var d' := d.(listening := false);
      assert Close in events ==> events[0] == Close || Close in events[1..];
      NoClickMeansCancelled(d', events[1..]);
      if !d.listening {
        NoClickMeansCancelled(d, events[1..]);
      }
    }
  }

  /**
   * A freshly opened dialog that is closed without any click publishes
   * CANCELLED on its close topic, and then `false` on its cancel topic.
   */
  lemma {:induction false} UnansweredCloseIsCancelled(filename: string, bus: seq<Sent<Payload>>, events: seq<Event>)
    requires forall i :: 0 <= i < |events| ==> !events[i].Click?
    requires Close in events
    ensures Run(filename, World(Opened, bus), events).bus
            == bus + [Sent(CloseTopic(filename), Answer(Cancelled)), Sent(CancelTopic(filename), Flag(false))]
  {
    NoClickMeansCancelled(Opened, events);
    RunPublishesDecision(filename, World(Opened, bus), events);
  }

  /**
   * Supersede: when the first thing an opened dialog's cancel listener
   * receives is truthy (the `true` of a newer dialog for the same file) and
   * nothing closed the dialog before, it publishes cancelled, whatever is
   * clicked afterwards.
   */
  lemma {:induction false} SupersededDialogCancels(filename: string, w: World, wake: WaitResult<bool>, after: seq<Event>)
    requires !w.dialog.consumed && w.dialog.listening && ForcesClose(wake)
    ensures Run(filename, w, [CancelDelivered(wake)] + after).bus
            == w.bus + [Sent(CloseTopic(filename), Answer(Cancelled)), Sent(CancelTopic(filename), Flag(false))]
  {
    var events := [CancelDelivered(wake)] + after;
    assert events[0] == CancelDelivered(wake);
    RunPublishesDecision(filename, w, events);
  }

  /**
   * The listener waits once: a falsy first wake retires it, and from then on
   * the dialog ignores every cancel signal, a later superseding `true` included.
   */
  lemma {:induction false} FalsyWakeRetiresListener(d: Dialog, wake: WaitResult<bool>, after: seq<Event>)
    requires !d.consumed && d.listening && !ForcesClose(wake)
    ensures Decision(d, [CancelDelivered(wake)] + after) == Decision(d.(listening := false), Filter(after))
  {
    var events := [CancelDelivered(wake)] + after;
    assert events[0] == CancelDelivered(wake) && events[1..] == after;
    NotListeningIgnoresCancels(d.(listening := false), after);
  }

  /** A dialog whose listener is retired ignores every cancel delivery. */
  lemma {:induction false} NotListeningIgnoresCancels(d: Dialog, events: seq<Event>)
    requires !d.listening
    ensures Decision(d, events) == Decision(d, Filter(events))
    decreases |events|
  {
    if !d.consumed && events != [] {
      NotListeningIgnoresCancels(d, events[1..]);
      if events[0].CancelDelivered? {
        assert Filter(events) == Filter(events[1..]);
      } else {
        assert Filter(events)[0] == events[0];
        assert Filter(events)[1..] == Filter(events[1..]);
      }
    }
  }

  /** The events other than cancel deliveries, in order. */
  function Filter(events: seq<Event>): (r: seq<Event>)
    ensures |r| <= |events|
    decreases |events|
  {
    if events == [] then []
    else if events[0].CancelDelivered? then Filter(events[1..])
    else [events[0]] + Filter(events[1..])
  }

  /** `waitForResult`: a timed-out wait counts as cancelled; anything else is passed on as it is. */
  function WaitForResult(w: WaitResult<MergeResult>): (r: MergeResult)
    ensures w.TimedOut? ==> r == Cancelled
    ensures w.Received? ==> r == w.value
  {
    if w.TimedOut? then Cancelled else w.value
  }

  /**
   * A waiter on a file's close topic obtains cancelled (on timeout), this
   * dialog's decided answer, or an answer that was already on the topic
   * before the run: one an earlier dialog for the same file published.
   */
  lemma {:induction false} WaiterSeesDecisionOrCancel(filename: string, w: World, events: seq<Event>, got: WaitResult<MergeResult>)
    requires got.Received? ==> Answer(got.value) in History(Run(filename, w, events).bus, CloseTopic(filename))
    ensures got.Received? ==> Decision(w.dialog, events) == Some(got.value)
                              || Answer(got.value) in History(w.bus, CloseTopic(filename))
    ensures got.TimedOut? ==> WaitForResult(got) == Cancelled
  {
    RunPublishesDecision(filename, w, events);
    var p := Published(filename, Decision(w.dialog, events));
    HistoryAppend(w.bus, p, CloseTopic(filename));
    if p != [] {
      TopicsSeparate(filename, filename);
      assert p == [p[0]] + [p[1]];
      HistoryAppend([p[0]], [p[1]], CloseTopic(filename));
      assert [p[0]][..0] == [] && [p[1]][..0] == [];
    }
  }

  /**
   * On a close topic nothing has been published on yet, so that only this
   * dialog publishes there, the waiter obtains the dialog's decided answer or
   * cancelled: never an answer the user did not give.
   */
  lemma {:induction false} WaiterOnFreshTopic(filename: string, w: World, events: seq<Event>, got: WaitResult<MergeResult>)
    requires History(w.bus, CloseTopic(filename)) == []
    requires got.Received? ==> Answer(got.value) in History(Run(filename, w, events).bus, CloseTopic(filename))
    ensures WaitForResult(got) == Cancelled || Decision(w.dialog, events) == Some(WaitForResult(got))
  {
    WaiterSeesDecisionOrCancel(filename, w, events, got);
  }

  // ----- The dialog as an object -----

  class ConflictResolveModal {
    const bus: SignalBus<Payload>
    const result: DiffResult
    const filename: string
    const pluginPickMode: bool
    const title: string
    const localName: string
    const remoteName: string

    var response: MergeResult
    var consumed: bool
    /** The cancel listener registered by `OnOpen` has not yet been woken. */
    ghost var listening: bool

    /** The dialog's state together with the bus, as the pure model sees it. */
    ghost function Snapshot(): World
      reads this, bus
    {
      World(Dialog(response, consumed, listening), bus.log)
    }

    /** Construction: fixes the labels and supersedes any older dialog for the same file. */
    constructor (bus: SignalBus<Payload>, filename: string, diff: DiffResult,
                 pluginPickMode: bool, remoteName: Option<string>)
      modifies bus
      ensures this.bus == bus && this.filename == filename && this.result == diff
      ensures this.pluginPickMode == pluginPickMode
      ensures title == Title(pluginPickMode) && localName == LocalLabel(pluginPickMode)
      ensures this.remoteName == RemoteLabel(pluginPickMode, remoteName)
      ensures Dialog(response, consumed, listening) == Constructed
      ensures bus.log == old(bus.log) + [Sent(CancelTopic(filename), Flag(true))]
    {
      this.bus := bus;
      this.result := diff;
      this.filename := filename;
      this.pluginPickMode := pluginPickMode;
      this.title := Title(pluginPickMode);
      this.localName := LocalLabel(pluginPickMode);
      this.remoteName := RemoteLabel(pluginPickMode, remoteName);
      this.response := Cancelled;
      this.consumed := false;
      this.listening := false;
      new;
      bus.SendValue(CancelTopic(filename), Flag(true));
    }

    /**
     * `onOpen`: supersede again, arm the one-shot cancel listener, and give
     * the rendered diff and the buttons.
     */
    method OnOpen(escape: string -> string) returns (diffHtml: string, buttons: seq<Button>)
      modifies this, bus
      ensures bus.log == old(bus.log) + [Sent(CancelTopic(filename), Flag(true))]
      ensures response == old(response) && consumed == old(consumed) && listening
      ensures diffHtml == Rendered(result.diff, escape)
      ensures buttons == Buttons(pluginPickMode, localName, remoteName, result)
    {
      bus.SendValue(CancelTopic(filename), Flag(true));
      listening := true;
      diffHtml := RenderDiff(result.diff, escape);
      buttons := Buttons(pluginPickMode, localName, remoteName, result);
    }

    /** The cancel listener's wait resolved with `forceClose`. */
    method OnCancelSignal(forceClose: WaitResult<bool>)
      requires listening
      modifies this, bus
      ensures Snapshot() == Step(filename, old(Snapshot()), CancelDelivered(forceClose))
    {
      listening := false;
      if ForcesClose(forceClose) {
        SendResponse(Cancelled);
      }
    }

    /** A click on a button: record its answer and close. */
    method SendResponse(r: MergeResult)
      modifies this, bus
      ensures Snapshot() == Step(filename, old(Snapshot()), Click(r))
    {
      response := r;
      OnClose();
    }

    /** `onClose`: publish the answer and clear the cancel flag, the first time only. */
    method OnClose()
      modifies this, bus
      ensures Snapshot() == Step(filename, old(Snapshot()), Close)
      ensures old(consumed) ==> bus.log == old(bus.log)
      ensures !old(consumed) ==>
                bus.log == old(bus.log) + [Sent(CloseTopic(filename), Answer(response)),
                                           Sent(CancelTopic(filename), Flag(false))]
    {
      if consumed {
        return;
      }
      consumed := true;
      bus.SendValue(CloseTopic(filename), Answer(response));
      bus.SendValue(CancelTopic(filename), Flag(false));
    }
  }

  /**
   * The supersede scenario: a second dialog for the same file is constructed
   * while the first is open; the first dialog's listener wakes with the newer
   * dialog's `true` and the first dialog answers cancelled; a late click on
   * it publishes nothing.
   */
  method SupersedeScenario(bus: SignalBus<Payload>, filename: string, older: DiffResult, newer: DiffResult,
                           escape: string -> string)
    modifies bus
    ensures History(bus.log, CloseTopic(filename)) == History(old(bus.log), CloseTopic(filename)) + [Answer(Cancelled)]
  {
    var first := new ConflictResolveModal(bus, filename, older, false, None);
    var _, _ := first.OnOpen(escape);
    var second := new ConflictResolveModal(bus, filename, newer, false, None);
    ghost var superseding := bus.log;
    // the first dialog's listener wakes with the `true` the second one published
    first.OnCancelSignal(Received(true));
    ghost var answered := bus.log;
    first.SendResponse(Revision(newer.right.rev));
    assert bus.log == answered;
    TopicsSeparate(filename, filename);
    ghost var cancels := [Sent(CancelTopic(filename), Flag(true)), Sent(CancelTopic(filename), Flag(true)),
                          Sent(CancelTopic(filename), Flag(true))];
    assert superseding == old(bus.log) + cancels;
    HistoryIgnoresOtherTopics(old(bus.log), cancels, CloseTopic(filename));
    ghost var closing := [Sent(CloseTopic(filename), Answer(Cancelled)), Sent(CancelTopic(filename), Flag(false))];
    assert answered == superseding + closing;
    HistoryAppend(superseding, closing, CloseTopic(filename));
    assert closing == [closing[0]] + [closing[1]];
    HistoryAppend([closing[0]], [closing[1]], CloseTopic(filename));
    assert [closing[0]][..0] == [] && [closing[1]][..0] == [];
  }
}
