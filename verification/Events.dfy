/**
 Who closes the events channel, and when (tun_linux.go). A device has two
 listeners, which exist only when it is monitored, and any number of calls to
 Close. The listeners and the calls take steps in any order.
 */
module Events {
  datatype Event = EventUp | EventDown | EventMTUUpdate

  /** routineHackListener. */
  datatype HackListener = Probing | Sending(event: Event) | Waiting | Unlocking | HackGone

  /** routineNetlinkListener, its deferred function included. */
  datatype NetlinkListener =
    | Receiving
    | Checking(received: seq<Event>)
    | Delivering(pending: seq<Event>)
    | Reporting
    | Locking
    | ClosingEvents
    | NetlinkGone

  /** One call to Close. */
  datatype Caller = Calling | ClosingShutdown | Cancelling | ClosingChannel | ClosingFile | Returned

  /** closeOnce. */
  datatype Once = Unused | Busy | Used

  /** The capacity of the events channel and of the errors channel. */
  const CHANNEL_SIZE := 5

  datatype State = State(
    monitored: bool,
    hack: HackListener,
    last: seq<Event>,
    netlink: NetlinkListener,
    callers: seq<Caller>,
    once: Once,
    mutexHeld: bool,
    shutdown: bool,
    eventsClosed: bool,
    buffered: nat,
    reported: nat,
    panicked: bool
  )

  datatype Action =
    | Probe(answer: seq<Event>)
    | HackSend
    | Timer
    | HackShutdown
    | HackUnlock
    | Receive(received: seq<Event>)
    | ReceiveFails
    | Report
    | Check
    | NetlinkSend
    | Lock
    | NetlinkClose
    | TakeEvent
    | TakeError
    | CallClose
    | EnterOnce(c: nat)
    | SkipOnce(c: nat)
    | CloseShutdown(c: nat)
    | Cancel(c: nat)
    | CallerClose(c: nat)
    | CloseFile(c: nat)

  /** CreateTUNFromFile locks the mutex before it starts the listeners; an unmonitored device has neither. */
  function Start(monitored: bool): State {
    State(monitored, if monitored then Probing else HackGone, [], if monitored then Receiving else NetlinkGone, [],
          Unused, monitored, false, false, 0, 0, false)
  }

  predicate CallerAt(s: State, c: nat, at: Caller) {
    c < |s.callers| && s.callers[c] == at
  }

  /** A send waits while the buffer of the channel is full; on a closed channel it panics at once. */
  predicate CanSend(s: State) {
    s.eventsClosed || s.buffered < CHANNEL_SIZE
  }

  /** When a thread can take a step. A system call can fail at any time, whether or not Close has cancelled it. */
  predicate Enabled(s: State, a: Action) {
    !s.panicked &&
    match a
    case Probe(answer) => s.hack == Probing && (answer == [] || answer == [EventUp] || answer == [EventDown])
    case HackSend => s.hack.Sending? && CanSend(s)
    case Timer => s.hack == Waiting
    case HackShutdown => s.hack == Waiting && s.shutdown
    case HackUnlock => s.hack == Unlocking
    case Receive(_) => s.netlink == Receiving
    case ReceiveFails => s.netlink == Receiving
    case Report => s.netlink == Reporting && s.reported < CHANNEL_SIZE
    case Check => s.netlink.Checking?
    case NetlinkSend => s.netlink.Delivering? && s.netlink.pending != [] && CanSend(s)
    case Lock => s.netlink == Locking && !s.mutexHeld
    case NetlinkClose => s.netlink == ClosingEvents
    case TakeEvent => s.buffered > 0
    case TakeError => s.reported > 0
    case CallClose => true
    case EnterOnce(c) => CallerAt(s, c, Calling) && s.once == Unused
    case SkipOnce(c) => CallerAt(s, c, Calling) && s.once == Used
    case CloseShutdown(c) => CallerAt(s, c, ClosingShutdown)
    case Cancel(c) => CallerAt(s, c, Cancelling)
    case CallerClose(c) => CallerAt(s, c, ClosingChannel)
    case CloseFile(c) => CallerAt(s, c, ClosingFile)
  }

  /** The next state. Sending on or closing a closed channel panics, and so does unlocking a free mutex. */
  function Perform(s: State, a: Action): State
    requires Enabled(s, a)
  {
    match a
    case Probe(answer) =>
      s.(hack := if answer == [] then Unlocking else if answer == s.last then Waiting else Sending(answer[0]))
    case HackSend =>
      s.(hack := Waiting, last := [s.hack.event], buffered := s.buffered + 1, panicked := s.eventsClosed)
    case Timer => s.(hack := Probing)
    case HackShutdown => s.(hack := Unlocking)
    case HackUnlock => s.(hack := HackGone, mutexHeld := false, panicked := !s.mutexHeld)
    case Receive(received) => s.(netlink := Checking(received))
    case ReceiveFails => s.(netlink := Reporting)
    case Report => s.(netlink := Locking, reported := s.reported + 1)
    case Check => s.(netlink := if s.shutdown then Locking else Next(s.netlink.received))
    case NetlinkSend =>
      s.(netlink := Next(s.netlink.pending[1..]), buffered := s.buffered + 1, panicked := s.eventsClosed)
    case Lock => s.(netlink := ClosingEvents, mutexHeld := true)
    case NetlinkClose => s.(netlink := NetlinkGone, eventsClosed := true, panicked := s.eventsClosed)
    case TakeEvent => s.(buffered := s.buffered - 1)
    case TakeError => s.(reported := s.reported - 1)
    case CallClose => s.(callers := s.callers + [Calling])
    case EnterOnce(c) =>
      s.(once := Busy, callers := s.callers[c := if s.monitored then ClosingShutdown else ClosingChannel])
    case SkipOnce(c) => s.(callers := s.callers[c := Returned])
    case CloseShutdown(c) => s.(callers := s.callers[c := Cancelling], shutdown := true, panicked := s.shutdown)
    case Cancel(c) => s.(callers := s.callers[c := ClosingFile])
    case CallerClose(c) => s.(callers := s.callers[c := ClosingFile], eventsClosed := true, panicked := s.eventsClosed)
    case CloseFile(c) => s.(callers := s.callers[c := Returned], once := Used)
  }

  function Next(pending: seq<Event>): NetlinkListener {
    if pending == [] then Receiving else Delivering(pending)
  }

  predicate Inside(caller: Caller) {
    caller != Calling && caller != Returned
  }

  /**
   The hack listener holds the mutex until it has gone, and the netlink listener
   closes the channel only after that.
   */
  ghost predicate ListenersOk(s: State) {
    && (s.hack != HackGone ==> s.monitored && s.mutexHeld)
    && (s.netlink == ClosingEvents || (s.monitored && s.netlink == NetlinkGone) ==> s.hack == HackGone)
    && (s.monitored ==> (s.eventsClosed <==> s.netlink == NetlinkGone))
    && (!s.monitored ==> s.netlink == NetlinkGone && s.hack == HackGone)
    && (s.mutexHeld ==> s.hack != HackGone || s.netlink == ClosingEvents || s.netlink == NetlinkGone)
    && (s.netlink.Delivering? ==> s.netlink.pending != [])
    && s.buffered <= CHANNEL_SIZE && s.reported <= 1
    && (s.reported > 0 ==> Leaving(s))
    && |s.last| <= 1 && (s.hack.Sending? ==> s.last != [s.hack.event])
  }

  /** The listeners have been told to stop, or there are none and events is closed. */
  predicate Announced(s: State) {
    if s.monitored then s.shutdown else s.eventsClosed
  }

  /** What a caller inside closeOnce is about to close is still open. */
  predicate CallerOk(s: State, caller: Caller) {
    match caller
    case ClosingShutdown => s.monitored && !s.shutdown
    case Cancelling => s.monitored && s.shutdown
    case ClosingChannel => !s.monitored && !s.eventsClosed
    case ClosingFile => Announced(s)
    case Returned => s.once == Used
    case Calling => true
  }

  /** Only one caller gets inside closeOnce, and it finds nothing closed. */
  ghost predicate CallersOk(s: State) {
    && (forall c, d :: 0 <= c < |s.callers| && 0 <= d < |s.callers| && c != d ==>
      !(Inside(s.callers[c]) && Inside(s.callers[d])))
    && (forall c :: 0 <= c < |s.callers| ==> CallerOk(s, s.callers[c]) && (s.once != Busy ==> !Inside(s.callers[c])))
    && (s.once == Unused ==> !s.shutdown && (!s.monitored ==> !s.eventsClosed))
    && (s.once == Used ==> Announced(s))
  }

  ghost predicate Inv(s: State) {
    !s.panicked && ListenersOk(s) && CallersOk(s)
  }

  lemma StepKeepsListeners(s: State, a: Action)
    requires Inv(s) && Enabled(s, a)
    ensures ListenersOk(Perform(s, a))
  {
  }

  lemma StepDoesNotPanic(s: State, a: Action)
    requires Inv(s) && Enabled(s, a)
    ensures !Perform(s, a).panicked && Perform(s, a).monitored == s.monitored
  {
  }

  lemma StepKeepsCallers(s: State, a: Action)
    requires Inv(s) && Enabled(s, a)
    ensures CallersOk(Perform(s, a))
  {
    hide CallersOk;
    var s' := Perform(s, a);
    match a {
      case CallClose => OneJoins(s, s');
      case EnterOnce(c) => CallerKeeps(s, a, c);
      case SkipOnce(c) => CallerKeeps(s, a, c);
      case CloseShutdown(c) => CallerKeeps(s, a, c);
      case Cancel(c) => CallerKeeps(s, a, c);
      case CallerClose(c) => CallerKeeps(s, a, c);
      case CloseFile(c) => CallerKeeps(s, a, c);
      case _ => NoneMoves(s, s');
    }
  }

  lemma CallerKeeps(s: State, a: Action, c: nat)
    requires Inv(s) && Enabled(s, a) && c < |s.callers|
    requires a in [EnterOnce(c), SkipOnce(c), CloseShutdown(c), Cancel(c), CallerClose(c), CloseFile(c)]
    ensures CallersOk(Perform(s, a))
  {
    hide ListenersOk, CallersOk;
    CallerFacts(s, c);
    OneMoves(s, Perform(s, a), c);
  }

  lemma CallerFacts(s: State, c: nat)
    requires CallersOk(s) && c < |s.callers|
    ensures CallerOk(s, s.callers[c]) && (s.once != Busy ==> !Inside(s.callers[c]))
    ensures s.once == Unused ==> !s.shutdown && (!s.monitored ==> !s.eventsClosed)
    ensures s.once == Used ==> Announced(s)
  {
  }

  /** Steps of the listeners and of readers concern no caller; only the listener of a monitored device closes events. */
  lemma NoneMoves(s: State, s': State)
    requires CallersOk(s) && s'.callers == s.callers && s'.once == s.once && s'.monitored == s.monitored
    requires s'.shutdown == s.shutdown && (s.monitored || s'.eventsClosed == s.eventsClosed)
    ensures CallersOk(s')
  {
    forall c | 0 <= c < |s.callers|
      ensures CallerOk(s', s'.callers[c])
    {
      assert CallerOk(s, s.callers[c]);
    }
  }

  lemma OneJoins(s: State, s': State)
    requires CallersOk(s) && s' == s.(callers := s.callers + [Calling])
    ensures CallersOk(s')
  {
    forall c | 0 <= c < |s.callers|
      ensures CallerOk(s', s'.callers[c])
    {
      assert CallerOk(s, s.callers[c]);
    }
  }

  /** A step of one caller: the others are outside closeOnce whenever it is inside. */
  lemma OneMoves(s: State, s': State, c: nat)
    requires CallersOk(s) && c < |s.callers| == |s'.callers| && s'.callers == s.callers[c := s'.callers[c]]
    requires s'.monitored == s.monitored && CallerOk(s', s'.callers[c])
    requires Inside(s.callers[c]) || s.once != Busy
    requires s'.once != Busy ==> !Inside(s'.callers[c])
    requires s'.once == Unused ==> s.once == Unused && s'.shutdown == s.shutdown && s'.eventsClosed == s.eventsClosed
    requires (s.once == Used ==> s'.once == Used) && (s'.once == Used ==> Announced(s'))
    ensures CallersOk(s')
  {
    forall d | 0 <= d < |s.callers| && d != c
      ensures !Inside(s'.callers[d])
    {
      assert CallerOk(s, s.callers[d]);
    }
  }

  /** A run: the states it goes through and the steps between them. */
  ghost predicate Run(monitored: bool, states: seq<State>, actions: seq<Action>) {
    && |states| == |actions| + 1 && states[0] == Start(monitored)
    && forall i :: 0 <= i < |actions| ==> StepAt(states, actions, i)
  }

  ghost predicate StepAt(states: seq<State>, actions: seq<Action>, i: nat)
    requires i < |actions| && |states| == |actions| + 1
  {
    var n := i + 1;
    Enabled(states[i], actions[i]) && states[n] == Perform(states[i], actions[i])
  }

  lemma StartInv(monitored: bool)
    ensures Inv(Start(monitored)) && Start(monitored).monitored == monitored
  {
  }

  /** No state of any run has panicked, and every one keeps the invariant. */
  lemma {:induction false} Reachable(monitored: bool, states: seq<State>, actions: seq<Action>, i: nat)
    requires Run(monitored, states, actions) && i < |states|
    ensures Inv(states[i]) && states[i].monitored == monitored
  {
    hide Enabled, Perform, ListenersOk, CallersOk;
    if i == 0 {
      StartInv(monitored);
    } else {
      Reachable(monitored, states, actions, i - 1);
      assert StepAt(states, actions, i - 1);
      StepDoesNotPanic(states[i - 1], actions[i - 1]);
      StepKeepsListeners(states[i - 1], actions[i - 1]);
      StepKeepsCallers(states[i - 1], actions[i - 1]);
    }
  }

  /** No call to Close returns before the listeners have been told to stop, or events was closed. */
  lemma CloseReturns(monitored: bool, states: seq<State>, actions: seq<Action>, i: nat, c: nat)
    requires Run(monitored, states, actions) && i < |states| && CallerAt(states[i], c, Returned)
    ensures Announced(states[i])
  {
    Reachable(monitored, states, actions, i);
    CallerFacts(states[i], c);
  }

  predicate ClosesEvents(a: Action) {
    a == NetlinkClose || a.CallerClose?
  }

  predicate SendsEvent(a: Action) {
    a == HackSend || a == NetlinkSend
  }

  lemma {:induction false} StaysClosed(monitored: bool, states: seq<State>, actions: seq<Action>, i: nat, j: nat)
    requires Run(monitored, states, actions) && i <= j < |states|
    ensures states[i].eventsClosed ==> states[j].eventsClosed
    ensures states[i].shutdown ==> states[j].shutdown
    ensures states[i].hack == HackGone ==> states[j].hack == HackGone
  {
    if i < j {
      StaysClosed(monitored, states, actions, i, j - 1);
      assert StepAt(states, actions, j - 1);
    }
  }

  /** In every run the channel is closed at most once, and nothing is sent on it afterwards. */
  lemma ClosedOnceThenSilent(monitored: bool, states: seq<State>, actions: seq<Action>, i: nat, j: nat)
    requires Run(monitored, states, actions) && i < j < |actions| && ClosesEvents(actions[i])
    ensures !ClosesEvents(actions[j]) && !SendsEvent(actions[j])
  {
    assert StepAt(states, actions, i) && StepAt(states, actions, j);
    var n, m := i + 1, j + 1;
    StaysClosed(monitored, states, actions, n, j);
    Reachable(monitored, states, actions, m);
  }

  /** statusListenersShutdown is closed at most once, however many calls to Close there are. */
  lemma ShutdownOnce(monitored: bool, states: seq<State>, actions: seq<Action>, i: nat, j: nat)
    requires Run(monitored, states, actions) && i < j < |actions| && actions[i].CloseShutdown?
    ensures !actions[j].CloseShutdown?
  {
    assert StepAt(states, actions, i) && StepAt(states, actions, j);
    var n, m := i + 1, j + 1;
    StaysClosed(monitored, states, actions, n, j);
    Reachable(monitored, states, actions, m);
  }

  /** A netlink listener that waits for the mutex has stopped listening. */
  predicate Leaving(s: State) {
    s.netlink == Locking || s.netlink == ClosingEvents || s.netlink == NetlinkGone
  }

  lemma {:induction false} LeavesForGood(monitored: bool, states: seq<State>, actions: seq<Action>, i: nat, j: nat)
    requires Run(monitored, states, actions) && i <= j < |states| && Leaving(states[i])
    ensures Leaving(states[j])
  {
    if i < j {
      LeavesForGood(monitored, states, actions, i, j - 1);
      assert StepAt(states, actions, j - 1);
    }
  }

  predicate IsHackStep(a: Action) {
    a.Probe? || a == HackSend || a == Timer || a == HackShutdown || a == HackUnlock
  }

  /** The mutex is the join: once the netlink listener has it, the hack listener takes no further step. */
  lemma LockJoinsHackListener(monitored: bool, states: seq<State>, actions: seq<Action>, i: nat, j: nat)
    requires Run(monitored, states, actions) && i < j < |actions| && actions[i] == Lock
    ensures !IsHackStep(actions[j])
  {
    assert StepAt(states, actions, i) && StepAt(states, actions, j);
    Reachable(monitored, states, actions, i);
    StaysClosed(monitored, states, actions, i, j);
  }

  /** The events that the hack listener has sent. */
  function HackEvents(states: seq<State>, actions: seq<Action>, n: nat): seq<Event>
    requires n <= |actions| < |states|
  {
    if n == 0 then [] else HackEvents(states, actions, n - 1) + SentBy(states[n - 1], actions[n - 1])
  }

  /** The hack listener reports changes only: no two of its events in a row are the same. */
  lemma {:induction false} HackAlternates(monitored: bool, states: seq<State>, actions: seq<Action>, n: nat)
    requires Run(monitored, states, actions) && n <= |actions|
    ensures
      var sent := HackEvents(states, actions, n);
      && states[n].last == (if sent == [] then [] else [sent[|sent| - 1]])
      && forall k :: 0 < k < |sent| ==> sent[k - 1] != sent[k]
  {
    hide Enabled, Perform, Inv;
    if n > 0 {
      HackAlternates(monitored, states, actions, n - 1);
      assert StepAt(states, actions, n - 1);
      Reachable(monitored, states, actions, n - 1);
      LastSent(states[n - 1], actions[n - 1]);
    }
  }

  /** last is the event sent last, and the next one differs from it. */
  lemma LastSent(s: State, a: Action)
    requires Inv(s) && Enabled(s, a)
    ensures a == HackSend ==> s.hack.Sending? && [s.hack.event] != s.last
    ensures Perform(s, a).last == if a == HackSend then [s.hack.event] else s.last
  {
  }

  /** The answers of the probes that told whether the device is up or down. */
  function ProbedEvents(actions: seq<Action>, n: nat): seq<Event>
    requires n <= |actions|
  {
    if n == 0 then [] else ProbedEvents(actions, n - 1) + FoundBy(actions[n - 1])
  }

  /** s with every repetition of the element before left out. */
  function Changes(s: seq<Event>): seq<Event> {
    if |s| <= 1 then s
    else Changes(s[..|s| - 1]) + if s[|s| - 1] == s[|s| - 2] then [] else [s[|s| - 1]]
  }

  lemma {:induction false} ChangesEnd(s: seq<Event>)
    requires s != []
    ensures Changes(s) != [] && Changes(s)[|Changes(s)| - 1] == s[|s| - 1]
  {
    if |s| > 1 {
      ChangesEnd(s[..|s| - 1]);
    }
  }

  /** One more answer is left out exactly when it is the answer before it. */
  lemma ChangesNext(s: seq<Event>, event: Event)
    ensures Changes(s + [event]) == if s != [] && s[|s| - 1] == event then Changes(s) else Changes(s) + [event]
  {
    assert (s + [event])[..|s|] == s;
  }

  function AboutToSend(s: State): seq<Event> {
    if s.hack.Sending? then [s.hack.event] else []
  }

  /** What was sent and what is about to be sent are the changes in what the probes found. */
  ghost predicate Reported(s: State, sent: seq<Event>, probed: seq<Event>) {
    && sent + AboutToSend(s) == Changes(probed)
    && s.last == if sent == [] then [] else [sent[|sent| - 1]]
  }

  /** The hack listener reports exactly the changes in what its probes find, each once. */
  lemma {:induction false} HackReportsChanges(monitored: bool, states: seq<State>, actions: seq<Action>, n: nat)
    requires Run(monitored, states, actions) && n <= |actions|
    ensures Reported(states[n], HackEvents(states, actions, n), ProbedEvents(actions, n))
  {
    hide Inv, Enabled, Perform, Reported, HackEvents, ProbedEvents;
    if n == 0 {
      NothingYet(monitored, states, actions);
    } else {
      HackReportsChanges(monitored, states, actions, n - 1);
      Reachable(monitored, states, actions, n - 1);
      assert StepAt(states, actions, n - 1);
      OneMore(states, actions, n);
      ReportedNext(states[n - 1], actions[n - 1], HackEvents(states, actions, n - 1), ProbedEvents(actions, n - 1));
    }
  }

  lemma NothingYet(monitored: bool, states: seq<State>, actions: seq<Action>)
    requires Run(monitored, states, actions)
    ensures Reported(states[0], HackEvents(states, actions, 0), ProbedEvents(actions, 0))
  {
  }

  lemma OneMore(states: seq<State>, actions: seq<Action>, n: nat)
    requires 0 < n <= |actions| < |states|
    ensures HackEvents(states, actions, n)
         == HackEvents(states, actions, n - 1) + SentBy(states[n - 1], actions[n - 1])
    ensures ProbedEvents(actions, n) == ProbedEvents(actions, n - 1) + FoundBy(actions[n - 1])
  {
  }

  function SentBy(s: State, a: Action): seq<Event> {
    if a == HackSend && s.hack.Sending? then [s.hack.event] else []
  }

  function FoundBy(a: Action): seq<Event> {
    if a.Probe? then a.answer else []
  }

  lemma ReportedNext(s: State, a: Action, sent: seq<Event>, probed: seq<Event>)
    requires Inv(s) && Enabled(s, a) && Reported(s, sent, probed)
    ensures Reported(Perform(s, a), sent + SentBy(s, a), probed + FoundBy(a))
  {
    hide Inv, Enabled, Perform, Changes;
    HackMoves(s, a);
    LastSent(s, a);
    ChangesAdvance(sent, AboutToSend(s), AboutToSend(Perform(s, a)), probed, a, s.last);
    assert sent + [] == sent;
  }

  /** One step of the hack listener, on what it has sent, is about to send, and has been told. */
  lemma ChangesAdvance(sent: seq<Event>, about: seq<Event>, next: seq<Event>, probed: seq<Event>, a: Action,
                       last: seq<Event>)
    requires sent + about == Changes(probed) && last == if sent == [] then [] else [sent[|sent| - 1]]
    requires a.Probe? ==> |a.answer| <= 1 && about == [] && next == if a.answer == last then [] else a.answer
    requires a == HackSend ==> next == []
    requires !a.Probe? && a != HackSend ==> next == about
    ensures sent + (if a == HackSend then about else []) + next
         == Changes(probed + if a.Probe? then a.answer else [])
  {
    hide Changes;
    assert sent + [] == sent && probed + [] == probed;
    if a.Probe? {
      ProbeChanges(sent, probed, a.answer);
    }
  }

  lemma ProbeChanges(sent: seq<Event>, probed: seq<Event>, answer: seq<Event>)
    requires sent == Changes(probed) && |answer| <= 1
    ensures sent + (if answer == (if sent == [] then [] else [sent[|sent| - 1]]) then [] else answer)
         == Changes(probed + answer)
  {
    hide Changes;
    if probed == [] {
      NoChanges();
    } else {
      ChangesEnd(probed);
    }
    if answer == [] {
      assert probed + [] == probed;
    } else {
      assert answer == [answer[0]];
      ChangesNext(probed, answer[0]);
    }
  }

  lemma NoChanges()
    ensures Changes([]) == []
  {
  }

  /** A probe that finds a change makes the listener send what it found; no other step makes it send. */
  lemma HackMoves(s: State, a: Action)
    requires Inv(s) && Enabled(s, a)
    ensures a.Probe? ==>
      && |a.answer| <= 1 && AboutToSend(s) == []
      && AboutToSend(Perform(s, a)) == if a.answer == s.last then [] else a.answer
    ensures a == HackSend ==> s.hack.Sending? && AboutToSend(Perform(s, a)) == []
    ensures !a.Probe? && a != HackSend ==> AboutToSend(Perform(s, a)) == AboutToSend(s)
  {
  }

  /** The events that the netlink listener has sent. */
  function NetlinkEvents(states: seq<State>, actions: seq<Action>, n: nat): seq<Event>
    requires n <= |actions| < |states|
  {
    if n == 0 then []
    else
      NetlinkEvents(states, actions, n - 1)
      + if actions[n - 1] == NetlinkSend && Undelivered(states[n - 1]) != [] then [Undelivered(states[n - 1])[0]]
        else []
  }

  /** The events of the messages that came before shutdown was closed. */
  function Received(states: seq<State>, actions: seq<Action>, n: nat): seq<Event>
    requires n <= |actions| < |states|
  {
    if n == 0 then []
    else
      Received(states, actions, n - 1)
      + if actions[n - 1] == Check && states[n - 1].netlink.Checking? && !states[n - 1].shutdown then
          states[n - 1].netlink.received
        else []
  }

  function Undelivered(s: State): seq<Event> {
    if s.netlink.Delivering? then s.netlink.pending else []
  }

  /** The netlink listener sends every event of those messages, in order and once. */
  lemma {:induction false} NetlinkForwards(monitored: bool, states: seq<State>, actions: seq<Action>, n: nat)
    requires Run(monitored, states, actions) && n <= |actions|
    ensures NetlinkEvents(states, actions, n) + Undelivered(states[n]) == Received(states, actions, n)
  {
    hide Inv, Enabled, Perform;
    if n > 0 {
      NetlinkForwards(monitored, states, actions, n - 1);
      assert StepAt(states, actions, n - 1);
      NetlinkMoves(states[n - 1], actions[n - 1]);
    }
  }

  lemma NetlinkMoves(s: State, a: Action)
    requires Enabled(s, a)
    ensures a == NetlinkSend ==>
      s.netlink.Delivering? && s.netlink.pending != []
      && [s.netlink.pending[0]] + Undelivered(Perform(s, a)) == Undelivered(s)
    ensures a == Check ==>
      s.netlink.Checking? && Undelivered(s) == []
      && Undelivered(Perform(s, a)) == if s.shutdown then [] else s.netlink.received
    ensures a != NetlinkSend && a != Check ==> Undelivered(Perform(s, a)) == Undelivered(s)
  {
  }

  /** How far the two listeners are from the end. */
  function Distance(s: State): nat {
    (match s.hack
     case Probing => 4
     case Sending(_) => 3
     case Waiting => 2
     case Unlocking => 1
     case HackGone => 0)
    + match s.netlink
      case Receiving => 4
      case Checking(_) => 5
      case Delivering(pending) => 5 + |pending|
      case Reporting => 3
      case Locking => 2
      case ClosingEvents => 1
      case NetlinkGone => 0
  }

  /** The same with what is in the events channel, to which every event sent adds one. */
  function Rank(s: State): nat {
    2 * Distance(s) + s.buffered
  }

  predicate IsListenerStep(a: Action) {
    IsHackStep(a) || a.Receive? || a == ReceiveFails || a == Report || a == Check || a == NetlinkSend || a == Lock
    || a == NetlinkClose
  }

  /**
   Neither listener can go on: the buffer of the events channel is full, each of
   them waits to send on it or has gone, or the netlink listener waits for the
   mutex of a hack listener that waits to send.
   */
  predicate Blocked(s: State) {
    && s.buffered == CHANNEL_SIZE
    && (s.hack.Sending? || s.hack == HackGone)
    && (s.netlink.Delivering? || (s.netlink == Locking && s.hack.Sending?))
  }

  /** A step that brings the listeners nearer to their end, once shutdown is closed. */
  function Ending(s: State): Action {
    if s.hack == Probing then Probe([])
    else if s.hack.Sending? && s.buffered < CHANNEL_SIZE then HackSend
    else if s.hack == Waiting then HackShutdown
    else if s.hack == Unlocking then HackUnlock
    else
      match s.netlink
      case Receiving => ReceiveFails
      case Checking(_) => Check
      case Delivering(_) => NetlinkSend
      case Reporting => Report
      case Locking => Lock
      case _ => NetlinkClose
  }

  /**
   Closing goes on without a reader unless both listeners are blocked: in every
   reachable state after shutdown and before the channel is closed, some listener
   can take a step if and only if the state is not blocked, and then one of the
   steps it can take brings the close nearer.
   */
  lemma ClosingGoesOn(states: seq<State>, actions: seq<Action>, i: nat)
    requires Run(true, states, actions) && i < |states| && states[i].shutdown && !states[i].eventsClosed
    ensures (exists a :: IsListenerStep(a) && Enabled(states[i], a)) <==> !Blocked(states[i])
    ensures !Blocked(states[i]) ==>
      && IsListenerStep(Ending(states[i])) && Enabled(states[i], Ending(states[i]))
      && Rank(Perform(states[i], Ending(states[i]))) < Rank(states[i])
  {
    Reachable(true, states, actions, i);
    if !Blocked(states[i]) {
      EndingGoesOn(states[i]);
    }
    if exists a :: IsListenerStep(a) && Enabled(states[i], a) {
      var a :| IsListenerStep(a) && Enabled(states[i], a);
      BlockedMeansStuck(states[i], a);
    }
  }

  lemma EndingGoesOn(s: State)
    requires Inv(s) && s.monitored && s.shutdown && !s.eventsClosed && !Blocked(s)
    ensures IsListenerStep(Ending(s)) && Enabled(s, Ending(s)) && Rank(Perform(s, Ending(s))) < Rank(s)
  {
  }

  lemma BlockedMeansStuck(s: State, a: Action)
    requires Inv(s) && !s.eventsClosed && IsListenerStep(a) && Enabled(s, a)
    ensures !Blocked(s)
  {
  }

  /** A blocked device goes on when an event is read, and reading one brings the close nearer too. */
  lemma ReadingUnblocks(s: State)
    requires Inv(s) && Blocked(s)
    ensures Enabled(s, TakeEvent) && !Blocked(Perform(s, TakeEvent)) && Rank(Perform(s, TakeEvent)) < Rank(s)
  {
  }

  /** At most n steps of the listeners and of a reader of events lead to the close. */
  ghost predicate ClosesWithin(s: State, n: nat)
    decreases n
  {
    || s.eventsClosed
    || (n > 0
        && exists a :: (IsListenerStep(a) || a == TakeEvent) && Enabled(s, a) && ClosesWithin(Perform(s, a), n - 1))
  }

  /** With a reader, every state after shutdown is at most its rank in steps away from the close. */
  lemma {:induction false} ClosingEnds(s: State, n: nat)
    requires Inv(s) && s.monitored && s.shutdown && Rank(s) <= n
    ensures ClosesWithin(s, n)
    decreases n
  {
    hide Inv, Enabled, Perform, Rank, Ending, IsListenerStep;
    if !s.eventsClosed {
      var a := if Blocked(s) then TakeEvent else Ending(s);
      NextToClose(s, a);
      ClosingEnds(Perform(s, a), n - 1);
    }
  }

  lemma NextToClose(s: State, a: Action)
    requires Inv(s) && s.monitored && s.shutdown && !s.eventsClosed
    requires a == if Blocked(s) then TakeEvent else Ending(s)
    ensures Enabled(s, a) && (IsListenerStep(a) || a == TakeEvent) && Rank(Perform(s, a)) < Rank(s)
    ensures Inv(Perform(s, a)) && Perform(s, a).monitored && Perform(s, a).shutdown
  {
    hide CallersOk, ListenersOk, IsListenerStep, Rank;
    if Blocked(s) {
      ReadingUnblocks(s);
    } else {
      EndingGoesOn(s);
    }
    StepKeepsListeners(s, a);
    StepKeepsCallers(s, a);
    StepDoesNotPanic(s, a);
  }

  /** The errors channel blocks nobody: a run reports at most one error. */
  lemma {:induction false} ReportsOnce(monitored: bool, states: seq<State>, actions: seq<Action>, i: nat, j: nat)
    requires Run(monitored, states, actions) && i < j < |actions| && actions[i] == Report
    ensures actions[j] != Report
  {
    assert StepAt(states, actions, i) && StepAt(states, actions, j);
    var n := i + 1;
    LeavesForGood(monitored, states, actions, n, j);
  }

  /** Some run of a monitored device ends in the state. */
  ghost predicate Reached(s: State) {
    exists states: seq<State>, actions: seq<Action> ::
      Run(true, states, actions) && |states| == |actions| + 1 && states[|actions|] == s
  }

  lemma ReachedNext(s: State, a: Action)
    requires Reached(s) && Enabled(s, a)
    ensures Reached(Perform(s, a))
  {
    hide Enabled, Perform;
    var states: seq<State>, actions: seq<Action> :|
      Run(true, states, actions) && |states| == |actions| + 1 && states[|actions|] == s;
    var states', actions' := states + [Perform(s, a)], actions + [a];
    forall i | 0 <= i < |actions'|
      ensures StepAt(states', actions', i)
    {
      if i < |actions| {
        assert StepAt(states, actions, i);
      }
    }
    assert Run(true, states', actions');
    assert states'[|actions'|] == Perform(s, a);
  }

  /** n events in a row are sent while nobody reads. */
  lemma {:induction false} ReachedFull(s: State, n: nat)
    requires Reached(s) && s.netlink.Delivering? && n < |s.netlink.pending| && s.buffered + n <= CHANNEL_SIZE
    requires !s.panicked && !s.eventsClosed
    ensures Reached(s.(netlink := Delivering(s.netlink.pending[n..]), buffered := s.buffered + n))
    decreases n
  {
    hide Reached;
    if n > 0 {
      ReachedNext(s, NetlinkSend);
      var next := Perform(s, NetlinkSend);
      ReachedFull(next, n - 1);
      assert s.netlink.pending[1..][n - 1..] == s.netlink.pending[n..];
    }
  }

  /** Six events in one message and no reader: after shutdown neither listener can go on, so events stays open. */
  lemma ClosingCanBlock()
    ensures exists s :: Reached(s) && s.shutdown && !s.eventsClosed && Blocked(s)
  {
    hide Reached;
    var events := seq(6, _ => EventMTUUpdate);
    var start := Start(true);
    StartReached();
    ReachedNext(start, Receive(events));
    var checking := start.(netlink := Checking(events));
    ReachedNext(checking, Check);
    var delivering := start.(netlink := Delivering(events));
    ReachedFull(delivering, CHANNEL_SIZE);
    var full := delivering.(netlink := Delivering(events[CHANNEL_SIZE..]), buffered := CHANNEL_SIZE);
    ReachedNext(full, Probe([]));
    var unlocking := full.(hack := Unlocking);
    ReachedNext(unlocking, HackUnlock);
    var gone := unlocking.(hack := HackGone, mutexHeld := false);
    ReachedNext(gone, CallClose);
    var called := Perform(gone, CallClose);
    ReachedNext(called, EnterOnce(0));
    var entered := Perform(called, EnterOnce(0));
    ReachedNext(entered, CloseShutdown(0));
    assert Blocked(Perform(entered, CloseShutdown(0)));
  }

  lemma StartReached()
    ensures Reached(Start(true))
  {
    var states, actions: seq<Action> := [Start(true)], [];
    assert Run(true, states, actions) && states[|actions|] == Start(true);
  }
}
