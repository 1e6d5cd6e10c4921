/**
 * The reconnect protocol of lib/Connectivity/WifiManager.cpp as a labelled transition system.
 *
 * One long-lived task runs reconnectTask; any number of other threads run the event handler,
 * reconnect() and updateCredentials(). Those other threads change the shared state and the retry
 * counter without holding the task's mutex, so any of their steps may fall between any two of the
 * task's. How fine the task's own steps are is a parameter of the model (Mode).
 */
module WifiProtocol {

  datatype WifiState = NotInitialized | Disconnected | Connecting | Connected

  const MAXIMUM_RETRY := 5
  const FIRST_BACKOFF := 10
  const MAXIMUM_BACKOFF := 300

  datatype Cause = Restart | FailedCheck

  /** Where reconnectTask stands. */
  datatype Point =
    | EvalPredicate             // about to evaluate the predicate of cv.wait
    | Parking                   // the predicate was false, the task has not yet gone to sleep
    | Parked                    // asleep in cv.wait
    | TestCount                 // about to compare the counter with the maximum
    | CallConnect               // about to call esp_wifi_connect
    | LoadCount                 // ++, about to load the counter
    | StoreCount(loaded: int)   // ++, about to store the loaded value plus one
    | StartWait                 // about to enter cv.wait_for
    | Waiting                   // inside cv.wait_for
    | TestConnected             // about to evaluate isConnected
    | CallRestart               // the counter test has failed, about to call esp_restart
    | Halted(cause: Cause)      // esp_restart, or an ESP_ERROR_CHECK that failed

  /** What an observer of a whole run can see. */
  datatype Event =
    | ConnectCall
    | Increment
    | CounterReset
    | TimedWait(seconds: int)
    | RoundEnd(connected: bool)
    | RestartDecided
    | RestartCall

  datatype System = System(
    state: WifiState,
    count: int,
    point: Point,
    backoff: int,
    disconnecting: nat,  // threads between setState(DISCONNECTED) and notify_all
    gotIpSet: nat,       // GOT_IP handlers between setState(CONNECTED) and the counter reset
    gotIpReset: nat,     // GOT_IP handlers between the counter reset and notify_all
    log: seq<Event>)

  function Boot(): System {
    System(NotInitialized, 0, EvalPredicate, FIRST_BACKOFF, 0, 0, 0, [])
  }

  datatype Label =
    | Task                // the task's next step
    | ConnectError        // the task's esp_wifi_connect reports an error
    | SpuriousWake        // cv.wait wakes up unasked
    | SetDisconnected     // reconnect, updateCredentials or STA_DISCONNECTED: setState
    | NotifyDisconnected  // the same callers: notify_all
    | StaStart            // STA_START: setState
    | CheckFails          // an ESP_ERROR_CHECK in STA_START, after its setState, or in updateCredentials
    | GotIpSetState       // GOT_IP: setState
    | GotIpReset          // GOT_IP: counter reset
    | GotIpNotify         // GOT_IP: notify_all

  /**
   * How the task's steps are interleaved with the other threads'.
   *   atomicPark:      evaluating the predicate of cv.wait and going to sleep is one step;
   *   atomicIncrement: ++ is one step.
   * The source guarantees neither, because the other threads do not take the task's mutex.
   */
  datatype Mode = Mode(atomicPark: bool, atomicIncrement: bool)

  const SOURCE := Mode(false, false)

  predicate OthersMayRun(m: Mode, s: System) {
    && !(m.atomicPark && s.point.Parking?)
    && !(m.atomicIncrement && s.point.StoreCount?)
  }

  predicate Enabled(m: Mode, s: System, l: Label) {
    && !s.point.Halted?
    && match l
       case Task => !s.point.Parked?
       case ConnectError => s.point.CallConnect?
       case SpuriousWake => s.point.Parked?
       case SetDisconnected => OthersMayRun(m, s)
       case NotifyDisconnected => OthersMayRun(m, s) && s.disconnecting > 0
       case StaStart => OthersMayRun(m, s)
       case CheckFails => OthersMayRun(m, s)
       case GotIpSetState => OthersMayRun(m, s)
       case GotIpReset => OthersMayRun(m, s) && s.gotIpSet > 0
       case GotIpNotify => OthersMayRun(m, s) && s.gotIpReset > 0
  }

  function Emit(s: System, e: Event): System {
    s.(log := s.log + [e])
  }

  /** notify_all: a sleeping task re-evaluates its predicate. */
  function NotifyAll(s: System): System {
    if s.point.Parked? then s.(point := EvalPredicate) else s
  }

  function NextBackoff(backoff: int): int {
    if backoff * 2 <= MAXIMUM_BACKOFF then backoff * 2 else MAXIMUM_BACKOFF
  }

  function TaskStep(s: System): System {
    match s.point
    case EvalPredicate => s.(point := if s.state == Disconnected then TestCount else Parking)
    case Parking => s.(point := Parked)
    case TestCount =>
      if s.count < MAXIMUM_RETRY then s.(point := CallConnect)
      else Emit(s, RestartDecided).(point := CallRestart)
    case CallRestart => Emit(s, RestartCall).(point := Halted(Restart))
    case CallConnect => Emit(s, ConnectCall).(point := LoadCount)
    case LoadCount => s.(point := StoreCount(s.count))
    case StoreCount(loaded) => Emit(s, Increment).(count := loaded + 1, point := StartWait)
    case StartWait => Emit(s, TimedWait(s.backoff)).(point := Waiting)
    // wait_for returns when its predicate holds or its time is up: here, at any moment
    case Waiting => s.(point := TestConnected)
    case TestConnected =>
      if s.state == Connected then Emit(s, RoundEnd(true)).(backoff := FIRST_BACKOFF, point := EvalPredicate)
      else Emit(s, RoundEnd(false)).(backoff := NextBackoff(s.backoff), point := EvalPredicate)
    case Parked => s
    case Halted(_) => s
  }

  function Apply(s: System, l: Label): System {
    match l
    case Task => TaskStep(s)
    case ConnectError => Emit(s, ConnectCall).(point := Halted(FailedCheck))
    case SpuriousWake => s.(point := EvalPredicate)
    case SetDisconnected => s.(state := Disconnected, disconnecting := s.disconnecting + 1)
    case NotifyDisconnected =>
      if s.disconnecting == 0 then s else NotifyAll(s.(disconnecting := s.disconnecting - 1))
    case StaStart => s.(state := Connecting)
    case CheckFails => s.(point := Halted(FailedCheck))
    case GotIpSetState => s.(state := Connected, gotIpSet := s.gotIpSet + 1)
    case GotIpReset =>
      if s.gotIpSet == 0 then s
      else Emit(s, CounterReset).(count := 0, gotIpSet := s.gotIpSet - 1, gotIpReset := s.gotIpReset + 1)
    case GotIpNotify =>
      if s.gotIpReset == 0 then s else NotifyAll(s.(gotIpReset := s.gotIpReset - 1))
  }

  function Execute(s: System, run: seq<Label>): System
    decreases run
  {
    if run == [] then s else Execute(Apply(s, run[0]), run[1..])
  }

  predicate IsRun(m: Mode, s: System, run: seq<Label>)
    decreases run
  {
    run == [] || (Enabled(m, s, run[0]) && IsRun(m, Apply(s, run[0]), run[1..]))
  }

  ghost predicate Reachable(m: Mode, s: System) {
    exists run :: IsRun(m, Boot(), run) && Execute(Boot(), run) == s
  }

  lemma {:induction false} Concatenate(m: Mode, s: System, a: seq<Label>, b: seq<Label>)
    requires IsRun(m, s, a) && IsRun(m, Execute(s, a), b)
    ensures IsRun(m, s, a + b) && Execute(s, a + b) == Execute(Execute(s, a), b)
    decreases a
  {
    if a == [] {
      assert a + b == b;
    } else {
      var ab := a + b;
      assert ab[0] == a[0] && ab[1..] == a[1..] + b;
      Concatenate(m, Apply(s, a[0]), a[1..], b);
    }
  }

  // ----- What a log says -----

  /** Connect calls the task made since the last counter reset (or since boot). */
  function ConnectsSinceReset(log: seq<Event>): nat {
    if log == [] then 0
    else match log[|log| - 1]
         case CounterReset => 0
         case ConnectCall => ConnectsSinceReset(log[..|log| - 1]) + 1
         case _ => ConnectsSinceReset(log[..|log| - 1])
  }

  function IncrementsSinceReset(log: seq<Event>): nat {
    if log == [] then 0
    else match log[|log| - 1]
         case CounterReset => 0
         case Increment => IncrementsSinceReset(log[..|log| - 1]) + 1
         case _ => IncrementsSinceReset(log[..|log| - 1])
  }

  /** The last connect call is not followed by its increment yet. */
  predicate IncrementPending(log: seq<Event>) {
    log != [] &&
    match log[|log| - 1]
    case ConnectCall => true
    case Increment => false
    case _ => IncrementPending(log[..|log| - 1])
  }

  /** The last counter reset fell between a connect call and its increment. */
  predicate LastResetStraddles(log: seq<Event>) {
    log != [] &&
    match log[|log| - 1]
    case CounterReset => IncrementPending(log[..|log| - 1])
    case _ => LastResetStraddles(log[..|log| - 1])
  }

  /** A counter reset happened since the restart was decided, if it was. */
  predicate ResetSinceDecided(log: seq<Event>) {
    log != [] &&
    match log[|log| - 1]
    case CounterReset => true
    case RestartDecided => false
    case _ => ResetSinceDecided(log[..|log| - 1])
  }

  /** Rounds that ended not connected since the last one that ended connected (or since boot). */
  function FailedRounds(log: seq<Event>): nat {
    if log == [] then 0
    else match log[|log| - 1]
         case RoundEnd(connected) => if connected then 0 else FailedRounds(log[..|log| - 1]) + 1
         case _ => FailedRounds(log[..|log| - 1])
  }

  /** A counter reset happened since the task itself last saw a round end connected (or since boot). */
  predicate ResetSinceSeenConnected(log: seq<Event>) {
    log != [] &&
    match log[|log| - 1]
    case CounterReset => true
    case RoundEnd(connected) => !connected && ResetSinceSeenConnected(log[..|log| - 1])
    case _ => ResetSinceSeenConnected(log[..|log| - 1])
  }

  /** The durations of the timed waits, in order. */
  function Waits(log: seq<Event>): seq<int> {
    if log == [] then []
    else match log[|log| - 1]
         case TimedWait(seconds) => Waits(log[..|log| - 1]) + [seconds]
         case _ => Waits(log[..|log| - 1])
  }

  function TotalConnects(log: seq<Event>): nat {
    if log == [] then 0
    else TotalConnects(log[..|log| - 1]) + if log[|log| - 1] == ConnectCall then 1 else 0
  }

  function Sum(s: seq<int>): int {
    if s == [] then 0 else Sum(s[..|s| - 1]) + s[|s| - 1]
  }
}
