/**
 * The call lifecycle of components/VoiceAssistant.tsx: `startCall`, `stopCall`
 * and the session callbacks, as transitions of one immutable call state.
 * Every outcome of the outside world (API key, microphone, connection,
 * transport events) arrives as a parameter or an event; the asynchronous
 * `startCall` is taken as one atomic step from its synchronous beginning to
 * its outcome.
 */
module VoiceSession {
  import opened Wrappers
  import Playback

  datatype Status = Idle | Connecting | Active

  /**
   * The component's state: `status`, `isCalling`, whether `sessionRef` and
   * `streamRef` hold a session and a microphone stream, `errorMessage`, and
   * the playback scheduler.
   */
  datatype Call = Call(
    status: Status,
    isCalling: bool,
    hasSession: bool,
    hasStream: bool,
    error: Option<string>,
    playback: Playback.Scheduler)

  /** The state the component is mounted with. */
  const Mounted: Call := Call(Idle, false, false, false, None, Playback.Initial)

  // User-visible messages.
  const KeyMissingMessage: string := "Clave de API no configurada. Revisa process.env.API_KEY."
  const NoMediaDevicesMessage: string :=
    "Tu navegador no admite el acceso al micr\U{f3}fono o no est\U{e1}s en un sitio seguro (HTTPS)."
  const MicrophonePrefix: string := "No se pudo acceder al micr\U{f3}fono: "
  const UnknownReason: string := "Error desconocido"
  const StartFailedMessage: string := "No se pudo iniciar la llamada."
  const ConnectionErrorMessage: string := "Error de conexi\U{f3}n con el agente de voz."

  // ---------------------------------------------------------------------------
  // stopCall
  // ---------------------------------------------------------------------------

  /** The state after `stopCall` and what that call released. */
  datatype Teardown = Teardown(call: Call, closedSession: bool, stoppedTracks: bool, stoppedSources: set<nat>)

  /**
   * `stopCall`: closes the session and stops the microphone tracks when they
   * are held, stops every active source, and resets the call to idle with the
   * cursor at 0.  The error message is left as it is.
   */
  function StopCallEffects(c: Call): (r: Teardown)
    ensures r.closedSession <==> c.hasSession
    ensures r.stoppedTracks <==> c.hasStream
    ensures r.stoppedSources == c.playback.active
    ensures r.call.status == Idle && !r.call.isCalling
    ensures !r.call.hasSession && !r.call.hasStream
    ensures r.call.playback.active == {} && r.call.playback.cursor == 0.0
    ensures r.call.playback.nextId == c.playback.nextId
    ensures r.call.error == c.error
  {
    var call := Call(Idle, false, false, false, c.error, Playback.Interrupt(c.playback));
    Teardown(call, c.hasSession, c.hasStream, c.playback.active)
  }

  function StopCall(c: Call): Call {
    StopCallEffects(c).call
  }

  /** A second `stopCall` releases nothing and leaves the state as the first one did. */
  lemma StopCallIdempotent(c: Call)
    ensures StopCall(StopCall(c)) == StopCall(c)
    ensures var again := StopCallEffects(StopCall(c));
      !again.closedSession && !again.stoppedTracks && again.stoppedSources == {}
  {
  }

  // ---------------------------------------------------------------------------
  // startCall
  // ---------------------------------------------------------------------------

  /**
   * How `startCall` ends: the first check that fails, or a connection.  The
   * reasons are the `message` of the caught error, "" when it has none.
   */
  datatype StartOutcome =
    | MissingKey                    // no API key
    | NoMediaDevices                // no navigator.mediaDevices.getUserMedia
    | MicrophoneDenied(reason: string)
    | SetupFailed(reason: string)   // anything thrown once the stream is held
    | Connected

  /** The synchronous start of `startCall`: the error is cleared and the call shows as connecting. */
  function BeginStart(c: Call): (r: Call)
    ensures r.status == Connecting && r.error == None
    ensures r.isCalling == c.isCalling && r.hasSession == c.hasSession
    ensures r.hasStream == c.hasStream && r.playback == c.playback
  {
    c.(error := None, status := Connecting)
  }

  /** JavaScript's `message || fallback`. */
  function OrElse(message: string, fallback: string): (r: string)
    ensures r != "" <== fallback != ""
    ensures message != "" ==> r == message
  {
    if message == "" then fallback else message
  }

  /** The rest of `startCall`, through its catch block, for a given outcome. */
  function FinishStart(c: Call, o: StartOutcome): Call {
    match o
    case MissingKey => c.(status := Idle, error := Some(KeyMissingMessage))
    case NoMediaDevices => c.(status := Idle, error := Some(NoMediaDevicesMessage))
    case MicrophoneDenied(reason) =>
      c.(status := Idle, error := Some(MicrophonePrefix + OrElse(reason, UnknownReason)))
    case SetupFailed(reason) =>
      c.(hasStream := true, status := Idle, error := Some(OrElse(reason, StartFailedMessage)))
    case Connected => c.(hasStream := true, hasSession := true)
  }

  /**
   * `startCall`.  A connection leaves the call connecting with a stream and a
   * session; every failure returns to idle with a non-empty error message.  A
   * failure before the microphone is granted acquires nothing; one after it
   * keeps the stream, since the catch block does not call `stopCall`.
   */
  function StartCall(c: Call, o: StartOutcome): (r: Call)
    ensures o.Connected? ==> r.status == Connecting && r.error == None && r.hasSession && r.hasStream
    ensures !o.Connected? ==> r.status == Idle && r.error.Some? && r.error.value != ""
    ensures o.MissingKey? ==> r.error == Some(KeyMissingMessage)
    ensures o.NoMediaDevices? ==> r.error == Some(NoMediaDevicesMessage)
    ensures o.MissingKey? || o.NoMediaDevices? || o.MicrophoneDenied? ==>
      r.hasStream == c.hasStream && r.hasSession == c.hasSession
    ensures o.MicrophoneDenied? ==> MicrophonePrefix <= r.error.value
    ensures o.MicrophoneDenied? && o.reason != "" ==> r.error.value == MicrophonePrefix + o.reason
    ensures o.SetupFailed? ==> r.hasStream && r.hasSession == c.hasSession
    ensures o.SetupFailed? && o.reason != "" ==> r.error == Some(o.reason)
    ensures r.isCalling == c.isCalling && r.playback == c.playback
  {
    FinishStart(BeginStart(c), o)
  }

  // ---------------------------------------------------------------------------
  // Events
  // ---------------------------------------------------------------------------

  /** Everything that changes the call state. */
  datatype Event =
    | PressCallButton(outcome: StartOutcome)   // the outcome is used only if a call starts
    | Opened                                   // onopen
    | Message(now: real, message: Playback.ServerMessage)   // onmessage, at clock `now`
    | Ended(id: nat)                           // a source's onended
    | TransportError                           // onerror
    | TransportClosed                          // onclose

  /**
   * One transition.  The call button does nothing while connecting (it is
   * disabled), runs `stopCall` while a call is on, and `startCall` otherwise.
   */
  function Step(c: Call, e: Event): (r: Call)
    ensures e.PressCallButton? && c.status == Connecting ==> r == c
    ensures e.PressCallButton? && c.status != Connecting && c.isCalling ==> r == StopCall(c)
    ensures e.PressCallButton? && c.status != Connecting && !c.isCalling ==> r == StartCall(c, e.outcome)
    ensures e.Opened? ==> r.status == Active && r.isCalling && r.playback == c.playback
    ensures e.Opened? ==> r.hasSession == c.hasSession && r.hasStream == c.hasStream && r.error == c.error
    ensures e.Message? || e.Ended? ==>
      r.status == c.status && r.isCalling == c.isCalling && r.hasSession == c.hasSession
      && r.hasStream == c.hasStream && r.error == c.error
    ensures e.TransportError? || e.TransportClosed? ==>
      && r.status == Idle && !r.isCalling && !r.hasSession && !r.hasStream
      && r.playback.active == {} && r.playback.cursor == 0.0
    ensures e.TransportError? ==> r.error == Some(ConnectionErrorMessage)
    ensures e.TransportClosed? ==> r.error == c.error
  {
    match e
    case PressCallButton(o) =>
      if c.status == Connecting then c
      else if c.isCalling then StopCall(c)
      else StartCall(c, o)
    case Opened => c.(status := Active, isCalling := true)
    case Message(now, m) => c.(playback := Playback.OnMessage(c.playback, now, m).next)
    case Ended(id) => c.(playback := Playback.SourceEnded(c.playback, id))
    case TransportError => StopCall(c.(error := Some(ConnectionErrorMessage)))
    case TransportClosed => StopCall(c)
  }

  function Run(c: Call, events: seq<Event>): Call
    decreases |events|
  {
    if |events| == 0 then c else Run(Step(c, events[0]), events[1..])
  }

  /** The output clock never reads negative. */
  predicate ClockOk(e: Event) {
    e.Message? ==> e.now >= 0.0
  }

  /**
   * What holds in every reachable state: a call is on exactly when the status
   * is active, no session is held while idle, a session comes with a stream,
   * and the scheduler is well formed.
   */
  predicate Consistent(c: Call) {
    && (c.isCalling <==> c.status == Active)
    && (c.status == Idle ==> !c.hasSession)
    && (c.hasSession ==> c.hasStream)
    && Playback.Valid(c.playback)
  }

  lemma MountedConsistent()
    ensures Consistent(Mounted)
  {
  }

  lemma StepConsistent(c: Call, e: Event)
    requires Consistent(c) && ClockOk(e)
    ensures Consistent(Step(c, e))
  {
  }

  lemma {:induction false} RunConsistent(c: Call, events: seq<Event>)
    requires Consistent(c)
    requires forall i :: 0 <= i < |events| ==> ClockOk(events[i])
    ensures Consistent(Run(c, events))
    decreases |events|
  {
    if |events| > 0 {
      StepConsistent(c, events[0]);
      RunConsistent(Step(c, events[0]), events[1..]);
    }
  }

  /** `onopen` makes the call active with `isCalling` set. */
  lemma OpenedActivates(c: Call)
    ensures Step(c, Opened).status == Active && Step(c, Opened).isCalling
  {
  }

  /** `onerror` shows the connection error and then tears the call down. */
  lemma ErrorStopsWithMessage(c: Call)
    ensures Step(c, TransportError).error == Some(ConnectionErrorMessage)
    ensures Step(c, TransportError).status == Idle && !Step(c, TransportError).hasSession
    ensures !Step(c, TransportError).hasStream && Step(c, TransportError).playback.active == {}
  {
  }

  /** `onclose` tears the call down and keeps whatever error message was shown. */
  lemma ClosedStops(c: Call)
    ensures var r := Step(c, TransportClosed);
      && r.status == Idle && !r.isCalling && !r.hasSession && !r.hasStream
      && r.playback.active == {} && r.playback.cursor == 0.0 && r.error == c.error
  {
  }

  /** The call button is disabled while connecting. */
  lemma ButtonDisabledWhileConnecting(c: Call, o: StartOutcome)
    requires c.status == Connecting
    ensures Step(c, PressCallButton(o)) == c
  {
  }

  /** In a consistent active call the button runs `stopCall`, whatever a start would have met. */
  lemma ButtonStopsActiveCall(c: Call, o: StartOutcome)
    requires Consistent(c) && c.status == Active
    ensures Step(c, PressCallButton(o)) == StopCall(c)
  {
  }

  /** A successful start followed by `onopen` reaches an active call holding a session and a stream. */
  lemma StartThenOpen(c: Call)
    requires !c.isCalling && c.status != Connecting
    ensures var r := Run(c, [PressCallButton(Connected), Opened]);
      r.status == Active && r.isCalling && r.hasSession && r.hasStream && r.error == None
  {
    assert [PressCallButton(Connected), Opened][1..] == [Opened];
  }

  /** With no API key the call goes back to idle with the configuration message and acquires nothing. */
  lemma MissingKeyScenario()
    ensures BeginStart(Mounted).status == Connecting
    ensures var r := Step(Mounted, PressCallButton(MissingKey));
      r.status == Idle && r.error == Some(KeyMissingMessage) && !r.hasStream && !r.hasSession
  {
  }

  /** A setup failure after the microphone was granted returns to idle still holding the stream. */
  lemma SetupFailureKeepsStream(c: Call, reason: string)
    requires !c.isCalling && c.status != Connecting
    ensures var r := Step(c, PressCallButton(SetupFailed(reason)));
      r.status == Idle && r.hasStream && !r.isCalling
  {
  }
}
