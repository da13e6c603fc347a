/** The protocol of backend/pkg/mailer/async.go as a labelled transition system: one step for each
    atomic load or store of `stopped`, each channel operation, each change of a worker's program
    point and each return of the delegate. A run is a sequence of steps; which step comes next is
    left open, so a theorem about all runs is about every interleaving and every `select` choice. */
module MailerProtocol {
  import opened Prelude

  datatype Message = Message(to: string, subject: string, body: string, isHtml: bool)

  /** A message that entered the channel, with the call of Send it came from, the moment that call
      loaded `stopped` and the moment of its channel operation. */
  datatype Item = Item(call: nat, msg: Message, loadedAt: nat, offeredAt: nat)

  /** A call of Send between its load of `stopped` and its channel operation. */
  datatype Pending = Pending(msg: Message, loadedAt: nat)

  datatype SendResult = Accepted | ErrMailerStopped | ErrQueueFull

  /** The program point of a worker: the outer select, inside `send`, the drain select, inside
      `send` from the drain loop, or returned (and so counted off the WaitGroup). */
  datatype Worker = Selecting | Sending(item: Item) | Draining | DrainSending(item: Item) | Returned

  /** How far the one execution of the body of `stopOnce.Do` has come. */
  datatype Once = NotStarted | Storing | Closing | Waiting | Finished

  datatype StopCall = InBody | Blocked | StopReturned

  datatype State = State(
    bufferSize: nat,
    stopped: bool,
    quitClosed: bool,
    queue: seq<Item>,
    workers: seq<Worker>,
    inFlight: map<nat, Pending>,
    once: Once,
    stopCalls: map<nat, StopCall>,
    // what has happened so far
    now: nat,
    storedAt: nat,
    closedAt: nat,
    results: map<nat, SendResult>,
    accepted: seq<Item>,
    received: seq<Item>,
    delegated: seq<Item>)

  /** The state once Start has launched the workers and before anything else ran. */
  function Started(bufferSize: nat, workers: nat): State {
    State(bufferSize, false, false, [], seq(workers, _ => Selecting), map[], NotStarted, map[],
          0, 0, 0, map[], [], [], [])
  }

  datatype Step =
    | SendLoad(call: nat, msg: Message)  // m.stopped.Load()
    | SendOffer(call: nat)               // the select with default
    | SendHandOff(call: nat, w: nat)     // the same select meeting a parked worker
    | Receive(w: nat)                    // outer select, message case
    | SeeQuit(w: nat)                    // outer select, quit case
    | Delivered(w: nat)                  // m.send returns
    | DrainReceive(w: nat)               // inner select, message case
    | DrainDelivered(w: nat)             // m.send returns inside the drain loop
    | DrainReturn(w: nat)                // inner select, default case
    | StopEnter(stop: nat)
    | StopStore                          // m.stopped.Store(true)
    | StopClose                          // close(m.quit)
    | StopWait                           // m.wg.Wait() returns
    | StopRelease(stop: nat)             // a later caller leaves stopOnce.Do

  predicate AllReturned(s: State) {
    forall w :: 0 <= w < |s.workers| ==> s.workers[w].Returned?
  }

  predicate Enabled(s: State, step: Step) {
    match step
    case SendLoad(call, _) => call !in s.inFlight && call !in s.results
    case SendOffer(call) => call in s.inFlight
    case SendHandOff(call, w) =>
      // only a worker blocked on an empty channel and an open `quit` can be handed a message
      call in s.inFlight && s.queue == [] && !s.quitClosed && w < |s.workers| && s.workers[w].Selecting?
    case Receive(w) => s.queue != [] && w < |s.workers| && s.workers[w].Selecting?
    case SeeQuit(w) => s.quitClosed && w < |s.workers| && s.workers[w].Selecting?
    case Delivered(w) => w < |s.workers| && s.workers[w].Sending?
    case DrainReceive(w) => s.queue != [] && w < |s.workers| && s.workers[w].Draining?
    case DrainDelivered(w) => w < |s.workers| && s.workers[w].DrainSending?
    case DrainReturn(w) => s.queue == [] && w < |s.workers| && s.workers[w].Draining?
    case StopEnter(c) => c !in s.stopCalls
    case StopStore => s.once.Storing?
    case StopClose => s.once.Closing?
    case StopWait => s.once.Waiting? && AllReturned(s)
    case StopRelease(c) => c in s.stopCalls && s.stopCalls[c].Blocked? && s.once.Finished?
  }

  function ItemOf(s: State, call: nat): Item
    requires call in s.inFlight
  {
    Item(call, s.inFlight[call].msg, s.inFlight[call].loadedAt, s.now)
  }

  /** The effect of a step, apart from the passing of time. */
  function Effect(s: State, step: Step): State
    requires Enabled(s, step)
  {
    match step
    case SendLoad(call, msg) =>
      if s.stopped
      then s.(results := s.results[call := ErrMailerStopped])
      else s.(inFlight := s.inFlight[call := Pending(msg, s.now)])
    case SendOffer(call) =>
      if |s.queue| < s.bufferSize then
        s.(inFlight := s.inFlight - {call}, results := s.results[call := Accepted],
           queue := s.queue + [ItemOf(s, call)], accepted := s.accepted + [ItemOf(s, call)])
      else
        s.(inFlight := s.inFlight - {call}, results := s.results[call := ErrQueueFull])
    case SendHandOff(call, w) =>
      s.(inFlight := s.inFlight - {call}, results := s.results[call := Accepted],
         accepted := s.accepted + [ItemOf(s, call)], received := s.received + [ItemOf(s, call)],
         workers := s.workers[w := Sending(ItemOf(s, call))])
    case Receive(w) =>
      s.(queue := s.queue[1..], received := s.received + [s.queue[0]],
         workers := s.workers[w := Sending(s.queue[0])])
    case SeeQuit(w) => s.(workers := s.workers[w := Draining])
    case Delivered(w) =>
      s.(delegated := s.delegated + [s.workers[w].item], workers := s.workers[w := Selecting])
    case DrainReceive(w) =>
      s.(queue := s.queue[1..], received := s.received + [s.queue[0]],
         workers := s.workers[w := DrainSending(s.queue[0])])
    case DrainDelivered(w) =>
      s.(delegated := s.delegated + [s.workers[w].item], workers := s.workers[w := Draining])
    case DrainReturn(w) => s.(workers := s.workers[w := Returned])
    case StopEnter(c) =>
      if s.once.NotStarted? then s.(once := Storing, stopCalls := s.stopCalls[c := InBody])
      else if s.once.Finished? then s.(stopCalls := s.stopCalls[c := StopReturned])
      else s.(stopCalls := s.stopCalls[c := Blocked])
    case StopStore => s.(stopped := true, once := Closing, storedAt := s.now)
    case StopClose => s.(quitClosed := true, once := Waiting, closedAt := s.now)
    case StopWait =>
      s.(once := Finished,
         stopCalls := map c | c in s.stopCalls :: if s.stopCalls[c].InBody? then StopReturned else s.stopCalls[c])
    case StopRelease(c) => s.(stopCalls := s.stopCalls[c := StopReturned])
  }

  function Next(s: State, step: Step): State
    requires Enabled(s, step)
  {
    Effect(s, step).(now := s.now + 1)
  }

  /** The steps of `run` are enabled one after the other, starting from `s`. */
  predicate IsRun(s: State, run: seq<Step>)
    decreases |run|, 0
  {
    run == [] || (IsRun(s, Init(run)) && Enabled(After(s, Init(run)), Last(run)))
  }

  function After(s: State, run: seq<Step>): State
    requires IsRun(s, run)
    decreases |run|, 1
  {
    if run == [] then s else Next(After(s, Init(run)), Last(run))
  }

  lemma RunExtends(s: State, run: seq<Step>, step: Step)
    requires IsRun(s, run) && Enabled(After(s, run), step)
    ensures IsRun(s, run + [step]) && After(s, run + [step]) == Next(After(s, run), step)
  {
    hide Next, Enabled;
    assert Init(run + [step]) == run;
  }

  lemma {:induction false} RunsCompose(s: State, first: seq<Step>, second: seq<Step>)
    requires IsRun(s, first) && IsRun(After(s, first), second)
    ensures IsRun(s, first + second) && After(s, first + second) == After(After(s, first), second)
    decreases |second|
  {
    hide Next, Enabled;
    if second == [] {
      assert first + second == first;
    } else {
      RunsCompose(s, first, Init(second));
      assert Init(first + second) == first + Init(second);
    }
  }

  lemma SingleStepRun(s: State, step: Step)
    requires Enabled(s, step)
    ensures IsRun(s, [step]) && After(s, [step]) == Next(s, step)
  {
    hide Next, Enabled;
    assert Init([step]) == [];
  }
}
