/** What Stop guarantees: which messages are delivered, which can be left behind, and that it ends. */
module MailerShutdown {
  import opened Prelude
  import opened MailerProtocol
  import opened MailerInvariant

  /** Work still to do after the close: each call in flight may add a message, each message is
      received and delivered, each worker walks to its return. */
  function WorkLeft(s: State): nat {
    3 * |s.inFlight| + 2 * |s.queue| + Weights(s.workers)
  }

  function Weight(p: Worker): nat {
    match p
    case Sending(_) => 3
    case Selecting => 2
    case DrainSending(_) => 2
    case Draining => 1
    case Returned => 0
  }

  function Weights(workers: seq<Worker>): nat {
    if workers == [] then 0 else Weights(workers[..|workers| - 1]) + Weight(workers[|workers| - 1])
  }

  predicate MovesWorkerOrSend(step: Step) {
    !step.SendLoad? && !step.StopEnter? && !step.StopStore? && !step.StopClose? && !step.StopWait? && !step.StopRelease?
  }

  function Moves(run: seq<Step>): nat
    decreases |run|
  {
    if run == [] then 0 else Moves(Init(run)) + (if MovesWorkerOrSend(Last(run)) then 1 else 0)
  }

  function Closes(run: seq<Step>): nat
    decreases |run|
  {
    if run == [] then 0 else Closes(Init(run)) + (if Last(run).StopClose? then 1 else 0)
  }

  lemma {:induction false} WeightsUpdate(workers: seq<Worker>, w: nat, p: Worker)
    requires w < |workers|
    ensures Weights(workers[w := p]) + Weight(workers[w]) == Weights(workers) + Weight(p)
    decreases |workers|
  {
    hide Weight;
    var n := |workers| - 1;
    var moved := workers[w := p];
    if w == n {
      assert moved[..n] == workers[..n];
    } else {
      WeightsUpdate(workers[..n], w, p);
      assert moved[..n] == workers[..n][w := p];
      assert moved[n] == workers[n];
    }
  }

  lemma InFlightShrinks(inFlight: map<nat, Pending>, call: nat)
    requires call in inFlight
    ensures |inFlight - {call}| == |inFlight| - 1
  {
    assert (inFlight - {call}).Keys == inFlight.Keys - {call};
  }

  /** Once `quit` is closed every step of a worker or of a Send in flight uses up some of the work
      left, and no other step adds any. */
  lemma StepUsesWork(s: State, step: Step)
    requires ShutdownClock(s) && s.quitClosed && Enabled(s, step)
    ensures Next(s, step).quitClosed
    ensures MovesWorkerOrSend(step) ==> WorkLeft(Next(s, step)) < WorkLeft(s)
    ensures !MovesWorkerOrSend(step) ==> WorkLeft(Next(s, step)) == WorkLeft(s)
  {
    hide WorkLeft, Weights;
    var t := Next(s, step);
    match step {
      case SendOffer(call) => OfferUsesWork(s, t, call);
      case Receive(w) => WorkerUsesWork(s, t, w);
      case SeeQuit(w) => WorkerUsesWork(s, t, w);
      case Delivered(w) => WorkerUsesWork(s, t, w);
      case DrainReceive(w) => WorkerUsesWork(s, t, w);
      case DrainDelivered(w) => WorkerUsesWork(s, t, w);
      case DrainReturn(w) => WorkerUsesWork(s, t, w);
      case _ => SameWork(s, t);
    }
  }

  lemma SameWork(s: State, t: State)
    requires t.inFlight == s.inFlight && t.queue == s.queue && t.workers == s.workers
    ensures WorkLeft(t) == WorkLeft(s)
  {
  }

  lemma OfferUsesWork(s: State, t: State, call: nat)
    requires call in s.inFlight && t.inFlight == s.inFlight - {call} && t.workers == s.workers
    requires |t.queue| <= |s.queue| + 1
    ensures WorkLeft(t) < WorkLeft(s)
  {
    InFlightShrinks(s.inFlight, call);
  }

  lemma WorkerUsesWork(s: State, t: State, w: nat)
    requires w < |s.workers| && |t.workers| == |s.workers| && t.workers == s.workers[w := t.workers[w]]
    requires t.inFlight == s.inFlight
    requires 2 * |t.queue| + Weight(t.workers[w]) < 2 * |s.queue| + Weight(s.workers[w])
    ensures WorkLeft(t) < WorkLeft(s)
  {
    WeightsUpdate(s.workers, w, t.workers[w]);
  }

  lemma {:induction false} DrainIsFinite(s: State, run: seq<Step>)
    requires Inv(s) && s.quitClosed && IsRun(s, run)
    ensures After(s, run).quitClosed
    ensures Moves(run) + WorkLeft(After(s, run)) <= WorkLeft(s)
    decreases |run|
  {
    hide Next, Enabled, WorkLeft, MovesWorkerOrSend;
    if run != [] {
      DrainIsFinite(s, Init(run));
      RunKeepsInv(s, Init(run));
      StepUsesWork(After(s, Init(run)), Last(run));
    }
  }

  /** The step a live worker can always take once `quit` is closed. */
  function NextMove(s: State, w: nat): Step
    requires w < |s.workers|
  {
    match s.workers[w]
    case Selecting => SeeQuit(w)
    case Sending(_) => Delivered(w)
    case Draining => if s.queue == [] then DrainReturn(w) else DrainReceive(w)
    case DrainSending(_) => DrainDelivered(w)
    case Returned => DrainReturn(w)
  }

  lemma LiveWorkersAreNeverStuck(s: State, w: nat)
    requires s.quitClosed && w < |s.workers| && !s.workers[w].Returned?
    ensures Enabled(s, NextMove(s, w)) && MovesWorkerOrSend(NextMove(s, w))
    ensures SameSurroundings(s, Next(s, NextMove(s, w)))
  {
  }

  /** What steps of workers leave alone. */
  ghost predicate SameSurroundings(s: State, t: State) {
    && t.inFlight == s.inFlight && t.once == s.once && t.stopCalls == s.stopCalls
    && t.bufferSize == s.bufferSize && |t.workers| == |s.workers|
    && t.stopped == s.stopped && t.quitClosed == s.quitClosed
    && |t.queue| <= |s.queue|
  }

  /** From any state after the close the workers alone can walk to their returns. */
  lemma {:induction false} WorkersCanDrain(s: State) returns (run: seq<Step>)
    requires Inv(s) && s.quitClosed
    ensures IsRun(s, run) && AllReturned(After(s, run)) && SameSurroundings(s, After(s, run))
    ensures |s.workers| > 0 && !AllReturned(s) ==> After(s, run).queue == []
    decreases WorkLeft(s)
  {
    hide Next, Enabled, WorkLeft, Inv, NextMove;
    if AllReturned(s) {
      run := [];
    } else {
      var w :| 0 <= w < |s.workers| && !s.workers[w].Returned?;
      LiveWorkersAreNeverStuck(s, w);
      var step := NextMove(s, w);
      var t := Next(s, step);
      assert Inv(t) by { StepKeepsInv(s, step); }
      assert ShutdownClock(s) by { InvParts(s); }
      StepUsesWork(s, step);
      var rest := WorkersCanDrain(t);
      SingleStepRun(s, step);
      RunsCompose(s, [step], rest);
      run := [step] + rest;
      if AllReturned(t) {
        LastReturnFindsItEmpty(s, w);
      }
    }
  }

  lemma InvParts(s: State)
    requires Inv(s)
    ensures Fifo(s) && Ledger(s) && Calls(s) && ShutdownClock(s) && InFlightClock(s) && AcceptedClock(s)
    ensures Drain(s) && Stops(s)
  {
  }

  lemma LastReturnFindsItEmpty(s: State, w: nat)
    requires s.quitClosed && w < |s.workers| && !s.workers[w].Returned?
    requires Enabled(s, NextMove(s, w)) && AllReturned(Next(s, NextMove(s, w)))
    ensures Next(s, NextMove(s, w)).queue == []
  {
    var t := Next(s, NextMove(s, w));
    assert t.workers[w].Returned?;
  }
}
