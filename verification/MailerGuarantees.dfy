/** What a caller of the mailer can rely on, over every run from Start: exactly-once hand-off in
    order, complete delivery at shutdown, and exactly which messages can be left behind. */
module MailerGuarantees {
  import opened Prelude
  import opened MailerProtocol
  import opened MailerInvariant
  import opened MailerShutdown

  lemma {:induction false} RunKeepsShape(s: State, run: seq<Step>)
    requires IsRun(s, run)
    ensures |After(s, run).workers| == |s.workers| && After(s, run).bufferSize == s.bufferSize
    ensures After(s, run).now == s.now + |run|
    decreases |run|
  {
    hide Enabled;
    if run != [] {
      RunKeepsShape(s, Init(run));
      StepKeepsShape(After(s, Init(run)), Last(run));
    }
  }

  lemma StepKeepsShape(s: State, step: Step)
    requires Enabled(s, step)
    ensures |Next(s, step).workers| == |s.workers| && Next(s, step).bufferSize == s.bufferSize
    ensures Next(s, step).now == s.now + 1
  {
  }

  /** The recorded moments are the positions of the very steps in the run. */
  ghost predicate Stamped(s: State, run: seq<Step>) {
    s.now == |run| && LoadsStamped(s.inFlight, run) && ItemsStamped(s.accepted, run) && ShutdownStamped(s, run)
  }

  ghost predicate LoadsStamped(inFlight: map<nat, Pending>, run: seq<Step>) {
    forall c :: c in inFlight ==>
      inFlight[c].loadedAt < |run| && run[inFlight[c].loadedAt] == SendLoad(c, inFlight[c].msg)
  }

  ghost predicate ItemsStamped(items: seq<Item>, run: seq<Step>) {
    forall i :: 0 <= i < |items| ==> ItemStamped(items[i], run)
  }

  ghost predicate ShutdownStamped(s: State, run: seq<Step>) {
    && (s.stopped ==> s.storedAt < |run| && run[s.storedAt] == StopStore)
    && (s.quitClosed ==> s.closedAt < |run| && run[s.closedAt] == StopClose)
  }

  ghost predicate ItemStamped(item: Item, run: seq<Step>) {
    && item.loadedAt < |run| && run[item.loadedAt] == SendLoad(item.call, item.msg)
    && item.offeredAt < |run| && IsOffer(run[item.offeredAt], item.call)
  }

  predicate IsOffer(step: Step, call: nat) {
    (step.SendOffer? || step.SendHandOff?) && step.call == call
  }

  lemma LongerRunKeepsStamps(s: State, run: seq<Step>, step: Step)
    requires Stamped(s, run)
    ensures LoadsStamped(s.inFlight, run + [step]) && ItemsStamped(s.accepted, run + [step])
    ensures ShutdownStamped(s, run + [step])
  {
    assert forall i :: 0 <= i < |run| ==> (run + [step])[i] == run[i];
  }

  lemma StepKeepsStamps(s: State, run: seq<Step>, step: Step)
    requires Stamped(s, run) && Enabled(s, step)
    ensures Stamped(Next(s, step), run + [step])
  {
    hide LoadsStamped, ItemsStamped, ShutdownStamped, Next, Enabled;
    LongerRunKeepsStamps(s, run, step);
    StepKeepsShape(s, step);
    ShutdownIsStamped(s, run, step);
    if step.SendLoad? {
      LoadIsStamped(s, run, step);
    } else if step.SendOffer? || step.SendHandOff? {
      OfferIsStamped(s, run, step);
    } else {
      OnlySendsSend(s, step);
    }
  }

  lemma OnlySendsSend(s: State, step: Step)
    requires Enabled(s, step) && !step.SendLoad? && !step.SendOffer? && !step.SendHandOff?
    ensures Next(s, step).inFlight == s.inFlight && Next(s, step).accepted == s.accepted
  {
    match step {
      case Receive(_) =>
      case DrainReceive(_) =>
      case _ =>
    }
  }

  lemma ShutdownIsStamped(s: State, run: seq<Step>, step: Step)
    requires s.now == |run| && Enabled(s, step) && ShutdownStamped(s, run + [step])
    ensures ShutdownStamped(Next(s, step), run + [step])
  {
  }

  lemma LoadIsStamped(s: State, run: seq<Step>, step: Step)
    requires s.now == |run| && step.SendLoad? && Enabled(s, step) && LoadsStamped(s.inFlight, run + [step])
    ensures LoadsStamped(Next(s, step).inFlight, run + [step]) && Next(s, step).accepted == s.accepted
  {
  }

  lemma OfferIsStamped(s: State, run: seq<Step>, step: Step)
    requires s.now == |run| && (step.SendOffer? || step.SendHandOff?) && Enabled(s, step)
    requires LoadsStamped(s.inFlight, run + [step]) && ItemsStamped(s.accepted, run + [step])
    ensures LoadsStamped(Next(s, step).inFlight, run + [step])
    ensures ItemsStamped(Next(s, step).accepted, run + [step])
  {
    assert ItemStamped(ItemOf(s, step.call), run + [step]);
    hide ItemStamped, IsOffer;
  }

  lemma {:induction false} RunIsStamped(bufferSize: nat, workers: nat, run: seq<Step>)
    requires IsRun(Started(bufferSize, workers), run)
    ensures Stamped(After(Started(bufferSize, workers), run), run)
    decreases |run|
  {
    hide Enabled, Next;
    if run != [] {
      RunIsStamped(bufferSize, workers, Init(run));
      StepKeepsStamps(After(Started(bufferSize, workers), Init(run)), Init(run), Last(run));
      assert Init(run) + [Last(run)] == run;
    }
  }

  lemma ReachableHoldsInv(bufferSize: nat, workers: nat, run: seq<Step>)
    requires IsRun(Started(bufferSize, workers), run)
    ensures Inv(After(Started(bufferSize, workers), run))
    ensures |After(Started(bufferSize, workers), run).workers| == workers
    ensures After(Started(bufferSize, workers), run).bufferSize == bufferSize
  {
    StartedHolds(bufferSize, workers);
    RunKeepsInv(Started(bufferSize, workers), run);
    RunKeepsShape(Started(bufferSize, workers), run);
  }

  /** In every reachable state: the messages received and then those queued are the accepted ones in
      the order of their channel operations; what was received is delegated or held by a worker, as
      a multiset; no worker holds two; and a call returned nil exactly when it has its one item,
      carrying the message it was called with. */
  lemma ExactlyOnceHandOff(bufferSize: nat, workers: nat, run: seq<Step>)
    requires IsRun(Started(bufferSize, workers), run)
    ensures
      var s := After(Started(bufferSize, workers), run);
      && s.received + s.queue == s.accepted
      && (forall i, j :: 0 <= i < j < |s.accepted| ==> s.accepted[i].offeredAt < s.accepted[j].offeredAt)
      && multiset(s.received) == multiset(s.delegated) + Held(s.workers)
      && |Held(s.workers)| <= workers
      && (forall i, j :: 0 <= i < j < |s.accepted| ==> s.accepted[i].call != s.accepted[j].call)
      && (forall i :: 0 <= i < |s.accepted| ==> ItemStamped(s.accepted[i], run))
      && (forall c :: (c in s.results && s.results[c] == Accepted) <==> HasItem(s.accepted, c))
  {
    var s := After(Started(bufferSize, workers), run);
    ReachableHoldsInv(bufferSize, workers, run);
    RunIsStamped(bufferSize, workers, run);
    HeldAtMostOneEach(s.workers);
  }

  /** The select of this Send found bufferSize messages in the channel. */
  ghost predicate MetFullChannel(s: State, run: seq<Step>, call: nat)
    requires IsRun(s, run)
    decreases |run|
  {
    run != [] &&
    var before := After(s, Init(run));
    (Last(run) == SendOffer(call) && |before.queue| == s.bufferSize) || MetFullChannel(s, Init(run), call)
  }

  /** This Send loaded the flag after Stop had stored it. */
  ghost predicate LoadedAfterStore(run: seq<Step>, call: nat) {
    run != [] &&
    ((Last(run).SendLoad? && Last(run).call == call && StopStore in Init(run)) || LoadedAfterStore(Init(run), call))
  }

  predicate Failed(s: State, call: nat, result: SendResult) {
    call in s.results && s.results[call] == result
  }

  /** The other half: over every run, a call returns ErrQueueFull exactly when it met a channel that held
      bufferSize messages, and ErrMailerStopped exactly when it loaded the flag after the store. */
  lemma {:induction false} FailuresAreExplained(bufferSize: nat, workers: nat, run: seq<Step>, call: nat)
    requires IsRun(Started(bufferSize, workers), run)
    ensures Failed(After(Started(bufferSize, workers), run), call, ErrQueueFull)
      <==> MetFullChannel(Started(bufferSize, workers), run, call)
    ensures Failed(After(Started(bufferSize, workers), run), call, ErrMailerStopped) <==> LoadedAfterStore(run, call)
    decreases |run|
  {
    hide Next, Enabled, Inv, Failed;
    if run == [] {
      assert !Failed(Started(bufferSize, workers), call, ErrQueueFull) by { NothingFailed(bufferSize, workers, call); }
      assert !Failed(Started(bufferSize, workers), call, ErrMailerStopped) by { NothingFailed(bufferSize, workers, call); }
    } else {
      FailuresAreExplained(bufferSize, workers, Init(run), call);
      ReachableHoldsInv(bufferSize, workers, Init(run));
      StoppedByStore(bufferSize, workers, Init(run));
      StepFails(After(Started(bufferSize, workers), Init(run)), Last(run), call);
    }
  }

  lemma NothingFailed(bufferSize: nat, workers: nat, call: nat)
    ensures forall result :: !Failed(Started(bufferSize, workers), call, result)
  {
  }

  lemma {:induction false} StoppedByStore(bufferSize: nat, workers: nat, run: seq<Step>)
    requires IsRun(Started(bufferSize, workers), run)
    ensures After(Started(bufferSize, workers), run).stopped <==> StopStore in run
    decreases |run|
  {
    hide Next, Enabled;
    if run != [] {
      StoppedByStore(bufferSize, workers, Init(run));
      OnlyStoreStops(After(Started(bufferSize, workers), Init(run)), Last(run));
      assert run == Init(run) + [Last(run)];
    }
  }

  lemma OnlyStoreStops(s: State, step: Step)
    requires Enabled(s, step)
    ensures Next(s, step).stopped <==> s.stopped || step == StopStore
  {
  }

  lemma StepFails(s: State, step: Step, call: nat)
    requires Inv(s) && Enabled(s, step)
    ensures Failed(Next(s, step), call, ErrQueueFull)
      <==> Failed(s, call, ErrQueueFull) || (step == SendOffer(call) && |s.queue| == s.bufferSize)
    ensures Failed(Next(s, step), call, ErrMailerStopped)
      <==> Failed(s, call, ErrMailerStopped) || (step.SendLoad? && step.call == call && s.stopped)
  {
    hide Ledger, Clock, Drain, Stops, OneItemPerAcceptedCall;
    if !step.SendLoad? && !step.SendOffer? && !step.SendHandOff? {
      OnlySendsReturn(s, step);
      hide Next, Inv;
    }
  }

  lemma OnlySendsReturn(s: State, step: Step)
    requires Enabled(s, step) && !step.SendLoad? && !step.SendOffer? && !step.SendHandOff?
    ensures Next(s, step).results == s.results
  {
    match step {
      case Receive(_) =>
      case DrainReceive(_) =>
      case _ =>
    }
  }

  lemma NobodyHoldsAfterReturn(s: State)
    requires Inv(s) && AllReturned(s)
    ensures multiset(s.delegated) == multiset(s.received)
  {
    HeldAtMostOneEach(s.workers);
  }

  /** Stop never returns while a worker runs, and by then every message accepted before `quit` was
      closed has been handed to the delegate exactly once. */
  lemma ShutdownIsComplete(bufferSize: nat, workers: nat, run: seq<Step>, stop: nat, item: Item)
    requires workers > 0
    requires IsRun(Started(bufferSize, workers), run)
    requires stop in After(Started(bufferSize, workers), run).stopCalls
    requires After(Started(bufferSize, workers), run).stopCalls[stop] == StopReturned
    ensures
      var s := After(Started(bufferSize, workers), run);
      && AllReturned(s)
      && (item in s.accepted && item.offeredAt < s.closedAt ==> multiset(s.delegated)[item] == 1)
  {
    var s := After(Started(bufferSize, workers), run);
    ReachableHoldsInv(bufferSize, workers, run);
    NobodyHoldsAfterReturn(s);
    if item in s.accepted && item.offeredAt < s.closedAt {
      assert s.workers[0].Returned?;
      assert item !in s.queue;
      AcceptedOnce(s, item);
    }
  }

  lemma AcceptedOnce(s: State, item: Item)
    requires Fifo(s) && Calls(s) && item in s.accepted && item !in s.queue
    ensures multiset(s.received)[item] == 1
  {
    assert item in s.received + s.queue;
    var i :| 0 <= i < |s.received| && s.received[i] == item;
    assert s.accepted[..|s.received|] == s.received;
    OccursOnce(s.received, i);
  }

  lemma {:induction false} OccursOnce(items: seq<Item>, i: nat)
    requires i < |items| && forall j, k :: 0 <= j < k < |items| ==> items[j].call != items[k].call
    ensures multiset(items)[items[i]] == 1
  {
    assert items == items[..i] + [items[i]] + items[i + 1..];
    assert items[i] !in items[..i];
    assert items[i] !in items[i + 1..];
  }

  /** A message still in the channel when Stop has returned: its Send loaded `stopped` before the
      store and did its channel operation after the close. */
  lemma StrandedMessagesAreLate(bufferSize: nat, workers: nat, run: seq<Step>, item: Item)
    requires workers > 0
    requires IsRun(Started(bufferSize, workers), run)
    requires After(Started(bufferSize, workers), run).once == Finished
    requires item in After(Started(bufferSize, workers), run).queue
    ensures
      exists load, store, close, offer ::
        && 0 <= load < store < close < offer < |run|
        && run[load] == SendLoad(item.call, item.msg)
        && run[store] == StopStore && run[close] == StopClose
        && IsOffer(run[offer], item.call)
  {
    hide Inv, Stamped;
    var s := After(Started(bufferSize, workers), run);
    ReachableHoldsInv(bufferSize, workers, run);
    RunIsStamped(bufferSize, workers, run);
    LeftInQueueIsLate(s, item);
    StampsOf(s, run, item);
  }

  lemma LeftInQueueIsLate(s: State, item: Item)
    requires Inv(s) && s.once == Finished && |s.workers| > 0 && item in s.queue
    ensures item in s.accepted && s.stopped && s.quitClosed
    ensures item.loadedAt < s.storedAt < s.closedAt < item.offeredAt
  {
    var i :| 0 <= i < |s.queue| && s.queue[i] == item;
    assert s.accepted[|s.received| + i] == item;
    assert s.workers[0].Returned?;
  }

  lemma StampsOf(s: State, run: seq<Step>, item: Item)
    requires Stamped(s, run) && item in s.accepted && s.stopped && s.quitClosed
    ensures ItemStamped(item, run) && ShutdownStamped(s, run) && item.offeredAt < |run|
  {
  }

  /** No continuation of `s` ends with a message left in the channel. */
  ghost predicate NeverStrands(s: State) {
    forall run :: IsRun(s, run) && After(s, run).once == Finished ==> After(s, run).queue == []
  }

  lemma {:induction false} QuietAfterStore(s: State, run: seq<Step>)
    requires Inv(s) && s.stopped && s.inFlight == map[] && IsRun(s, run)
    ensures After(s, run).stopped && After(s, run).inFlight == map[] && After(s, run).accepted == s.accepted
    ensures s.received <= After(s, run).received
    decreases |run|
  {
    hide Next, Enabled, Inv;
    if run != [] {
      QuietAfterStore(s, Init(run));
      QuietStep(After(s, Init(run)), Last(run));
    }
  }

  lemma QuietStep(s: State, step: Step)
    requires s.stopped && s.inFlight == map[] && Enabled(s, step)
    ensures Next(s, step).stopped && Next(s, step).inFlight == map[]
    ensures Next(s, step).accepted == s.accepted && s.received <= Next(s, step).received
  {
  }

  lemma {:induction false} CloseComesLater(s: State, run: seq<Step>)
    requires Inv(s) && !s.quitClosed && IsRun(s, run)
    ensures After(s, run).quitClosed ==> s.now <= After(s, run).closedAt
    decreases |run|
  {
    hide Next, Enabled, Inv;
    if run != [] {
      CloseComesLater(s, Init(run));
      RunKeepsShape(s, Init(run));
      CloseIsStamped(After(s, Init(run)), Last(run));
    }
  }

  lemma CloseIsStamped(s: State, step: Step)
    requires Enabled(s, step)
    ensures Next(s, step).quitClosed && !s.quitClosed ==> Next(s, step).closedAt == s.now
    ensures s.quitClosed && !step.StopClose? ==> Next(s, step).quitClosed && Next(s, step).closedAt == s.closedAt
    ensures s.quitClosed && step.StopClose? ==> Next(s, step).closedAt == s.now
  {
  }

  lemma NothingInFlightNothingLeft(s: State, run: seq<Step>)
    requires Inv(s) && s.once == Closing && s.inFlight == map[]
    requires |s.workers| > 0 || s.queue == []
    requires IsRun(s, run) && After(s, run).once == Finished
    ensures After(s, run).queue == []
  {
    var t := After(s, run);
    RunKeepsInv(s, run);
    RunKeepsShape(s, run);
    QuietAfterStore(s, run);
    CloseComesLater(s, run);
    hide Inv;
    if |s.workers| > 0 {
      if t.queue != [] {
        LeftInQueueIsLate(t, t.queue[0]);
        AcceptedIsPast(s, t.queue[0]);
        assert false;
      }
    } else {
      assert |s.accepted| == |s.received| && |t.accepted| == |t.received| + |t.queue| by {
        QueueAndReceivedAreAccepted(s);
        QueueAndReceivedAreAccepted(t);
      }
    }
  }

  lemma AcceptedIsPast(s: State, item: Item)
    requires Inv(s) && item in s.accepted
    ensures item.offeredAt < s.now
  {
  }

  lemma QueueAndReceivedAreAccepted(s: State)
    requires Inv(s)
    ensures |s.accepted| == |s.received| + |s.queue|
  {
  }

  /** With a Send in flight past the flag and room for one message, the run in which that Send waits
      until the workers have drained and returned leaves its message behind. */
  lemma StrandingRun(s: State, call: nat) returns (run: seq<Step>)
    requires Inv(s) && s.once == Closing && s.bufferSize > 0 && call in s.inFlight
    ensures IsRun(s, run) && After(s, run).once == Finished && After(s, run).queue != []
  {
    hide Inv, Next, Enabled;
    assert Enabled(s, StopClose) && !s.quitClosed by { CloseIsEnabled(s); }
    var closed := Next(s, StopClose);
    assert Inv(closed) by { StepKeepsInv(s, StopClose); }
    ClosedSurroundings(s);
    var drain := WorkersCanDrain(closed);
    var drained := After(closed, drain);
    var offered := Next(drained, SendOffer(call)) by { OfferStrands(drained, call); }
    OfferStrands(drained, call);
    SingleStepRun(s, StopClose);
    RunsCompose(s, [StopClose], drain);
    SingleStepRun(drained, SendOffer(call));
    RunsCompose(s, [StopClose] + drain, [SendOffer(call)]);
    SingleStepRun(offered, StopWait);
    RunsCompose(s, [StopClose] + drain + [SendOffer(call)], [StopWait]);
    run := [StopClose] + drain + [SendOffer(call)] + [StopWait];
  }

  lemma CloseIsEnabled(s: State)
    requires Inv(s) && s.once == Closing
    ensures Enabled(s, StopClose) && s.stopped && !s.quitClosed
  {
  }

  lemma ClosedSurroundings(s: State)
    requires Enabled(s, StopClose)
    ensures
      var t := Next(s, StopClose);
      && t.quitClosed && t.once == Waiting && t.inFlight == s.inFlight && t.bufferSize == s.bufferSize
      && t.workers == s.workers && t.queue == s.queue
  {
  }

  lemma OfferStrands(s: State, call: nat)
    requires s.bufferSize > 0 && call in s.inFlight && s.once == Waiting && AllReturned(s)
    ensures Enabled(s, SendOffer(call))
    ensures
      var t := Next(s, SendOffer(call));
      && Enabled(t, StopWait) && Next(t, StopWait).queue != [] && Next(t, StopWait).once == Finished
  {
  }

  /** And such a state is reached: a Send loads the flag, and Stop is entered and stores it. */
  lemma StrandingIsReached(bufferSize: nat, workers: nat, msg: Message) returns (run: seq<Step>)
    requires bufferSize > 0
    ensures IsRun(Started(bufferSize, workers), run)
    ensures After(Started(bufferSize, workers), run).once == Finished && After(Started(bufferSize, workers), run).queue != []
  {
    hide Inv, Next, Enabled, IsRun, After;
    var s := Started(bufferSize, workers);
    SendLoadsAndStopStores(bufferSize, workers, msg);
    SingleStepRun(s, SendLoad(0, msg));
    RunExtends(s, [SendLoad(0, msg)], StopEnter(0));
    RunExtends(s, [SendLoad(0, msg)] + [StopEnter(0)], StopStore);
    var before := [SendLoad(0, msg)] + [StopEnter(0)] + [StopStore];
    ReachableHoldsInv(bufferSize, workers, before);
    var rest := StrandingRun(After(s, before), 0);
    RunsCompose(s, before, rest);
    run := before + rest;
  }

  lemma SendLoadsAndStopStores(bufferSize: nat, workers: nat, msg: Message)
    ensures
      var s := Started(bufferSize, workers);
      && Enabled(s, SendLoad(0, msg)) && Enabled(Next(s, SendLoad(0, msg)), StopEnter(0))
      && Enabled(Next(Next(s, SendLoad(0, msg)), StopEnter(0)), StopStore)
      && var t := Next(Next(Next(s, SendLoad(0, msg)), StopEnter(0)), StopStore);
      && t.once == Closing && t.bufferSize == bufferSize && 0 in t.inFlight
  {
  }

  lemma UndrainedRun(s: State) returns (run: seq<Step>)
    requires Inv(s) && s.once == Closing && |s.workers| == 0 && s.queue != []
    ensures IsRun(s, run) && After(s, run).once == Finished && After(s, run).queue != []
  {
    var closed := Next(s, StopClose);
    SingleStepRun(s, StopClose);
    SingleStepRun(closed, StopWait);
    RunsCompose(s, [StopClose], [StopWait]);
    run := [StopClose] + [StopWait];
  }

  /** Exactly when the shutdown cannot leave a message behind, seen from any moment between the
      store of `stopped` and the close of `quit`: no Send is between its check and its channel
      operation and a worker exists to drain what is queued, or the channel has no buffer at all. */
  lemma NeverStrandsIff(s: State)
    requires Inv(s) && s.once == Closing
    ensures NeverStrands(s) <==>
      (s.bufferSize == 0 || (s.inFlight == map[] && (|s.workers| > 0 || s.queue == [])))
  {
    if s.bufferSize == 0 {
      forall run | IsRun(s, run) && After(s, run).once == Finished
        ensures After(s, run).queue == []
      {
        RunKeepsInv(s, run);
        RunKeepsShape(s, run);
      }
    } else if s.inFlight != map[] {
      var call :| call in s.inFlight;
      var run := StrandingRun(s, call);
    } else if |s.workers| == 0 && s.queue != [] {
      var run := UndrainedRun(s);
    } else {
      forall run | IsRun(s, run) && After(s, run).once == Finished
        ensures After(s, run).queue == []
      {
        NothingInFlightNothingLeft(s, run);
      }
    }
  }

  /** Stopping when no Send sits between its check and its channel operation, as after the server has
      shut down, delivers exactly what was accepted. */
  lemma QuietStopDeliversEverything(bufferSize: nat, workers: nat, before: seq<Step>, rest: seq<Step>)
    requires workers > 0
    requires IsRun(Started(bufferSize, workers), before)
    requires After(Started(bufferSize, workers), before).once == Storing
    requires After(Started(bufferSize, workers), before).inFlight == map[]
    requires IsRun(Next(After(Started(bufferSize, workers), before), StopStore), rest)
    requires After(Next(After(Started(bufferSize, workers), before), StopStore), rest).once == Finished
    ensures
      var end := After(Next(After(Started(bufferSize, workers), before), StopStore), rest);
      end.queue == [] && multiset(end.delegated) == multiset(end.accepted)
  {
    var s := After(Started(bufferSize, workers), before);
    var t := Next(s, StopStore);
    ReachableHoldsInv(bufferSize, workers, before);
    StepKeepsInv(s, StopStore);
    NothingInFlightNothingLeft(t, rest);
    RunKeepsInv(t, rest);
    NobodyHoldsAfterReturn(After(t, rest));
    assert After(t, rest).received + [] == After(t, rest).received;
  }

  /** `quit` is closed at most once, however many calls of Stop race. */
  lemma {:induction false} QuitIsClosedAtMostOnce(s: State, run: seq<Step>)
    requires Inv(s) && IsRun(s, run)
    ensures Closes(run) + (if s.quitClosed then 1 else 0) == (if After(s, run).quitClosed then 1 else 0)
    decreases |run|
  {
    hide Next, Enabled;
    if run != [] {
      QuitIsClosedAtMostOnce(s, Init(run));
      RunKeepsInv(s, Init(run));
      OnlyStopCloseCloses(After(s, Init(run)), Last(run));
    }
  }

  lemma OnlyStopCloseCloses(s: State, step: Step)
    requires Inv(s) && Enabled(s, step)
    ensures step.StopClose? ==> !s.quitClosed && Next(s, step).quitClosed
    ensures !step.StopClose? ==> Next(s, step).quitClosed == s.quitClosed
  {
    hide HandOff, Calls, InFlightClock, AcceptedClock, Drain, Stops;
    match step {
      case StopClose =>
      case _ =>
    }
  }

  lemma ReleasedStop(s: State, stop: nat)
    requires Inv(s) && s.once == Finished && stop in s.stopCalls && s.stopCalls[stop] != StopReturned
    ensures Enabled(s, StopRelease(stop)) && Next(s, StopRelease(stop)) == s.(stopCalls := s.stopCalls[stop := StopReturned], now := s.now + 1)
  {
    hide HandOff, Calls, Clock, Drain;
  }

  /** The calls of Stop that have not returned. */
  function Open(s: State): set<nat> {
    set c | c in s.stopCalls && s.stopCalls[c] != StopReturned
  }

  /** And no caller is left behind: once the body has finished, some continuation lets every call of Stop that was
      made return, by steps of those calls alone. */
  lemma {:induction false} EveryStopCanReturn(s: State) returns (run: seq<Step>)
    requires Inv(s) && s.once == Finished
    ensures IsRun(s, run) && forall i :: 0 <= i < |run| ==> run[i].StopRelease?
    ensures After(s, run).stopCalls.Keys == s.stopCalls.Keys
    ensures forall c :: c in s.stopCalls ==> After(s, run).stopCalls[c] == StopReturned
    decreases |Open(s)|
  {
    hide Inv, Next, Enabled, IsRun, After;
    if stop :| stop in s.stopCalls && s.stopCalls[stop] != StopReturned {
      ReleasedStop(s, stop);
      StepKeepsInv(s, StopRelease(stop));
      SingleStepRun(s, StopRelease(stop));
      var t := Next(s, StopRelease(stop));
      assert stop in Open(s) && Open(t) == Open(s) - {stop};
      var rest := EveryStopCanReturn(t);
      RunsCompose(s, [StopRelease(stop)], rest);
      run := [StopRelease(stop)] + rest;
    } else {
      run := [];
      EmptyRun(s);
    }
  }

  lemma EmptyRun(s: State)
    ensures IsRun(s, []) && After(s, []) == s
  {
  }

  /** Stop cannot deadlock: once entered, some continuation finishes it; and by DrainIsFinite every
      continuation runs out of worker steps after the close. */
  lemma StopCanAlwaysFinish(s: State) returns (run: seq<Step>)
    requires Inv(s) && s.once != NotStarted
    ensures IsRun(s, run) && After(s, run).once == Finished
    decreases match s.once case Storing => 2 case Closing => 1 case _ => 0
  {
    hide Inv, Next, Enabled;
    match s.once {
      case Finished => run := [];
      case Waiting =>
        assert s.quitClosed by { WaitingIsAfterClose(s); }
        var drain := WorkersCanDrain(s);
        WaitIsEnabled(After(s, drain));
        SingleStepRun(After(s, drain), StopWait);
        RunsCompose(s, drain, [StopWait]);
        run := drain + [StopWait];
      case Closing =>
        CloseIsEnabled(s);
        ClosedSurroundings(s);
        StepKeepsInv(s, StopClose);
        SingleStepRun(s, StopClose);
        var rest := StopCanAlwaysFinish(Next(s, StopClose));
        RunsCompose(s, [StopClose], rest);
        run := [StopClose] + rest;
      case Storing =>
        StoreIsEnabled(s);
        StepKeepsInv(s, StopStore);
        SingleStepRun(s, StopStore);
        var rest := StopCanAlwaysFinish(Next(s, StopStore));
        RunsCompose(s, [StopStore], rest);
        run := [StopStore] + rest;
    }
  }

  lemma WaitingIsAfterClose(s: State)
    requires Inv(s) && s.once == Waiting
    ensures s.quitClosed
  {
  }

  lemma WaitIsEnabled(s: State)
    requires s.once == Waiting && AllReturned(s)
    ensures Enabled(s, StopWait) && Next(s, StopWait).once == Finished
  {
  }

  lemma StoreIsEnabled(s: State)
    requires s.once == Storing
    ensures Enabled(s, StopStore) && Next(s, StopStore).once == Closing
  {
  }
}
