/** What every step of the mailer protocol keeps. */
module MailerInvariant {
  import opened Prelude
  import opened MailerProtocol

  function HeldBy(p: Worker): multiset<Item> {
    match p
    case Sending(item) => multiset{item}
    case DrainSending(item) => multiset{item}
    case _ => multiset{}
  }

  /** The messages taken from the channel whose delivery has not returned yet. */
  function Held(workers: seq<Worker>): multiset<Item> {
    if workers == [] then multiset{} else Held(workers[..|workers| - 1]) + HeldBy(workers[|workers| - 1])
  }

  /** First in, first out, nothing lost and nothing twice between channel and delegate. */
  ghost predicate HandOff(s: State) {
    Fifo(s) && Ledger(s)
  }

  ghost predicate Fifo(s: State) {
    s.accepted == s.received + s.queue && |s.queue| <= s.bufferSize
  }

  ghost predicate Ledger(s: State) {
    multiset(s.received) == multiset(s.delegated) + Held(s.workers)
  }

  /** Exactly the calls that returned nil have an item, and each has one. */
  ghost predicate Calls(s: State) {
    OneItemPerAcceptedCall(s.accepted, s.results) && s.inFlight.Keys !! s.results.Keys
  }

  ghost predicate OneItemPerAcceptedCall(accepted: seq<Item>, results: map<nat, SendResult>) {
    && (forall i :: 0 <= i < |accepted| ==>
          accepted[i].call in results && results[accepted[i].call] == Accepted)
    && (forall i, j :: 0 <= i < j < |accepted| ==> accepted[i].call != accepted[j].call)
    && (forall c :: c in results && results[c] == Accepted ==> HasItem(accepted, c))
  }

  ghost predicate HasItem(items: seq<Item>, call: nat) {
    exists i :: 0 <= i < |items| && items[i].call == call
  }

  /** The order of loads, channel operations and the two shutdown steps. */
  ghost predicate Clock(s: State) {
    ShutdownClock(s) && InFlightClock(s) && AcceptedClock(s)
  }

  ghost predicate ShutdownClock(s: State) {
    && (s.stopped <==> s.once.Closing? || s.once.Waiting? || s.once.Finished?)
    && (s.quitClosed <==> s.once.Waiting? || s.once.Finished?)
    && (s.stopped ==> s.storedAt < s.now)
    && (s.quitClosed ==> s.storedAt < s.closedAt < s.now)
  }

  ghost predicate InFlightClock(s: State) {
    forall c :: c in s.inFlight ==>
      s.inFlight[c].loadedAt < s.now && (s.stopped ==> s.inFlight[c].loadedAt < s.storedAt)
  }

  ghost predicate AcceptedClock(s: State) {
    && (forall i :: 0 <= i < |s.accepted| ==>
          && s.accepted[i].loadedAt < s.accepted[i].offeredAt < s.now
          && (s.stopped ==> s.accepted[i].loadedAt < s.storedAt))
    && (forall i, j :: 0 <= i < j < |s.accepted| ==> s.accepted[i].offeredAt < s.accepted[j].offeredAt)
  }

  /** Workers drain only after the close, and one that has returned saw the channel empty since. */
  ghost predicate Drain(s: State) {
    DrainAfterClose(s) && ReturnedSawEmpty(s)
  }

  ghost predicate DrainAfterClose(s: State) {
    forall w :: 0 <= w < |s.workers| && !s.quitClosed ==> s.workers[w].Selecting? || s.workers[w].Sending?
  }

  ghost predicate ReturnedSawEmpty(s: State) {
    forall w, i :: 0 <= w < |s.workers| && s.workers[w].Returned? && 0 <= i < |s.queue| ==>
      s.closedAt < s.queue[i].offeredAt
  }

  ghost predicate Stops(s: State) {
    && (s.once == NotStarted ==> s.stopCalls == map[])
    && (s.once == Finished ==> AllReturned(s))
    && (forall c :: c in s.stopCalls && s.stopCalls[c] == InBody ==> s.once.Storing? || s.once.Closing? || s.once.Waiting?)
    && (forall c :: c in s.stopCalls && s.stopCalls[c] == StopReturned ==> s.once == Finished)
  }

  ghost predicate Inv(s: State) {
    HandOff(s) && Calls(s) && Clock(s) && Drain(s) && Stops(s)
  }

  lemma {:induction false} HeldUpdate(workers: seq<Worker>, w: nat, p: Worker, item: Item)
    requires w < |workers|
    ensures Held(workers[w := p])[item] + HeldBy(workers[w])[item] == Held(workers)[item] + HeldBy(p)[item]
    decreases |workers|
  {
    hide HeldBy;
    var n := |workers| - 1;
    var moved := workers[w := p];
    if w == n {
      assert moved[..n] == workers[..n];
    } else {
      HeldUpdate(workers[..n], w, p, item);
      assert moved[..n] == workers[..n][w := p];
      assert moved[n] == workers[n];
      assert Held(moved)[item] == Held(moved[..n])[item] + HeldBy(moved[n])[item];
    }
  }

  lemma {:induction false} HeldAtMostOneEach(workers: seq<Worker>)
    ensures |Held(workers)| <= |workers|
    ensures (forall w :: 0 <= w < |workers| ==> HeldBy(workers[w]) == multiset{}) ==> Held(workers) == multiset{}
    decreases |workers|
  {
    if workers != [] {
      HeldAtMostOneEach(workers[..|workers| - 1]);
    }
  }

  lemma {:induction false} StartedHolds(bufferSize: nat, workers: nat)
    ensures Inv(Started(bufferSize, workers))
  {
    HeldAtMostOneEach(Started(bufferSize, workers).workers);
  }

  lemma StepKeepsFifo(s: State, step: Step)
    requires Fifo(s) && Enabled(s, step)
    ensures Fifo(Next(s, step))
  {
    match step {
      case SendOffer(call) => QueueGrows(s.received, s.queue, ItemOf(s, call));
      case SendHandOff(call, _) => assert s.received + [] == s.received;
      case Receive(_) => QueueShrinks(s.received, s.queue);
      case DrainReceive(_) => QueueShrinks(s.received, s.queue);
      case _ =>
    }
  }

  lemma QueueGrows(received: seq<Item>, queue: seq<Item>, item: Item)
    ensures (received + queue) + [item] == received + (queue + [item])
  {
  }

  lemma QueueShrinks(received: seq<Item>, queue: seq<Item>)
    requires queue != []
    ensures received + queue == (received + [queue[0]]) + queue[1..]
  {
  }

  /** Taking an item moves it from the channel to a worker, a delivery from the worker to the delegate. */
  lemma StepKeepsLedger(s: State, step: Step)
    requires Ledger(s) && Enabled(s, step)
    ensures Ledger(Next(s, step))
  {
    hide Ledger, HeldBy, Next, Enabled;
    match step {
      case SendHandOff(_, _) => TakingKeepsLedger(s, step);
      case Receive(_) => TakingKeepsLedger(s, step);
      case DrainReceive(_) => TakingKeepsLedger(s, step);
      case Delivered(_) => DeliveryKeepsLedger(s, step);
      case DrainDelivered(_) => DeliveryKeepsLedger(s, step);
      case SeeQuit(_) => IdlingKeepsLedger(s, step);
      case DrainReturn(_) => IdlingKeepsLedger(s, step);
      case _ =>
        OthersMoveNoWorker(s, step);
        UntouchedLedger(s, Next(s, step));
    }
  }

  lemma TakingKeepsLedger(s: State, step: Step)
    requires Ledger(s) && Enabled(s, step) && (step.SendHandOff? || step.Receive? || step.DrainReceive?)
    ensures Ledger(Next(s, step))
  {
    hide Ledger, HeldBy;
    TakenStaysOnLedger(s, Next(s, step), step.w, if step.SendHandOff? then ItemOf(s, step.call) else s.queue[0]);
  }

  lemma DeliveryKeepsLedger(s: State, step: Step)
    requires Ledger(s) && Enabled(s, step) && (step.Delivered? || step.DrainDelivered?)
    ensures Ledger(Next(s, step))
  {
    hide Ledger, HeldBy;
    DeliveredStaysOnLedger(s, Next(s, step), step.w, s.workers[step.w].item);
  }

  lemma IdlingKeepsLedger(s: State, step: Step)
    requires Ledger(s) && Enabled(s, step) && (step.SeeQuit? || step.DrainReturn?)
    ensures Ledger(Next(s, step))
  {
    hide Ledger, HeldBy;
    IdleStaysOnLedger(s, Next(s, step), step.w);
  }

  predicate MovesWorker(step: Step) {
    || step.SendHandOff? || step.Receive? || step.SeeQuit? || step.Delivered?
    || step.DrainReceive? || step.DrainDelivered? || step.DrainReturn?
  }

  lemma OthersMoveNoWorker(s: State, step: Step)
    requires Enabled(s, step) && !MovesWorker(step)
    ensures
      var t := Next(s, step);
      t.workers == s.workers && t.received == s.received && t.delegated == s.delegated
  {
    match step {
      case SendLoad(_, _) =>
      case SendOffer(_) =>
      case _ =>
    }
  }

  predicate Holds(p: Worker, item: Item) {
    (p.Sending? || p.DrainSending?) && p.item == item
  }

  predicate HoldsNothing(p: Worker) {
    !p.Sending? && !p.DrainSending?
  }

  lemma UntouchedLedger(s: State, t: State)
    requires Ledger(s)
    requires t.workers == s.workers && t.received == s.received && t.delegated == s.delegated
    ensures Ledger(t)
  {
  }

  lemma IdleStaysOnLedger(s: State, t: State, w: nat)
    requires Ledger(s) && w < |s.workers| && |t.workers| == |s.workers|
    requires t.workers == s.workers[w := t.workers[w]] && t.received == s.received && t.delegated == s.delegated
    requires HoldsNothing(s.workers[w]) && HoldsNothing(t.workers[w])
    ensures Ledger(t)
  {
    forall x: Item ensures multiset(t.received)[x] == multiset(t.delegated)[x] + Held(t.workers)[x] {
      HeldUpdate(s.workers, w, t.workers[w], x);
    }
  }

  lemma TakenStaysOnLedger(s: State, t: State, w: nat, item: Item)
    requires Ledger(s) && w < |s.workers| && |t.workers| == |s.workers|
    requires t.workers == s.workers[w := t.workers[w]]
    requires t.received == s.received + [item] && t.delegated == s.delegated
    requires HoldsNothing(s.workers[w]) && Holds(t.workers[w], item)
    ensures Ledger(t)
  {
    assert HeldBy(s.workers[w]) == multiset{} && HeldBy(t.workers[w]) == multiset{item};
    hide HeldBy, Holds, HoldsNothing;
    forall x: Item ensures multiset(t.received)[x] == multiset(t.delegated)[x] + Held(t.workers)[x] {
      HeldUpdate(s.workers, w, t.workers[w], x);
    }
  }

  lemma DeliveredStaysOnLedger(s: State, t: State, w: nat, item: Item)
    requires Ledger(s) && w < |s.workers| && |t.workers| == |s.workers|
    requires t.workers == s.workers[w := t.workers[w]]
    requires Holds(s.workers[w], item) && HoldsNothing(t.workers[w])
    requires t.received == s.received && t.delegated == s.delegated + [item]
    ensures Ledger(t)
  {
    assert HeldBy(s.workers[w]) == multiset{item} && HeldBy(t.workers[w]) == multiset{};
    hide HeldBy;
    forall x: Item ensures multiset(t.received)[x] == multiset(t.delegated)[x] + Held(t.workers)[x] {
      HeldUpdate(s.workers, w, t.workers[w], x);
    }
  }

  lemma StepKeepsCalls(s: State, step: Step)
    requires Calls(s) && Enabled(s, step)
    ensures Calls(Next(s, step))
  {
    hide OneItemPerAcceptedCall;
    match step {
      case SendLoad(call, _) => RejectedCall(s.accepted, s.results, call, ErrMailerStopped);
      case SendOffer(call) =>
        RejectedCall(s.accepted, s.results, call, ErrQueueFull);
        AcceptedCall(s.accepted, s.results, ItemOf(s, call));
      case SendHandOff(call, _) => AcceptedCall(s.accepted, s.results, ItemOf(s, call));
      case _ =>
    }
  }

  lemma RejectedCall(accepted: seq<Item>, results: map<nat, SendResult>, call: nat, error: SendResult)
    requires OneItemPerAcceptedCall(accepted, results) && call !in results && error != Accepted
    ensures OneItemPerAcceptedCall(accepted, results[call := error])
  {
  }

  lemma AcceptedCall(accepted: seq<Item>, results: map<nat, SendResult>, item: Item)
    requires OneItemPerAcceptedCall(accepted, results) && item.call !in results
    ensures OneItemPerAcceptedCall(accepted + [item], results[item.call := Accepted])
  {
    forall c | c in results[item.call := Accepted] && results[item.call := Accepted][c] == Accepted
      ensures HasItem(accepted + [item], c)
    {
      ItemsGrow(accepted, item, c);
    }
  }

  lemma ItemsGrow(items: seq<Item>, item: Item, call: nat)
    ensures HasItem(items + [item], call) <==> HasItem(items, call) || item.call == call
  {
    if HasItem(items, call) {
      var i :| 0 <= i < |items| && items[i].call == call;
      assert (items + [item])[i].call == call;
    }
    assert (items + [item])[|items|] == item;
  }

  lemma StepKeepsShutdownClock(s: State, step: Step)
    requires ShutdownClock(s) && Enabled(s, step)
    ensures ShutdownClock(Next(s, step))
  {
  }

  lemma StepKeepsInFlightClock(s: State, step: Step)
    requires ShutdownClock(s) && InFlightClock(s) && Enabled(s, step)
    ensures InFlightClock(Next(s, step))
  {
  }

  lemma StepKeepsAcceptedClock(s: State, step: Step)
    requires ShutdownClock(s) && InFlightClock(s) && AcceptedClock(s) && Enabled(s, step)
    ensures AcceptedClock(Next(s, step))
  {
    var t := Next(s, step);
    if t.accepted != s.accepted {
      assert t.accepted == s.accepted + [ItemOf(s, step.call)];
    }
  }

  lemma StepKeepsDrain(s: State, step: Step)
    requires ShutdownClock(s) && Drain(s) && Enabled(s, step)
    ensures Drain(Next(s, step))
  {
    StepKeepsDrainAfterClose(s, step);
    StepKeepsReturned(s, step);
    hide DrainAfterClose, ReturnedSawEmpty, Next, Enabled;
  }

  lemma StepKeepsDrainAfterClose(s: State, step: Step)
    requires DrainAfterClose(s) && Enabled(s, step)
    ensures DrainAfterClose(Next(s, step))
  {
  }

  /** Only a closed mailer has returned workers, and what is queued after that comes after the close. */
  lemma StepKeepsReturned(s: State, step: Step)
    requires ShutdownClock(s) && DrainAfterClose(s) && ReturnedSawEmpty(s) && Enabled(s, step)
    ensures ReturnedSawEmpty(Next(s, step))
  {
    hide ReturnedSawEmpty, DrainAfterClose;
    var t := Next(s, step);
    forall w, i | 0 <= w < |t.workers| && t.workers[w].Returned? && 0 <= i < |t.queue|
      ensures t.closedAt < t.queue[i].offeredAt
    {
      ReturnedAfterStep(s, step, w, i);
    }
    ReturnedMeans(t);
  }

  lemma ReturnedMeans(s: State)
    ensures ReturnedSawEmpty(s) <==>
      forall w, i :: 0 <= w < |s.workers| && s.workers[w].Returned? && 0 <= i < |s.queue| ==>
        s.closedAt < s.queue[i].offeredAt
  {
  }

  lemma ReturnedAfterStep(s: State, step: Step, w: nat, i: nat)
    requires ShutdownClock(s) && DrainAfterClose(s) && ReturnedSawEmpty(s) && Enabled(s, step)
    requires w < |Next(s, step).workers| && Next(s, step).workers[w].Returned? && i < |Next(s, step).queue|
    ensures Next(s, step).closedAt < Next(s, step).queue[i].offeredAt
  {
    assert w < |s.workers| && s.workers[w].Returned? && s.quitClosed by {
      ReturnedBefore(s, step, w);
    }
    hide DrainAfterClose;
  }

  lemma ReturnedBefore(s: State, step: Step, w: nat)
    requires DrainAfterClose(s) && Enabled(s, step)
    requires w < |Next(s, step).workers| && Next(s, step).workers[w].Returned? && Next(s, step).queue != []
    ensures w < |s.workers| && s.workers[w].Returned? && s.quitClosed
  {
    match step {
      case DrainReturn(_) =>
      case SendOffer(_) =>
      case _ =>
    }
  }

  lemma StepKeepsStops(s: State, step: Step)
    requires Clock(s) && Stops(s) && Drain(s) && Enabled(s, step)
    ensures Stops(Next(s, step))
  {
  }

  lemma StepKeepsInv(s: State, step: Step)
    requires Inv(s) && Enabled(s, step)
    ensures Inv(Next(s, step))
  {
    StepKeepsFifo(s, step);
    StepKeepsLedger(s, step);
    StepKeepsCalls(s, step);
    StepKeepsShutdownClock(s, step);
    StepKeepsInFlightClock(s, step);
    StepKeepsAcceptedClock(s, step);
    StepKeepsDrain(s, step);
    StepKeepsStops(s, step);
  }

  lemma {:induction false} RunKeepsInv(s: State, run: seq<Step>)
    requires Inv(s) && IsRun(s, run)
    ensures Inv(After(s, run))
    decreases |run|
  {
    hide Inv, Next, Enabled;
    if run != [] {
      RunKeepsInv(s, Init(run));
      StepKeepsInv(After(s, Init(run)), Last(run));
    }
  }
}
