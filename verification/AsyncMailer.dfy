/** backend/pkg/mailer/async.go as a class. Each method runs its Go body without interference and is
    proved to be a run of the protocol, so that interleavings of the bodies' steps are the protocol's
    other runs. */
module AsyncMailers {
  import opened Prelude
  import opened MailerProtocol
  import opened MailerInvariant
  import opened MailerShutdown
  import opened MailerGuarantees

  lemma StoreChanges(s: State)
    requires s.once == Storing
    ensures Enabled(s, StopStore)
    ensures Next(s, StopStore) == s.(stopped := true, once := Closing, storedAt := s.now, now := s.now + 1)
  {
  }

  lemma CloseChanges(s: State)
    requires s.once == Closing
    ensures Enabled(s, StopClose)
    ensures Next(s, StopClose) == s.(quitClosed := true, once := Waiting, closedAt := s.now, now := s.now + 1)
  {
  }

  class AsyncMailer {
    const bufferSize: nat
    var msgChan: seq<Item>
    var quitClosed: bool
    var stopped: bool
    var workers: seq<Worker>
    var once: Once
    var stopCalls: map<nat, StopCall>
    var inFlight: map<nat, Pending>
    var now: nat
    ghost var storedAt: nat
    ghost var closedAt: nat
    ghost var results: map<nat, SendResult>
    ghost var accepted: seq<Item>
    ghost var received: seq<Item>
    ghost var delegated: seq<Item>

    ghost function View(): State
      reads this
    {
      State(bufferSize, stopped, quitClosed, msgChan, workers, inFlight, once, stopCalls,
            now, storedAt, closedAt, results, accepted, received, delegated)
    }

    constructor (bufferSize: nat)
      ensures View() == Started(bufferSize, 0)
    {
      this.bufferSize := bufferSize;
      msgChan, quitClosed, stopped, workers, once, stopCalls := [], false, false, [], NotStarted, map[];
      inFlight, now, storedAt, closedAt, results := map[], 0, 0, 0, map[];
      accepted, received, delegated := [], [], [];
    }

    /** Launches the workers. */
    method Start(n: nat)
      requires View() == Started(bufferSize, 0)
      modifies this`workers
      ensures View() == Started(bufferSize, n)
    {
      for i := 0 to n
        invariant workers == seq(i, _ => Selecting)
      {
        workers := workers + [Selecting];
      }
    }

    // ---- the atomic actions -------------------------------------------------------------------

    method LoadStopped(call: nat, msg: Message) returns (was: bool)
      requires call !in inFlight && call !in results
      modifies this`now, this`results, this`inFlight
      ensures was == stopped && View() == Next(old(View()), SendLoad(call, msg))
    {
      was := stopped;
      if was {
        results := results[call := ErrMailerStopped];
      } else {
        inFlight := inFlight[call := Pending(msg, now)];
      }
      now := now + 1;
    }

    method Offer(call: nat) returns (result: SendResult)
      requires call in inFlight
      modifies this`msgChan, this`now, this`results, this`inFlight, this`accepted
      ensures View() == Next(old(View()), SendOffer(call))
      ensures result == if |old(msgChan)| < bufferSize then Accepted else ErrQueueFull
    {
      if |msgChan| < bufferSize {
        result := Accepted;
        var item := Item(call, inFlight[call].msg, inFlight[call].loadedAt, now);
        msgChan := msgChan + [item];
        accepted := accepted + [item];
      } else {
        result := ErrQueueFull;
      }
      results := results[call := result];
      inFlight := inFlight - {call};
      now := now + 1;
    }

    method TakeMessage(w: nat)
      requires w < |workers| && workers[w].Selecting? && msgChan != []
      modifies this`msgChan, this`workers, this`now, this`received
      ensures View() == Next(old(View()), Receive(w))
    {
      received := received + [msgChan[0]];
      workers := workers[w := Sending(msgChan[0])];
      msgChan := msgChan[1..];
      now := now + 1;
    }

    method ObserveQuit(w: nat)
      requires w < |workers| && workers[w].Selecting? && quitClosed
      modifies this`workers, this`now
      ensures View() == Next(old(View()), SeeQuit(w))
    {
      workers := workers[w := Draining];
      now := now + 1;
    }

    method FinishSend(w: nat)
      requires w < |workers| && workers[w].Sending?
      modifies this`workers, this`now, this`delegated
      ensures View() == Next(old(View()), Delivered(w))
    {
      delegated := delegated + [workers[w].item];
      workers := workers[w := Selecting];
      now := now + 1;
    }

    method DrainMessage(w: nat)
      requires w < |workers| && workers[w].Draining? && msgChan != []
      modifies this`msgChan, this`workers, this`now, this`received
      ensures View() == Next(old(View()), DrainReceive(w))
    {
      received := received + [msgChan[0]];
      workers := workers[w := DrainSending(msgChan[0])];
      msgChan := msgChan[1..];
      now := now + 1;
    }

    method FinishDrainSend(w: nat)
      requires w < |workers| && workers[w].DrainSending?
      modifies this`workers, this`now, this`delegated
      ensures View() == Next(old(View()), DrainDelivered(w))
    {
      delegated := delegated + [workers[w].item];
      workers := workers[w := Draining];
      now := now + 1;
    }

    method ReturnFromDrain(w: nat)
      requires w < |workers| && workers[w].Draining? && msgChan == []
      modifies this`workers, this`now
      ensures View() == Next(old(View()), DrainReturn(w))
    {
      workers := workers[w := Returned];
      now := now + 1;
    }

    method EnterOnce(stop: nat)
      requires stop !in stopCalls
      modifies this`once, this`stopCalls, this`now
      ensures View() == Next(old(View()), StopEnter(stop))
    {
      if once == NotStarted {
        once, stopCalls := Storing, stopCalls[stop := InBody];
      } else if once == Finished {
        stopCalls := stopCalls[stop := StopReturned];
      } else {
        stopCalls := stopCalls[stop := Blocked];
      }
      now := now + 1;
    }

    method StoreStopped()
      requires once == Storing
      modifies this`once, this`stopped, this`now, this`storedAt
      ensures View() == Next(old(View()), StopStore)
    {
      hide Next;
      StoreChanges(View());
      stopped, once, storedAt := true, Closing, now;
      now := now + 1;
    }

    method CloseQuit()
      requires once == Closing
      modifies this`once, this`quitClosed, this`now, this`closedAt
      ensures View() == Next(old(View()), StopClose)
    {
      hide Next;
      CloseChanges(View());
      quitClosed, once, closedAt := true, Waiting, now;
      now := now + 1;
    }

    method LeaveWait()
      requires once == Waiting && AllReturned(View())
      modifies this`once, this`stopCalls, this`now
      ensures View() == Next(old(View()), StopWait)
    {
      once := Finished;
      stopCalls := map c | c in stopCalls :: if stopCalls[c].InBody? then StopReturned else stopCalls[c];
      now := now + 1;
    }

    // ---- the Go methods, as compositions of the actions ---------------------------------------

    /** Never blocks; the error tells the stopped mailer from the full queue. */
    method Send(call: nat, msg: Message) returns (result: SendResult, ghost run: seq<Step>)
      requires call !in inFlight && call !in results
      modifies this`msgChan, this`now, this`results, this`inFlight, this`accepted
      ensures IsRun(old(View()), run) && View() == After(old(View()), run)
      ensures result ==
        if old(stopped) then ErrMailerStopped
        else if |old(msgChan)| < bufferSize then Accepted
        else ErrQueueFull
    {
      ghost var before := View();
      SingleStepRun(before, SendLoad(call, msg));
      run := [SendLoad(call, msg)];
      var was := LoadStopped(call, msg);
      if was {
        return ErrMailerStopped, run;
      }
      RunExtends(before, run, SendOffer(call));
      run := run + [SendOffer(call)];
      result := Offer(call);
    }

    /** The outer select; `quitFirst` is its choice when both cases are ready. */
    method Select(w: nat, quitFirst: bool) returns (ghost step: Step)
      requires w < |workers| && workers[w].Selecting? && (quitClosed || msgChan != [])
      modifies this`msgChan, this`workers, this`now, this`received
      ensures step in {SeeQuit(w), Receive(w)}
      ensures Enabled(old(View()), step) && View() == Next(old(View()), step)
    {
      hide Next;
      if quitClosed && (quitFirst || msgChan == []) {
        step := SeeQuit(w);
        ObserveQuit(w);
      } else {
        step := Receive(w);
        TakeMessage(w);
      }
    }

    /** The select of the drain loop: the default case only when the channel is empty. */
    method DrainSelect(w: nat) returns (ghost step: Step)
      requires w < |workers| && workers[w].Draining?
      modifies this`msgChan, this`workers, this`now, this`received
      ensures step in {DrainReceive(w), DrainReturn(w)}
      ensures Enabled(old(View()), step) && View() == Next(old(View()), step)
    {
      hide Next;
      if msgChan != [] {
        step := DrainReceive(w);
        DrainMessage(w);
      } else {
        step := DrainReturn(w);
        ReturnFromDrain(w);
      }
    }

    /** One step of the goroutine of worker `w`. It is blocked only at the outer select, with an
        empty channel and `quit` open. */
    method Advance(w: nat, quitFirst: bool) returns (ghost step: Step)
      requires w < |workers| && !workers[w].Returned?
      requires !(workers[w].Selecting? && msgChan == [] && !quitClosed)
      modifies this`msgChan, this`workers, this`now, this`received, this`delegated
      ensures Enabled(old(View()), step) && View() == Next(old(View()), step) && MovesWorkerOrSend(step)
    {
      hide Next;
      match workers[w] {
        case Selecting => step := Select(w, quitFirst);
        case Draining => step := DrainSelect(w);
        case Sending(_) =>
          step := Delivered(w);
          FinishSend(w);
        case DrainSending(_) =>
          step := DrainDelivered(w);
          FinishDrainSend(w);
      }
    }

    /** m.wg.Wait(): the live workers take steps in any order, each select choosing anew, until all
        have returned. */
    method WaitForWorkers() returns (ghost run: seq<Step>)
      requires Inv(View()) && once == Waiting
      modifies this`msgChan, this`workers, this`now, this`received, this`delegated
      ensures IsRun(old(View()), run) && View() == After(old(View()), run)
      ensures AllReturned(View())
    {
      hide Next, Enabled, Inv, WorkLeft, MovesWorkerOrSend;
      ghost var before := View();
      run := [];
      assert quitClosed by { WaitingIsAfterClose(before); }
      while exists w :: 0 <= w < |workers| && !workers[w].Returned?
        invariant IsRun(before, run) && View() == After(before, run)
        invariant Inv(View()) && quitClosed
        decreases WorkLeft(View())
      {
        ghost var here := View();
        assert ShutdownClock(here) by { InvParts(here); }
        var w :| 0 <= w < |workers| && !workers[w].Returned?;
        var quitFirst := *;
        ghost var step := Advance(w, quitFirst);
        StepUsesWork(here, step);
        StepKeepsInv(here, step);
        RunExtends(before, run, step);
        run := run + [step];
      }
    }

    /** close(m.quit); m.wg.Wait() */
    method CloseAndWait() returns (ghost run: seq<Step>)
      requires Inv(View()) && once == Closing
      modifies this
      ensures IsRun(old(View()), run) && View() == After(old(View()), run)
      ensures once == Finished && AllReturned(View()) && Inv(View())
    {
      hide Next, Enabled, Inv;
      ghost var before := View();
      run := [];
      CloseIsEnabled(before);
      ClosedSurroundings(before);
      StepKeepsInv(before, StopClose);
      SingleStepRun(before, StopClose);
      CloseQuit();
      ghost var waited := WaitForWorkers();
      RunsCompose(before, [StopClose], waited);
      run := [StopClose] + waited;
      WaitIsEnabled(View());
      RunExtends(before, run, StopWait);
      run := run + [StopWait];
      LeaveWait();
      RunKeepsInv(before, run);
      FinishedAllReturned(View());
    }

    /** The first call sets the flag, closes `quit` and waits for the WaitGroup; a later one finds all that
        done. On return every worker has returned; after a first call with no Send in flight the channel is
        empty and everything accepted has been delegated. */
    method Stop(stop: nat) returns (ghost run: seq<Step>)
      requires Inv(View())
      requires stop !in stopCalls && (once == NotStarted || once == Finished)
      modifies this
      ensures IsRun(old(View()), run) && View() == After(old(View()), run)
      ensures once == Finished && AllReturned(View()) && Inv(View())
      ensures old(once) == NotStarted && old(inFlight) == map[] && |old(workers)| > 0 ==>
                msgChan == [] && multiset(delegated) == multiset(accepted)
    {
      hide Next, Enabled, Inv, IsRun, After;
      ghost var before := View();
      if once == Finished {
        LateStop(before, stop);
        StepKeepsInv(before, StopEnter(stop));
        SingleStepRun(before, StopEnter(stop));
        EnterOnce(stop);
        FinishedAllReturned(View());
        return [StopEnter(stop)];
      }
      StopBegins(before, stop);
      StepKeepsInv(before, StopEnter(stop));
      SingleStepRun(before, StopEnter(stop));
      EnterOnce(stop);
      StopStores(View());
      StepKeepsInv(View(), StopStore);
      RunExtends(before, [StopEnter(stop)], StopStore);
      StoreStopped();
      ghost var stored := View();
      ghost var rest := CloseAndWait();
      RunsCompose(before, [StopEnter(stop)] + [StopStore], rest);
      run := [StopEnter(stop)] + [StopStore] + rest;
      if stored.inFlight == map[] && |stored.workers| > 0 {
        NothingInFlightNothingLeft(stored, rest);
        EverythingDelegated(View());
      }
    }
  }

  lemma StopBegins(s: State, stop: nat)
    requires s.once == NotStarted && stop !in s.stopCalls
    ensures Enabled(s, StopEnter(stop)) && Next(s, StopEnter(stop)).once == Storing
    ensures Next(s, StopEnter(stop)).inFlight == s.inFlight && Next(s, StopEnter(stop)).workers == s.workers
  {
  }

  lemma LateStop(s: State, stop: nat)
    requires s.once == Finished && stop !in s.stopCalls
    ensures Enabled(s, StopEnter(stop)) && Next(s, StopEnter(stop)).once == Finished
  {
  }

  lemma StopStores(s: State)
    requires s.once == Storing
    ensures Enabled(s, StopStore) && Next(s, StopStore).once == Closing
    ensures Next(s, StopStore).inFlight == s.inFlight && Next(s, StopStore).workers == s.workers
  {
  }

  lemma FinishedAllReturned(s: State)
    requires Inv(s) && s.once == Finished
    ensures AllReturned(s)
  {
  }

  lemma EverythingDelegated(s: State)
    requires Inv(s) && AllReturned(s) && s.queue == []
    ensures multiset(s.delegated) == multiset(s.accepted)
  {
    NobodyHoldsAfterReturn(s);
    assert s.received + [] == s.received;
  }
}
