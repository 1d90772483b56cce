/**
 * Sequences of calls on one HttpListenerAsyncResult, as the listener makes them: setting InGet,
 * the two Complete entry points, and accesses to the wait handle. The lemmas state what holds
 * however many calls are made and in whatever order.
 */
module CompletionTrace {
  import opened Wrappers
  import opened Authentication
  import opened AsyncResult

  datatype Call =
    | SetInGet(value: bool)
    | CompleteFailure(error: Option<Error>)
    | CompleteContext(ctx: Context, sync: bool, listener: Listener, codec: Codec)
    | AccessHandle

  function Step(s: Snapshot, c: Call, hasCallback: bool): Snapshot
  {
    match c
    case SetInGet(b) => s.(inGet := b)
    case CompleteFailure(e) => AfterFailure(s, e, hasCallback)
    case CompleteContext(ctx, sync, listener, codec) => AfterContext(s, ctx, sync, listener, codec, hasCallback)
    case AccessHandle => AfterHandleAccess(s)
  }

  function Run(s: Snapshot, calls: seq<Call>, hasCallback: bool): Snapshot
    decreases |calls|
  {
    if calls == [] then s else Run(Step(s, calls[0], hasCallback), calls[1..], hasCallback)
  }

  /** A call that runs `complete`: a failure, or a context the gate accepts. */
  predicate Completes(c: Call)
  {
    c.CompleteFailure? || (c.CompleteContext? && Authenticate(c.ctx, c.listener, c.codec).Accepts())
  }

  /** How many of the calls run `complete`. */
  function Completions(calls: seq<Call>): nat
    decreases |calls|
  {
    if calls == [] then 0 else (if Completes(calls[0]) then 1 else 0) + Completions(calls[1..])
  }

  lemma {:induction false} CompletionsPositive(calls: seq<Call>)
    ensures Completions(calls) > 0 <==> exists i :: 0 <= i < |calls| && Completes(calls[i])
    decreases |calls|
  {
    if calls != [] {
      CompletionsPositive(calls[1..]);
      if !Completes(calls[0]) && Completions(calls[1..]) > 0 {
        var i :| 0 <= i < |calls[1..]| && Completes(calls[1..][i]);
        assert Completes(calls[i + 1]);
      } else if !Completes(calls[0]) {
        forall i | 0 <= i < |calls|
          ensures !Completes(calls[i])
        {
          if i > 0 { assert calls[i] == calls[1..][i - 1]; }
        }
      }
    }
  }

  /**
   * IsCompleted after a sequence of calls: true exactly when it was already true or some call ran
   * `complete`. In particular it never goes back to false.
   */
  lemma {:induction false} CompletedExactlyWhenSomeCallCompletes(s: Snapshot, calls: seq<Call>, hasCallback: bool)
    ensures Run(s, calls, hasCallback).completed <==>
      s.completed || exists i :: 0 <= i < |calls| && Completes(calls[i])
    decreases |calls|
  {
    CompletionsPositive(calls);
    CompletedCount(s, calls, hasCallback);
  }

  lemma {:induction false} CompletedCount(s: Snapshot, calls: seq<Call>, hasCallback: bool)
    ensures Run(s, calls, hasCallback).completed <==> s.completed || Completions(calls) > 0
    decreases |calls|
  {
    if calls != [] {
      var t := Step(s, calls[0], hasCallback);
      CompletedCount(t, calls[1..], hasCallback);
      assert t.completed <==> s.completed || Completes(calls[0]);
    }
  }

  /** The callback is queued once per call that runs `complete`, and never when there is no callback. */
  lemma {:induction false} CallbackQueuedPerCompletion(s: Snapshot, calls: seq<Call>, hasCallback: bool)
    ensures Run(s, calls, hasCallback).callbacksQueued ==
      s.callbacksQueued + if hasCallback then Completions(calls) else 0
    decreases |calls|
  {
    if calls != [] {
      CallbackQueuedPerCompletion(Step(s, calls[0], hasCallback), calls[1..], hasCallback);
    }
  }

  /**
   * Once created, the wait handle exists for good, and whenever it exists it is signalled exactly
   * when the operation has completed.
   */
  lemma {:induction false} WaitHandleStaysInSync(s: Snapshot, calls: seq<Call>, hasCallback: bool)
    requires s.HandleInSync()
    ensures Run(s, calls, hasCallback).HandleInSync()
    ensures s.handle.Some? ==> Run(s, calls, hasCallback).handle.Some?
    decreases |calls|
  {
    if calls != [] {
      WaitHandleStaysInSync(Step(s, calls[0], hasCallback), calls[1..], hasCallback);
    }
  }

  /**
   * While the gate keeps rejecting, the object may be resubmitted any number of times and nothing
   * about it changes.
   */
  lemma {:induction false} RejectionsLeaveObjectPending(s: Snapshot, calls: seq<Call>, hasCallback: bool)
    requires forall i :: 0 <= i < |calls| ==> calls[i].CompleteContext? && !Completes(calls[i])
    ensures Run(s, calls, hasCallback) == s
    decreases |calls|
  {
    if calls != [] {
      assert calls[0].CompleteContext? && !Completes(calls[0]);
      assert Step(s, calls[0], hasCallback) == s;
      RejectionsLeaveObjectPending(s, calls[1..], hasCallback);
    }
  }

  /** GetContext reads only the stored exception and context: states that agree on those two give the same outcome. */
  lemma GetContextReadsOnlyExceptionAndContext(s: Snapshot, t: Snapshot)
    requires s.exception == t.exception && s.context == t.context
    ensures Retrieve(s) == Retrieve(t)
  {
  }

  /**
   * Only `Complete(Exception)` writes the stored exception: after calls that include none, the
   * exception, and hence whether GetContext throws, is as it was.
   */
  lemma {:induction false} ExceptionOnlyChangedByFailure(s: Snapshot, calls: seq<Call>, hasCallback: bool)
    requires forall i :: 0 <= i < |calls| ==> !calls[i].CompleteFailure?
    ensures Run(s, calls, hasCallback).exception == s.exception
    ensures Retrieve(Run(s, calls, hasCallback)).Throws? == Retrieve(s).Throws?
    decreases |calls|
  {
    if calls != [] {
      assert !calls[0].CompleteFailure?;
      ExceptionOnlyChangedByFailure(Step(s, calls[0], hasCallback), calls[1..], hasCallback);
    }
  }

  /** There is no single-fire guard: `Complete(null)` after a failure erases the stored exception. */
  lemma NullExceptionErasesStoredFailure(s: Snapshot, hasCallback: bool)
    requires s.exception.Some?
    ensures Run(s, [CompleteFailure(None)], hasCallback).exception.None?
    ensures Retrieve(Run(s, [CompleteFailure(None)], hasCallback)) == Returns(s.context)
  {
  }
}
