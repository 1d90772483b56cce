/**
 * HttpListenerAsyncResult: the pending "get context" request of the HTTP listener.
 *
 * The class keeps the source's fields and updates them in place; each method is specified by a
 * pure step function over `Snapshot`, the value of those fields, and the properties of the steps
 * are proved here and, for sequences of calls, in module CompletionTrace.
 */
module AsyncResult {
  import opened Wrappers
  import opened Authentication

  /** The exceptions a completion may carry. */
  datatype Error =
    | ObjectDisposed(message: string)
    | HttpListenerError(code: int, message: string)
    | OtherError(typeName: string, message: string)

  /** What a listener blocked in GetContext sees when the listener is shut down under it. */
  const ListenerClosed: Error := HttpListenerError(500, "Listener closed.")

  /** What GetContext does: throw, or return the stored context (None is C#'s null). */
  datatype GetResult = Throws(error: Error) | Returns(context: Option<Context>)

  /**
   * The object's fields as a value: `handle` is None until the wait handle exists and then says
   * whether it is signalled; `callbacksQueued` counts the callback work items queued.
   */
  datatype Snapshot = Snapshot(
    inGet: bool,
    completed: bool,
    context: Option<Context>,
    exception: Option<Error>,
    syncCompleted: bool,
    handle: Option<bool>,
    callbacksQueued: nat)
  {
    /** A wait handle that exists is signalled exactly when the operation has completed. */
    predicate HandleInSync()
    {
      handle.Some? ==> handle.value == completed
    }
  }

  /** A freshly constructed object. */
  const Initial: Snapshot := Snapshot(false, false, None, None, false, None, 0)

  /**
   * The exception `Complete(Exception)` stores: a disposal error while a synchronous get is in
   * progress becomes the 500 "Listener closed." error; anything else (null included) is kept.
   */
  function StoredException(inGet: bool, e: Option<Error>): (stored: Option<Error>)
    ensures stored.Some? <==> e.Some?
    ensures stored != e ==> inGet && stored == Some(ListenerClosed)
    ensures inGet ==> stored.None? || !stored.value.ObjectDisposed?
    ensures !inGet ==> stored == e
    ensures !(e.Some? && e.value.ObjectDisposed?) ==> stored == e
    ensures inGet && e.Some? && e.value.ObjectDisposed? ==> stored == Some(ListenerClosed)
  {
    if inGet && e.Some? && e.value.ObjectDisposed? then Some(ListenerClosed) else e
  }

  /** `complete`: mark completed, signal an existing wait handle, queue the callback if there is one. */
  function Finish(s: Snapshot, hasCallback: bool): (t: Snapshot)
    ensures t.completed && t.HandleInSync()
    ensures t.handle.Some? <==> s.handle.Some?
    ensures t.callbacksQueued == s.callbacksQueued + (if hasCallback then 1 else 0)
    ensures t.context == s.context && t.exception == s.exception
    ensures t.syncCompleted == s.syncCompleted && t.inGet == s.inGet
  {
    s.(completed := true,
       handle := if s.handle.Some? then Some(true) else None,
       callbacksQueued := s.callbacksQueued + if hasCallback then 1 else 0)
  }

  /** `Complete(Exception)`. */
  function AfterFailure(s: Snapshot, e: Option<Error>, hasCallback: bool): Snapshot
  {
    Finish(s.(exception := StoredException(s.inGet, e)), hasCallback)
  }

  /** `Complete(context, syncCompleted)`: nothing changes unless the gate accepts. */
  function AfterContext(s: Snapshot, ctx: Context, sync: bool, listener: Listener, codec: Codec, hasCallback: bool): Snapshot
  {
    var d := Authenticate(ctx, listener, codec);
    if d.Accepts() then Finish(s.(context := Some(ApplyDecision(ctx, d)), syncCompleted := sync), hasCallback)
    else s
  }

  /** The `AsyncWaitHandle` getter: create the handle, signalled iff completed, on first access only. */
  function AfterHandleAccess(s: Snapshot): Snapshot
  {
    if s.handle.Some? then s else s.(handle := Some(s.completed))
  }

  /** `GetContext`. */
  function Retrieve(s: Snapshot): GetResult
  {
    if s.exception.Some? then Throws(s.exception.value) else Returns(s.context)
  }

  /** A disposal error while a synchronous get is in progress surfaces as the listener-closed error. */
  lemma DisposalDuringGetSurfacesAsListenerClosed(s: Snapshot, message: string, hasCallback: bool)
    requires s.inGet
    ensures Retrieve(AfterFailure(s, Some(ObjectDisposed(message)), hasCallback)) == Throws(ListenerClosed)
    ensures AfterFailure(s, Some(ObjectDisposed(message)), hasCallback).completed
  {
  }

  /** An accepted context becomes what GetContext returns, edited by the gate, unless an exception was stored before. */
  lemma AcceptedContextIsRetrieved(s: Snapshot, ctx: Context, sync: bool, listener: Listener, codec: Codec, hasCallback: bool)
    requires Authenticate(ctx, listener, codec).Accepts()
    ensures var t := AfterContext(s, ctx, sync, listener, codec, hasCallback);
      && t.completed && t.syncCompleted == sync
      && (s.exception.None? ==> Retrieve(t) == Returns(Some(ApplyDecision(ctx, Authenticate(ctx, listener, codec)))))
      && (s.exception.Some? ==> Retrieve(t) == Retrieve(s))
  {
  }

  /** A rejected context leaves every field as it was. */
  lemma RejectedContextChangesNothing(s: Snapshot, ctx: Context, sync: bool, listener: Listener, codec: Codec, hasCallback: bool)
    requires !Authenticate(ctx, listener, codec).Accepts()
    ensures AfterContext(s, ctx, sync, listener, codec, hasCallback) == s
  {
  }

  /** There is no single-fire guard: a second accepted context replaces the first one. */
  lemma SecondCompletionReplacesContext(s: Snapshot, ctx: Context, sync: bool, listener: Listener, codec: Codec, hasCallback: bool)
    requires s.completed
    requires Authenticate(ctx, listener, codec).Accepts()
    ensures AfterContext(s, ctx, sync, listener, codec, hasCallback).context == Some(ApplyDecision(ctx, Authenticate(ctx, listener, codec)))
  {
  }

  /** ManualResetEvent, reduced to its signalled state. */
  class ManualResetEvent {
    var signalled: bool

    constructor (initialState: bool)
      ensures signalled == initialState
    {
      signalled := initialState;
    }

    method Set()
      modifies this
      ensures signalled
    {
      signalled := true;
    }
  }

  class HttpListenerAsyncResult {
    const hasCallback: bool
    const asyncState: object?
    var completed: bool
    var context: Option<Context>
    var exception: Option<Error>
    var syncCompleted: bool
    var waitHandle: ManualResetEvent?
    /** Set by the listener while a synchronous GetContext waits on this object. */
    var inGet: bool
    /** How many times the callback has been queued to the thread pool. */
    ghost var callbacksQueued: nat

    ghost function View(): Snapshot
      reads this, waitHandle
    {
      Snapshot(inGet, completed, context, exception, syncCompleted,
               if waitHandle == null then None else Some(waitHandle.signalled), callbacksQueued)
    }

    ghost predicate Valid()
      reads this, waitHandle
    {
      View().HandleInSync()
    }

    constructor (callback: bool, state: object?)
      ensures Valid() && View() == Initial
      ensures hasCallback == callback && asyncState == state
    {
      hasCallback := callback;
      asyncState := state;
      completed := false;
      context := None;
      exception := None;
      syncCompleted := false;
      waitHandle := null;
      inGet := false;
      callbacksQueued := 0;
    }

    method AsyncState() returns (state: object?)
      ensures state == asyncState
    {
      state := asyncState;
    }

    /** The wait handle, created on first access only; later accesses return the same instance. */
    method AsyncWaitHandle() returns (h: ManualResetEvent)
      requires Valid()
      modifies this
      ensures Valid() && waitHandle == h
      ensures old(waitHandle) != null ==> h == old(waitHandle)
      ensures old(waitHandle) == null ==> fresh(h) && h.signalled == completed
      ensures View() == AfterHandleAccess(old(View()))
    {
      if waitHandle == null {
        waitHandle := new ManualResetEvent(completed);
      }
      h := waitHandle;
    }

    method CompletedSynchronously() returns (b: bool)
      ensures b == View().syncCompleted
    {
      b := syncCompleted;
    }

    method IsCompleted() returns (b: bool)
      ensures b == View().completed
    {
      b := completed;
    }

    /** The static `complete`. */
    method CompleteStep()
      requires Valid()
      modifies this, waitHandle
      ensures Valid() && waitHandle == old(waitHandle)
      ensures View() == Finish(old(View()), hasCallback)
    {
      completed := true;
      if waitHandle != null {
        waitHandle.Set();
      }
      if hasCallback {
        callbacksQueued := callbacksQueued + 1;
      }
    }

    /** `Complete(Exception)`; None is a null exception. */
    method CompleteWithException(e: Option<Error>)
      requires Valid()
      modifies this, waitHandle
      ensures Valid() && waitHandle == old(waitHandle)
      ensures exception == StoredException(old(inGet), e) && completed
      ensures View() == AfterFailure(old(View()), e, hasCallback)
    {
      exception := if inGet && e.Some? && e.value.ObjectDisposed? then Some(ListenerClosed) else e;
      CompleteStep();
    }

    /** `Complete(context)`: the same as `Complete(context, false)`. */
    method CompleteWithContext(ctx: Context, listener: Listener, codec: Codec)
      returns (edited: Context, resubmit: HttpListenerAsyncResult?)
      requires Valid()
      modifies this, waitHandle
      ensures Valid() && waitHandle == old(waitHandle)
      ensures edited == ApplyDecision(ctx, Authenticate(ctx, listener, codec))
      ensures resubmit == if Authenticate(ctx, listener, codec).Accepts() then null else this
      ensures View() == AfterContext(old(View()), ctx, false, listener, codec, hasCallback)
    {
      edited, resubmit := CompleteWithContextAndFlag(ctx, listener, codec, false);
    }

    /**
     * `Complete(context, syncCompleted)`. `edited` is the context after the gate's edits;
     * `resubmit` is the object handed back to the listener's BeginGetContext, if any.
     */
    method CompleteWithContextAndFlag(ctx: Context, listener: Listener, codec: Codec, sync: bool)
      returns (edited: Context, resubmit: HttpListenerAsyncResult?)
      requires Valid()
      modifies this, waitHandle
      ensures Valid() && waitHandle == old(waitHandle)
      ensures edited == ApplyDecision(ctx, Authenticate(ctx, listener, codec))
      ensures resubmit == if Authenticate(ctx, listener, codec).Accepts() then null else this
      ensures !Authenticate(ctx, listener, codec).Accepts() ==>
        && completed == old(completed) && context == old(context)
        && syncCompleted == old(syncCompleted) && exception == old(exception)
      ensures Authenticate(ctx, listener, codec).Accepts() ==>
        completed && context == Some(edited) && syncCompleted == sync
      ensures View() == AfterContext(old(View()), ctx, sync, listener, codec, hasCallback)
    {
      var d := Authenticate(ctx, listener, codec);
      edited := ApplyDecision(ctx, d);
      if !d.Accepts() {
        resubmit := this;
        return;
      }
      context := Some(edited);
      syncCompleted := sync;
      CompleteStep();
      resubmit := null;
    }

    method GetContext() returns (r: GetResult)
      ensures r == Retrieve(View())
    {
      if exception.Some? {
        r := Throws(exception.value);
      } else {
        r := Returns(context);
      }
    }
  }
}
