# HttpListenerAsyncResult, modelled in Dafny

This project models the pending "get context" object of websocket-sharp's HTTP listener
(`HttpListenerAsyncResult`). It has two parts:

- **The completion state machine.** `Complete(Exception)`, `Complete(context[, syncCompleted])`, the
  shared `complete` step, the lazily created wait handle, and `GetContext`. It is modelled as the class
  `AsyncResult.HttpListenerAsyncResult`, whose fields are updated in place. Each method is proved
  against a pure step function over `Snapshot`, which is the value of those fields.
- **The authentication gate that runs on the success path.** `authenticate` and the credential resolver
  `createUser` become pure functions in module `Authentication`. `authenticate` returns a `Decision`:
  accept, accept with a user, forbid with 403, or a Basic or Digest challenge. `ApplyDecision` gives what
  that decision does to the context.

Module `CompletionTrace` runs arbitrary sequences of calls on one object and proves what holds after
any number of them:
- `IsCompleted` is true exactly when some call completed it, so it never reverts.
- The callback is queued once per completion.
- An existing wait handle is always signalled exactly when the object is completed.
- Any number of rejected resubmissions leave the object unchanged.

Files:
- `wrappers.dfy`: Option.
- `authentication.dfy`: the gate and the resolver.
- `async_result.dfy`: the step functions and the class.
- `completion_trace.dfy`: the lemmas over sequences of calls.

The code has no single-fire guard:
- A second `Complete` overwrites the context (`SecondCompletionReplacesContext`).
- `Complete(null)` erases a stored exception (`NullExceptionErasesStoredFailure`).
- An exception stored before an accepted context still makes `GetContext` throw (`AcceptedContextIsRetrieved`).

When the selected scheme is `None`, the response is closed with 403, and the object is still handed
back to `BeginGetContext` rather than failed. The model keeps that retry.

The enumeration value `AuthenticationSchemes.None` is called `NoScheme` here, so that it does not clash
with `Option.None`.

## Model

| member | source | states |
|---|---|---|
| `Authentication.StartsWithIgnoreCaseAt` | websocket-sharp/Net/HttpListenerAsyncResult.cs:175-177 | The scheme-prefix test holds exactly when the header is at least as long as the scheme name and agrees with it at every position, ignoring ASCII case |
| `Authentication.SchemePrefixIgnoresCase` | websocket-sharp/Net/HttpListenerAsyncResult.cs:175-177 | Two headers that differ only in letter case pass or fail the scheme-prefix test together (auth-scheme is case-insensitive) |
| `Authentication.CredentialIsValid` | websocket-sharp/Net/HttpListenerAsyncResult.cs:197-201 | Basic is valid iff the identity's password equals the credential's exactly; Digest iff the delegated digest check passes; no other scheme is ever valid |
| `Authentication.CreateUser` | websocket-sharp/Net/HttpListenerAsyncResult.cs:168-206 | No user for a missing header, a header not starting with the scheme name, or a scheme other than Basic/Digest; a user is resolved iff the header matches the scheme, parses, gives an identity, the finder finds a credential and it validates, and then the user is the principal of that identity with the credential's roles |
| `Authentication.FinderExceptionIsSwallowed` | websocket-sharp/Net/HttpListenerAsyncResult.cs:187-195 | A credentials finder that throws gives the same result as one that returns null |
| `Authentication.BasicResolvesOnExactPassword` | websocket-sharp/Net/HttpListenerAsyncResult.cs:197-205 | For a Basic identity with a credential on file, a user is resolved iff the passwords are equal |
| `Authentication.Authenticate` | websocket-sharp/Net/HttpListenerAsyncResult.cs:111-145 | Anonymous, and only Anonymous, accepts without a user; every other acceptance attaches a user; None forbids; acceptance iff Anonymous or an authenticated resolved user (who is the attached principal); a rejected Basic or Digest gets its challenge with the listener's realm; any other scheme is forbidden |
| `Authentication.ApplyDecision` | websocket-sharp/Net/HttpListenerAsyncResult.cs:118-142 | Anonymous acceptance leaves the context untouched; an accepted context keeps its response; an accepted user is attached and the request marked authenticated; a rejection leaves user and request alone and closes the response (403 or the challenge) |
| `AsyncResult.StoredException` | websocket-sharp/Net/HttpListenerAsyncResult.cs:214-216 | A disposal error under InGet becomes the 500 "Listener closed." error, and any other exception (null included) is stored verbatim; the stored exception differs from the given one only when InGet holds, and then it is the 500 "Listener closed." error; while InGet holds no disposal error is stored |
| `AsyncResult.Finish` | websocket-sharp/Net/HttpListenerAsyncResult.cs:147-166 | Completion sets completed, signals an existing handle without creating one, queues the callback once iff there is one, and leaves the result fields alone |
| `AsyncResult.DisposalDuringGetSurfacesAsListenerClosed` | websocket-sharp/Net/HttpListenerAsyncResult.cs:212-220 | A disposal error during a synchronous get completes the object, and GetContext then throws the listener-closed error |
| `AsyncResult.AcceptedContextIsRetrieved` | websocket-sharp/Net/HttpListenerAsyncResult.cs:227-247 | An accepted context completes the object with the given sync flag; GetContext returns it as edited by the gate, unless an exception was stored earlier, which still wins |
| `AsyncResult.RejectedContextChangesNothing` | websocket-sharp/Net/HttpListenerAsyncResult.cs:229-232 | A rejected context leaves every field unchanged |
| `AsyncResult.SecondCompletionReplacesContext` | websocket-sharp/Net/HttpListenerAsyncResult.cs:234-238 | An already completed object accepts a second context and stores it (no single-fire guard) |
| `AsyncResult.ManualResetEvent.constructor` | websocket-sharp/Net/HttpListenerAsyncResult.cs:90 | The new handle's signalled state is the initial state it was given |
| `AsyncResult.ManualResetEvent.Set` | websocket-sharp/Net/HttpListenerAsyncResult.cs:153 | Setting the handle leaves it signalled |
| `AsyncResult.HttpListenerAsyncResult.constructor` | websocket-sharp/Net/HttpListenerAsyncResult.cs:70-75 | A new object is not completed, holds no context and no exception, has no wait handle, and keeps the given callback and state |
| `AsyncResult.HttpListenerAsyncResult.AsyncState` | websocket-sharp/Net/HttpListenerAsyncResult.cs:81-85 | Returns the state given at construction |
| `AsyncResult.HttpListenerAsyncResult.AsyncWaitHandle` | websocket-sharp/Net/HttpListenerAsyncResult.cs:87-92 | The first access creates a fresh handle, signalled iff completed; every later access returns that same instance; no other field changes |
| `AsyncResult.HttpListenerAsyncResult.CompletedSynchronously` | websocket-sharp/Net/HttpListenerAsyncResult.cs:94-98 | Returns the sync flag stored by the accepted completion |
| `AsyncResult.HttpListenerAsyncResult.IsCompleted` | websocket-sharp/Net/HttpListenerAsyncResult.cs:100-105 | Returns the completed flag |
| `AsyncResult.HttpListenerAsyncResult.CompleteStep` | websocket-sharp/Net/HttpListenerAsyncResult.cs:147-166 | The fields become `Finish` of the old fields, and the wait handle stays in sync with completion |
| `AsyncResult.HttpListenerAsyncResult.CompleteWithException` | websocket-sharp/Net/HttpListenerAsyncResult.cs:212-220 | Stores the remapped exception and completes the object |
| `AsyncResult.HttpListenerAsyncResult.CompleteWithContext` | websocket-sharp/Net/HttpListenerAsyncResult.cs:222-225 | Behaves as the two-argument form with the sync flag false |
| `AsyncResult.HttpListenerAsyncResult.CompleteWithContextAndFlag` | websocket-sharp/Net/HttpListenerAsyncResult.cs:227-239 | On rejection, hands this same object back for BeginGetContext and leaves completed, context, sync flag and exception unchanged; on acceptance, stores the edited context and the sync flag and completes |
| `AsyncResult.HttpListenerAsyncResult.GetContext` | websocket-sharp/Net/HttpListenerAsyncResult.cs:241-247 | Throws the stored exception if there is one, and otherwise returns the stored context, which may be null |
| `CompletionTrace.CompletedExactlyWhenSomeCallCompletes` | websocket-sharp/Net/HttpListenerAsyncResult.cs:212-239 | After any sequence of calls, the object is completed iff it already was or some call was a failure or a context the gate accepted; completion never reverts |
| `CompletionTrace.CallbackQueuedPerCompletion` | websocket-sharp/Net/HttpListenerAsyncResult.cs:155-165 | The callback is queued once per completing call, and never when there is no callback |
| `CompletionTrace.WaitHandleStaysInSync` | websocket-sharp/Net/HttpListenerAsyncResult.cs:87-153 | Once created, the wait handle stays; whenever it exists it is signalled exactly when the object is completed |
| `CompletionTrace.RejectionsLeaveObjectPending` | websocket-sharp/Net/HttpListenerAsyncResult.cs:227-232 | Any number of rejected resubmissions leave the object exactly as it was |
| `CompletionTrace.GetContextReadsOnlyExceptionAndContext` | websocket-sharp/Net/HttpListenerAsyncResult.cs:241-247 | GetContext reads only the stored exception and context: states that agree on those two give the same outcome |
| `CompletionTrace.ExceptionOnlyChangedByFailure` | websocket-sharp/Net/HttpListenerAsyncResult.cs:212-247 | Calls that include no `Complete(Exception)` leave the stored exception, and so whether GetContext throws, unchanged |
| `CompletionTrace.NullExceptionErasesStoredFailure` | websocket-sharp/Net/HttpListenerAsyncResult.cs:212-216 | `Complete(null)` after a failure erases the stored exception, so GetContext returns the context |

## Left out

- Locking (`lock (_sync)`) and thread safety: every method is one atomic sequential step.
- The callback itself. Queuing it on the thread pool and swallowing its exception become the ghost counter `callbacksQueued`.
- `ManualResetEvent` is reduced to a signalled flag. Blocking on it is not modelled.
- `EndCalled`: it is declared here but only used by the listener.
- The listener's `SelectAuthenticationScheme`, `Realm` and `UserCredentialsFinder` are parameters (`Listener`). `AuthenticationResponse.Parse`, `ToIdentity` and `HttpDigestIdentity.IsValid` are parameters too (`Codec`). The digest hashing behind `IsValid` is not part of this model.
- `BeginGetContext(this)` is not called. The method returns the object to resubmit (`resubmit`), and the listener's accept loop is not part of this model.
- Challenge strings are not rendered. `CreateBasicChallenge`/`CreateDigestChallenge` and their `ToBasicString`/`ToDigestString` become `Challenge` values carrying the realm. The status code and header set by `CloseWithAuthChallenge` are not modelled.
- `HttpListenerContext` is a value, so reference identity and aliasing of the context are not captured. The gate's in-place edits are returned as the edited context, and that is what gets stored.
- Authentication.CredentialIsValid: treats an identity of the wrong kind for the scheme as invalid. The source's cast would throw `InvalidCastException` there. The parser (not part of this model) yields a Basic identity only for a Basic header and a Digest identity only for a Digest header.
- Authentication.StartsWithIgnoreCaseAt: folds only ASCII letters. The Unicode simple case mappings of `OrdinalIgnoreCase` for other characters are not modelled.
- Combined `AuthenticationSchemes` flag values are the single case `Other`, carrying their `ToString()` rendering.
- `GenericIdentity.IsAuthenticated` is taken as "the name is not empty".
- A null context passed to `Complete(context, …)` is not modelled, because `Context` is a value and cannot be null. The source throws `NullReferenceException` there, at `context.Listener` (line 113).
- Subclasses of `ObjectDisposedException` are not modelled. The source's `is` test (line 214) matches them too, but `Error.OtherError` carries only a type name, so a subclass cannot be expressed.
