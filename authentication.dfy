/**
 * The authentication gate that HttpListenerAsyncResult runs before it accepts a context:
 * the credential resolver (`createUser`) and the per-context decision (`authenticate`).
 *
 * Everything the gate consults but does not define is a parameter: the listener's scheme
 * selection, realm and credentials finder (`Listener`), and the parsers and the digest
 * check of the authentication classes (`Codec`).
 */
module Authentication {
  import opened Wrappers

  /** The values of the AuthenticationSchemes enumeration; `Other` is any other value, with its rendering. */
  datatype Scheme = NoScheme | Digest | Basic | Anonymous | Other(rendering: string)

  /** The enumeration's `ToString()`. */
  function SchemeName(s: Scheme): string
  {
    match s
    case NoScheme => "None"
    case Digest => "Digest"
    case Basic => "Basic"
    case Anonymous => "Anonymous"
    case Other(rendering) => rendering
  }

  /** HttpBasicIdentity and HttpDigestIdentity, both GenericIdentity subclasses. */
  datatype Identity =
    | BasicIdentity(name: string, password: string)
    | DigestIdentity(name: string, parameters: map<string, string>)
  {
    /** GenericIdentity.IsAuthenticated: the name is not empty. */
    predicate IsAuthenticated()
    {
      |name| > 0
    }
  }

  /** The fields of NetworkCredential the gate reads. */
  datatype Credential = Credential(userName: string, password: string, roles: seq<string>)

  /** What a call of the credentials finder yields: a credential, null, or an exception. */
  datatype Lookup = Found(credential: Credential) | NotFound | Threw

  /** GenericPrincipal: an identity and the roles of its credential. */
  datatype Principal = GenericPrincipal(identity: Identity, roles: seq<string>)

  /** A parsed Authorization header (AuthenticationResponse). */
  datatype AuthResponse = AuthResponse(scheme: string, parameters: map<string, string>)

  datatype Challenge = BasicChallenge(realm: string) | DigestChallenge(realm: string)

  datatype ResponseState = Open | Closed(status: int) | ChallengeSent(challenge: Challenge)

  datatype Request = Request(authorization: Option<string>, httpMethod: string, isAuthenticated: bool)

  /** The parts of an HttpListenerContext the gate reads or writes. */
  datatype Context = Context(request: Request, response: ResponseState, user: Option<Principal>)

  /** The listener's capabilities the gate consults. */
  datatype Listener = Listener(
    selectScheme: Context -> Scheme,
    realm: string,
    credentialsFinder: Identity -> Lookup)

  /**
   * AuthenticationResponse.Parse, AuthenticationResponse.ToIdentity and
   * HttpDigestIdentity.IsValid(password, realm, method, null).
   */
  datatype Codec = Codec(
    parse: string -> Option<AuthResponse>,
    toIdentity: AuthResponse -> Option<Identity>,
    digestIsValid: (Identity, string, string, string) -> bool)

  const Forbidden: int := 403

  /** Upper-casing as OrdinalIgnoreCase applies it to ASCII letters. */
  function UpperAscii(c: char): char
  {
    if 'a' <= c <= 'z' then (c as int - 32) as char else c
  }

  /** `s.StartsWith(prefix, StringComparison.OrdinalIgnoreCase)`. */
  predicate StartsWithIgnoreCase(s: string, prefix: string)
  {
    |prefix| == 0 ||
    (|s| > 0 && UpperAscii(s[0]) == UpperAscii(prefix[0]) && StartsWithIgnoreCase(s[1..], prefix[1..]))
  }

  /** The prefix test compares the first |prefix| characters position by position, ignoring ASCII case. */
  lemma {:induction false} StartsWithIgnoreCaseAt(s: string, prefix: string)
    ensures StartsWithIgnoreCase(s, prefix) <==>
      |prefix| <= |s| && forall i :: 0 <= i < |prefix| ==> UpperAscii(s[i]) == UpperAscii(prefix[i])
  {
    if |prefix| > 0 && |s| > 0 {
      StartsWithIgnoreCaseAt(s[1..], prefix[1..]);
      if UpperAscii(s[0]) == UpperAscii(prefix[0]) && StartsWithIgnoreCase(s[1..], prefix[1..]) {
        forall i | 0 <= i < |prefix|
          ensures UpperAscii(s[i]) == UpperAscii(prefix[i])
        {
          if i > 0 { assert s[1..][i - 1] == s[i] && prefix[1..][i - 1] == prefix[i]; }
        }
      }
      if |prefix| <= |s| && forall i :: 0 <= i < |prefix| ==> UpperAscii(s[i]) == UpperAscii(prefix[i]) {
        forall i | 0 <= i < |prefix| - 1
          ensures UpperAscii(s[1..][i]) == UpperAscii(prefix[1..][i])
        {
          assert UpperAscii(s[i + 1]) == UpperAscii(prefix[i + 1]);
        }
      }
    }
  }

  /** Two headers that differ only in the case of ASCII letters pass or fail the scheme-prefix test together. */
  lemma SchemePrefixIgnoresCase(s: string, t: string, scheme: Scheme)
    requires |s| == |t|
    requires forall i :: 0 <= i < |s| ==> UpperAscii(s[i]) == UpperAscii(t[i])
    ensures StartsWithIgnoreCase(s, SchemeName(scheme)) == StartsWithIgnoreCase(t, SchemeName(scheme))
  {
    StartsWithIgnoreCaseAt(s, SchemeName(scheme));
    StartsWithIgnoreCaseAt(t, SchemeName(scheme));
  }

  /**
   * The password check of `createUser`: exact equality for Basic, the delegated digest check for
   * Digest, and no other scheme is ever valid.
   */
  function CredentialIsValid(scheme: Scheme, id: Identity, cred: Credential, realm: string, httpMethod: string, codec: Codec): (valid: bool)
    ensures valid ==> scheme.Basic? || scheme.Digest?
    ensures scheme.Basic? ==> (valid <==> id.BasicIdentity? && id.password == cred.password)
    ensures scheme.Digest? ==> (valid <==> id.DigestIdentity? && codec.digestIsValid(id, cred.password, realm, httpMethod))
  {
    match scheme
    case Basic => id.BasicIdentity? && id.password == cred.password
    case Digest => id.DigestIdentity? && codec.digestIsValid(id, cred.password, realm, httpMethod)
    case _ => false
  }

  /**
   * `createUser`: resolves the Authorization header to a principal, or to nothing when the header is
   * missing, does not start with the scheme's name, does not parse, yields no identity, has no
   * credential (the finder returned null or threw), or fails validation.
   */
  function CreateUser(response: Option<string>, scheme: Scheme, realm: string, httpMethod: string,
                      finder: Identity -> Lookup, codec: Codec): (user: Option<Principal>)
    ensures response.None? ==> user.None?
    ensures response.Some? && !StartsWithIgnoreCase(response.value, SchemeName(scheme)) ==> user.None?
    ensures !(scheme.Basic? || scheme.Digest?) ==> user.None?
    ensures user.Some? ==>
      && response.Some?
      && codec.parse(response.value).Some?
      && codec.toIdentity(codec.parse(response.value).value) == Some(user.value.identity)
      && finder(user.value.identity).Found?
      && user.value.roles == finder(user.value.identity).credential.roles
      && CredentialIsValid(scheme, user.value.identity, finder(user.value.identity).credential, realm, httpMethod, codec)
    ensures
      && response.Some?
      && StartsWithIgnoreCase(response.value, SchemeName(scheme))
      && codec.parse(response.value).Some?
      && codec.toIdentity(codec.parse(response.value).value).Some?
      && finder(codec.toIdentity(codec.parse(response.value).value).value).Found?
      && CredentialIsValid(scheme, codec.toIdentity(codec.parse(response.value).value).value,
                           finder(codec.toIdentity(codec.parse(response.value).value).value).credential,
                           realm, httpMethod, codec)
      ==>
      var id := codec.toIdentity(codec.parse(response.value).value).value;
      user == Some(GenericPrincipal(id, finder(id).credential.roles))
  {
    if response.None? || !StartsWithIgnoreCase(response.value, SchemeName(scheme)) then None
    else match codec.parse(response.value)
      case None => None
      case Some(res) =>
        match codec.toIdentity(res)
        case None => None
        case Some(id) =>
          match finder(id)
          case Found(cred) =>
            if CredentialIsValid(scheme, id, cred, realm, httpMethod, codec) then Some(GenericPrincipal(id, cred.roles))
            else None
          case _ => None
  }

  /** A finder that throws is indistinguishable from one that returns null: the exception is swallowed. */
  lemma FinderExceptionIsSwallowed(response: Option<string>, scheme: Scheme, realm: string, httpMethod: string,
                                   throwing: Identity -> Lookup, returningNull: Identity -> Lookup, codec: Codec)
    requires forall id :: throwing(id) == returningNull(id) || (throwing(id).Threw? && returningNull(id).NotFound?)
    ensures CreateUser(response, scheme, realm, httpMethod, throwing, codec) ==
            CreateUser(response, scheme, realm, httpMethod, returningNull, codec)
  {
  }

  /** With a Basic header that parses to a Basic identity with a credential on file, the user is resolved exactly when the passwords are equal. */
  lemma BasicResolvesOnExactPassword(header: string, realm: string, httpMethod: string,
                                     finder: Identity -> Lookup, codec: Codec, res: AuthResponse, name: string, password: string)
    requires StartsWithIgnoreCase(header, "Basic")
    requires codec.parse(header) == Some(res)
    requires codec.toIdentity(res) == Some(BasicIdentity(name, password))
    requires finder(BasicIdentity(name, password)).Found?
    ensures CreateUser(Some(header), Basic, realm, httpMethod, finder, codec).Some? <==>
            password == finder(BasicIdentity(name, password)).credential.password
  {
  }

  /** What `authenticate` decides; the first two accept the context. */
  datatype Decision =
    | Admit                   // Anonymous: no response action
    | AdmitUser(principal: Principal)
    | Forbid                  // the response is closed with 403
    | Demand(challenge: Challenge)
  {
    predicate Accepts()
    {
      Admit? || AdmitUser?
    }
  }

  /** The principal `createUser` resolves for this context and scheme. */
  function ResolvedUser(ctx: Context, scheme: Scheme, listener: Listener, codec: Codec): Option<Principal>
  {
    CreateUser(ctx.request.authorization, scheme, listener.realm, ctx.request.httpMethod, listener.credentialsFinder, codec)
  }

  /**
   * `authenticate`: Anonymous accepts, None forbids; otherwise an authenticated resolved user is
   * accepted and a failure is answered with the scheme's challenge (403 for any other scheme).
   */
  function Authenticate(ctx: Context, listener: Listener, codec: Codec): (d: Decision)
    ensures listener.selectScheme(ctx).Anonymous? ==> d == Admit
    ensures listener.selectScheme(ctx).NoScheme? ==> d == Forbid
    ensures d == Admit <==> listener.selectScheme(ctx).Anonymous?
    ensures d.Accepts() && !listener.selectScheme(ctx).Anonymous? ==> d.AdmitUser?
    ensures d.AdmitUser? ==>
      && ResolvedUser(ctx, listener.selectScheme(ctx), listener, codec) == Some(d.principal)
      && d.principal.identity.IsAuthenticated()
    ensures d.Accepts() <==>
      || listener.selectScheme(ctx).Anonymous?
      || (&& !listener.selectScheme(ctx).NoScheme?
          && ResolvedUser(ctx, listener.selectScheme(ctx), listener, codec).Some?
          && ResolvedUser(ctx, listener.selectScheme(ctx), listener, codec).value.identity.IsAuthenticated())
    ensures !d.Accepts() && listener.selectScheme(ctx).Basic? ==> d == Demand(BasicChallenge(listener.realm))
    ensures !d.Accepts() && listener.selectScheme(ctx).Digest? ==> d == Demand(DigestChallenge(listener.realm))
    ensures listener.selectScheme(ctx).Other? ==> d == Forbid
  {
    var scheme := listener.selectScheme(ctx);
    if scheme.Anonymous? then Admit
    else if scheme.NoScheme? then Forbid
    else
      var user := ResolvedUser(ctx, scheme, listener, codec);
      if user.Some? && user.value.identity.IsAuthenticated() then AdmitUser(user.value)
      else if scheme.Basic? then Demand(BasicChallenge(listener.realm))
      else if scheme.Digest? then Demand(DigestChallenge(listener.realm))
      else Forbid
  }

  /**
   * What `authenticate` does to the context it was given: an accepted user is attached and the
   * request marked authenticated; a rejection closes the response.
   */
  function ApplyDecision(ctx: Context, d: Decision): (c: Context)
    ensures c.request.authorization == ctx.request.authorization && c.request.httpMethod == ctx.request.httpMethod
    ensures d == Admit ==> c == ctx
    ensures d.Accepts() ==> c.response == ctx.response
    ensures !d.Accepts() ==> c.user == ctx.user && c.request == ctx.request && !c.response.Open?
    ensures d.AdmitUser? ==> c.user == Some(d.principal) && c.request.isAuthenticated
    ensures d == Forbid ==> c.response == Closed(Forbidden)
    ensures d.Demand? ==> c.response == ChallengeSent(d.challenge)
  {
    match d
    case Admit => ctx
    case AdmitUser(p) => ctx.(user := Some(p), request := ctx.request.(isAuthenticated := true))
    case Forbid => ctx.(response := Closed(Forbidden))
    case Demand(ch) => ctx.(response := ChallengeSent(ch))
  }
}
