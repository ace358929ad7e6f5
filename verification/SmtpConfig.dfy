/**
 The SMTP listener's configuration: how unset fields resolve, and which settings are
 refused at start-up.
 */
module SmtpConfig {
  import opened Text
  import opened Headers
  import opened HeaderLaws

  datatype AuthMode = Unset | AuthSMTP | AuthClientCert | AuthEither | AuthNone | OtherMode(name: string)

  datatype User = User(username: string, password: string)

  datatype ListenerConfig = ListenerConfig(
    listen: string,
    requireTLS: bool,
    tlsCert: string,
    tlsKey: string,
    clientCertCA: string,
    authRequired: AuthMode,
    users: seq<User>,
    allowedSenders: seq<string>,
    allowedRecipients: seq<string>,
    passthroughHeaders: seq<string>,
    maxRecipients: int,
    idleTimeout: int,
    maxConnections: int,
    maxConnectionsPerIP: int)

  function EffectiveAuthMode(c: ListenerConfig): AuthMode {
    if c.authRequired == Unset then AuthSMTP else c.authRequired
  }

  /** Zero means no cap. */
  function EffectiveMaxRecipients(c: ListenerConfig): int {
    if c.maxRecipients > 0 then c.maxRecipients
    else if c.allowedRecipients == [] then 10
    else 0
  }

  function EffectiveMaxConnections(c: ListenerConfig): int {
    if c.maxConnections <= 0 then 100 else c.maxConnections
  }

  function EffectiveMaxConnectionsPerIP(c: ListenerConfig): int {
    if c.maxConnectionsPerIP <= 0 then 16 else c.maxConnectionsPerIP
  }

  predicate TakesPasswords(mode: AuthMode) {
    mode == AuthSMTP || mode == AuthEither
  }

  predicate TakesCertificates(mode: AuthMode) {
    mode == AuthClientCert || mode == AuthEither
  }

  /** Whether the listener loads TLS material and so offers STARTTLS. */
  predicate OffersTLS(c: ListenerConfig) {
    c.requireTLS || TakesCertificates(EffectiveAuthMode(c))
  }

  predicate UserOk(u: User) {
    TrimSpace(u.username) != [] && u.password != []
  }

  /** What an accepted configuration guarantees. */
  ghost predicate Acceptable(c: ListenerConfig) {
    var mode := EffectiveAuthMode(c);
    && c.listen != [] && c.allowedSenders != []
    && !mode.OtherMode?
    && (TakesPasswords(mode) ==> c.users != [] && forall i :: 0 <= i < |c.users| ==> UserOk(c.users[i]))
    && (TakesCertificates(mode) ==> c.clientCertCA != [])
    && (OffersTLS(c) ==> c.tlsCert != [] && c.tlsKey != [])
    && c.maxRecipients >= 0
    && c.idleTimeout >= 0
    && (forall i :: 0 <= i < |c.passthroughHeaders| ==> PassthroughHeader(c.passthroughHeaders[i]).Some?)
    && (forall i, j :: 0 <= i < j < |c.passthroughHeaders| ==>
          PassthroughHeader(c.passthroughHeaders[i]) != PassthroughHeader(c.passthroughHeaders[j]))
  }

  /** Checks in the order an operator sees them; the result says whether all passed. */
  method Validate(c: ListenerConfig) returns (ok: bool)
    ensures ok <==> Acceptable(c)
  {
    hide PassthroughHeader, TrimSpace;
    if c.listen == [] { return false; }
    if c.allowedSenders == [] { return false; }
    var mode := if c.authRequired == Unset then AuthSMTP else c.authRequired;
    if mode.OtherMode? { return false; }
    if TakesPasswords(mode) {
      if c.users == [] { return false; }
      for i := 0 to |c.users|
        invariant forall j :: 0 <= j < i ==> UserOk(c.users[j])
      {
        if TrimSpace(c.users[i].username) == [] || c.users[i].password == [] {
          assert !UserOk(c.users[i]);
          return false;
        }
      }
    }
    if TakesCertificates(mode) && c.clientCertCA == [] { return false; }
    if c.requireTLS || TakesCertificates(mode) {
      if c.tlsCert == [] || c.tlsKey == [] { return false; }
    }
    if c.allowedRecipients == [] && c.maxRecipients == 0 {
      // Both unset: the default cap of 10 applies.
    } else if c.maxRecipients < 0 {
      return false;
    }
    if c.idleTimeout < 0 { return false; }
    var names := PassthroughNames(c.passthroughHeaders);
    return names.Some?;
  }

  predicate AllBlank(s: string) {
    forall i :: 0 <= i < |s| ==> IsSpace(s[i])
  }

  /** The same setting by setting. Passwords are the default. */
  lemma AcceptedSettings(c: ListenerConfig)
    ensures Acceptable(c) <==>
            var passwords := c.authRequired == Unset || c.authRequired == AuthSMTP || c.authRequired == AuthEither;
            var certificates := c.authRequired == AuthClientCert || c.authRequired == AuthEither;
            && c.listen != "" && c.allowedSenders != [] && !c.authRequired.OtherMode?
            && (passwords ==> c.users != [] && forall i :: 0 <= i < |c.users| ==> !AllBlank(c.users[i].username) && c.users[i].password != "")
            && (certificates ==> c.clientCertCA != "")
            && (c.requireTLS || certificates ==> c.tlsCert != "" && c.tlsKey != "")
            && c.maxRecipients >= 0 && c.idleTimeout >= 0
            && PassthroughAccepted(c.passthroughHeaders)
  {
    hide TrimSpace, PassthroughHeader, IsSpace;
    forall i | 0 <= i < |c.users| ensures UserOk(c.users[i]) <==> !AllBlank(c.users[i].username) && c.users[i].password != "" {
      TrimsToNothing(c.users[i].username);
    }
    HeaderSettings(c.passthroughHeaders);
    hide UserOk, AllBlank, PassthroughAccepted;
  }

  /** Each is one of the three names in any case, and none is there twice. */
  ghost predicate PassthroughAccepted(names: seq<string>) {
    && (forall i :: 0 <= i < |names| ==> OneOfThree(TrimSpace(names[i])))
    && (forall i, j :: 0 <= i < j < |names| ==> !SameText(TrimSpace(names[i]), TrimSpace(names[j])))
  }

  predicate OneOfThree(name: string) {
    SameText(name, "List-Unsubscribe") || SameText(name, "List-Unsubscribe-Post") || SameText(name, "List-Id")
  }

  lemma HeaderSettings(names: seq<string>)
    ensures PassthroughAccepted(names) <==>
            && (forall i :: 0 <= i < |names| ==> PassthroughHeader(names[i]).Some?)
            && (forall i, j :: 0 <= i < j < |names| ==> PassthroughHeader(names[i]) != PassthroughHeader(names[j]))
  {
    hide TrimSpace, PassthroughHeader, SameText;
    forall i | 0 <= i < |names| ensures PassthroughHeader(names[i]).Some? <==> OneOfThree(TrimSpace(names[i])) {
      AcceptedNames(names[i], "List-Unsubscribe");
      AcceptedNames(names[i], "List-Unsubscribe-Post");
      AcceptedNames(names[i], "List-Id");
      if PassthroughHeader(names[i]).Some? { AcceptedNames(names[i], PassthroughHeader(names[i]).value); }
    }
    forall i, j | 0 <= i < j < |names| && PassthroughHeader(names[i]).Some? && PassthroughHeader(names[j]).Some?
      ensures PassthroughHeader(names[i]) == PassthroughHeader(names[j]) <==> SameText(TrimSpace(names[i]), TrimSpace(names[j]))
    {
      SameHeaderIff(names[i], names[j]);
    }
  }

  /** Open-relay prevention: an accepted configuration bounds the recipients of a mail
      transaction by a cap or by an allowlist. */
  lemma RecipientsAreBounded(c: ListenerConfig)
    requires Acceptable(c)
    ensures EffectiveMaxRecipients(c) > 0 || c.allowedRecipients != []
    ensures EffectiveMaxRecipients(c) >= 0
    ensures c.maxRecipients > 0 ==> EffectiveMaxRecipients(c) == c.maxRecipients
    ensures c.maxRecipients == 0 && c.allowedRecipients == [] ==> EffectiveMaxRecipients(c) == 10
    ensures EffectiveMaxRecipients(c) == 0 <==> c.maxRecipients == 0 && c.allowedRecipients != []
  {
  }
}
