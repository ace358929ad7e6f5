/**
 Where a session's transaction and identity come from: the commands that gave them.
 */
module SmtpHistory {
  import opened Mail
  import opened Text
  import opened Delivery
  import opened SmtpConfig
  import opened SmtpSession
  import opened SmtpTheorems

  ghost predicate Accepted(l: Listener, inputs: seq<Input>, j: nat, verb: Verb) {
    && j < |inputs| && VerbOf(SplitCommand(inputs[j].line).0) == verb
    && Step(l, After(l, inputs[..j]), inputs[j]).replies == [250]
  }

  function Argument(input: Input): string {
    SplitCommand(input.line).1
  }

  /** Command j is a MAIL that was accepted for this sender, under the same TLS as now. */
  ghost predicate OpenedAt(l: Listener, inputs: seq<Input>, j: nat, from: string) {
    && Accepted(l, inputs, j, MAIL) && EnvelopeAddress(Argument(inputs[j]), "FROM:") == from
    && After(l, inputs[..j]).tlsActive == After(l, inputs).tlsActive
  }

  /** The addresses of the RCPT commands accepted behind command j. */
  ghost function Added(l: Listener, inputs: seq<Input>, j: nat): seq<string>
    decreases |inputs|
  {
    if |inputs| <= j + 1 then []
    else
      var n := |inputs| - 1;
      Added(l, inputs[..n], j) + (if Accepted(l, inputs, n, RCPT) then [EnvelopeAddress(Argument(inputs[n]), "TO:")] else [])
  }

  /** Command j is a STARTTLS that turned TLS on and verified the client's certificate. */
  ghost predicate CertifiedAt(l: Listener, inputs: seq<Input>, j: nat) {
    && j < |inputs| && VerbOf(SplitCommand(inputs[j].line).0) == STARTTLS
    && inputs[j].env.handshake == Established(true) && !After(l, inputs[..j]).tlsActive
  }

  // ---- one command ----------------------------------------------------------

  lemma StepMovesTransaction(l: Listener, s: State, input: Input)
    ensures var r, verb, arg := Step(l, s, input), VerbOf(SplitCommand(input.line).0), Argument(input);
            var t := r.state;
            t.transaction ==>
              && t.tlsActive == s.tlsActive
              && if verb == MAIL && r.replies == [250] then t.mailFrom == EnvelopeAddress(arg, "FROM:") && t.rcptTo == []
                 else && s.transaction && t.mailFrom == s.mailFrom
                      && t.rcptTo == s.rcptTo + (if verb == RCPT && r.replies == [250] then [EnvelopeAddress(arg, "TO:")] else [])
  {
    hide EnvelopeAddress, Listed, DataStep, AuthStep, SplitCommand, VerbOf, EffectiveMaxRecipients;
    var (word, arg) := SplitCommand(input.line);
    if VerbOf(word) == DATA { DataEndsOrKeeps(l, s, input.env.data); }
    if VerbOf(word) == AUTH { AuthChangesUser(l.cfg, s, arg, input.env); }
  }

  lemma DataEndsOrKeeps(l: Listener, s: State, env: DataEnv)
    ensures DataStep(l, s, env).state == s || !DataStep(l, s, env).state.transaction
  {
    hide Refusal, Remaining;
  }

  lemma AuthChangesUser(cfg: ListenerConfig, s: State, arg: string, env: Env)
    ensures var t := AuthStep(cfg, s, arg, env).state; t == s.(authedUser := t.authedUser)
  {
    hide TrimSpace, SplitPlain, KnownUser, EqualFold;
  }

  lemma StepCertifies(l: Listener, s: State, input: Input)
    ensures Step(l, s, input).state.authedViaCert ==>
              || s.authedViaCert
              || (VerbOf(SplitCommand(input.line).0) == STARTTLS && input.env.handshake == Established(true) && !s.tlsActive)
  {
    hide EnvelopeAddress, Listed, DataStep, AuthStep, SplitCommand, VerbOf, EffectiveMaxRecipients;
    var (word, arg) := SplitCommand(input.line);
    if VerbOf(word) == DATA { DataKeepsIdentity(l, s, input.env.data); }
    if VerbOf(word) == AUTH { AuthChangesUser(l.cfg, s, arg, input.env); }
  }

  // ---- every command sequence -----------------------------------------------

  lemma EarlierIsSame(l: Listener, inputs: seq<Input>, n: nat, j: nat, verb: Verb)
    requires j < n <= |inputs|
    ensures inputs[..n][..j] == inputs[..j] && inputs[..n][j] == inputs[j]
    ensures Accepted(l, inputs[..n], j, verb) <==> Accepted(l, inputs, j, verb)
  {
    hide Step, VerbOf, SplitCommand, After;
    assert inputs[..n][..j] == inputs[..j];
  }

  /** A transaction was opened by a MAIL accepted under the same TLS state, its sender is
      the address of that command, and its recipients are the addresses of the RCPTs
      accepted since, in order. */
  lemma {:induction false} TransactionHasHistory(l: Listener, inputs: seq<Input>) returns (j: nat)
    requires After(l, inputs).transaction
    ensures OpenedAt(l, inputs, j, After(l, inputs).mailFrom)
    ensures After(l, inputs).rcptTo == Added(l, inputs, j)
  {
    AfterNone(l);
    var n := |inputs| - 1;
    var front := inputs[..n];
    var s := After(l, front);
    AfterLast(l, inputs);
    StepMovesTransaction(l, s, inputs[n]);
    hide Step, After, VerbOf, SplitCommand, EnvelopeAddress;
    if Accepted(l, inputs, n, MAIL) {
      j := n;
    } else {
      j := TransactionHasHistory(l, front);
      EarlierIsSame(l, inputs, n, j, MAIL);
    }
  }

  /** A session is authenticated by certificate only through a STARTTLS whose handshake
      verified one. */
  lemma {:induction false} CertificateHasProof(l: Listener, inputs: seq<Input>) returns (j: nat)
    requires After(l, inputs).authedViaCert
    ensures CertifiedAt(l, inputs, j)
  {
    AfterNone(l);
    var n := |inputs| - 1;
    AfterLast(l, inputs);
    StepCertifies(l, After(l, inputs[..n]), inputs[n]);
    hide Step, After, VerbOf, SplitCommand;
    if After(l, inputs[..n]).authedViaCert {
      j := CertificateHasProof(l, inputs[..n]);
      EarlierIsSame(l, inputs, n, j, STARTTLS);
    } else {
      j := n;
    }
  }

  /** The proof of identity that a listener's setting asks for. */
  ghost predicate HasProof(l: Listener, inputs: seq<Input>) {
    var password := exists j: nat, user :: user != "" && LoggedInAt(l, inputs, j, user);
    var certificate := exists j: nat :: CertifiedAt(l, inputs, j);
    match l.cfg.authRequired
    case Unset => password
    case AuthSMTP => password
    case AuthClientCert => certificate
    case AuthEither => password || certificate
    case AuthNone => true
    case OtherMode(_) => false
  }

  /** Every message that reaches the transport has a history: an accepted MAIL that named its
      envelope sender, accepted RCPTs that named its recipients, in the order of the message
      except for the suppressed ones, and the login or certificate that the listener asks
      for, the login no older than the last STARTTLS. */
  lemma HandedMailHasHistory(l: Listener, inputs: seq<Input>, input: Input)
    requires Acceptable(l.cfg) && Step(l, After(l, inputs), input).handed.Some?
    ensures HasProof(l, inputs)
    ensures exists j: nat, suppressed ::
              && OpenedAt(l, inputs, j, After(l, inputs).mailFrom)
              && IsMerge(Added(l, inputs, j), Step(l, After(l, inputs), input).handed.value.to, suppressed)
  {
    var s, env := After(l, inputs), input.env.data;
    OnlyDataHands(l, s, input);
    HandedRecipients(l, s, env);
    FilterConserves(s.rcptTo, env.keep);
    TransportGate(l, inputs, input);
    NoOtherMode(l.cfg);
    hide Step, DataStep, After, VerbOf, SplitCommand, EnvelopeAddress, Acceptable, IsMerge, Remaining, Removed, LoggedInAt, Listed;
    var j := TransactionHasHistory(l, inputs);
    assert IsMerge(Added(l, inputs, j), Step(l, s, input).handed.value.to, Removed(s.rcptTo, env.keep));
    if s.authedUser != "" { LoginHasProof(l, inputs); }
    if s.authedViaCert { var k := CertificateHasProof(l, inputs); }
  }

  lemma NoOtherMode(cfg: ListenerConfig)
    requires Acceptable(cfg)
    ensures !cfg.authRequired.OtherMode?
  {
  }
}
