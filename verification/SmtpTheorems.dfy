/**
 What every sequence of SMTP commands keeps, and what a 250 after DATA commits to.
 */
module SmtpTheorems {
  import opened Mail
  import opened Text
  import opened Tables
  import opened Transport
  import opened Headers
  import opened Delivery
  import opened DeliveryLaws
  import opened Clock
  import opened SmtpConfig
  import opened SmtpSession

  /** The session after these commands. */
  function After(l: Listener, inputs: seq<Input>): State {
    if inputs == [] then FRESH
    else Step(l, After(l, inputs[..|inputs| - 1]), inputs[|inputs| - 1]).state
  }

  lemma AfterNone(l: Listener)
    ensures After(l, []) == FRESH
  {
  }

  lemma AfterLast(l: Listener, inputs: seq<Input>)
    requires inputs != []
    ensures After(l, inputs) == Step(l, After(l, inputs[..|inputs| - 1]), inputs[|inputs| - 1]).state
  {
    hide Step;
  }

  // ---- the session invariant ------------------------------------------------

  ghost predicate SessionOk(cfg: ListenerConfig, s: State) {
    && (s.transaction ==>
          && (cfg.requireTLS ==> s.tlsActive) && !AuthMissing(cfg, s)
          && s.mailFrom != [] && Listed(s.mailFrom, cfg.allowedSenders))
    && (!s.transaction ==> s.rcptTo == [] && s.mailFrom == [])
    && (EffectiveMaxRecipients(cfg) > 0 ==> |s.rcptTo| <= EffectiveMaxRecipients(cfg))
    && (cfg.allowedRecipients != [] ==> forall i :: 0 <= i < |s.rcptTo| ==> Listed(s.rcptTo[i], cfg.allowedRecipients))
    && (s.tlsActive ==> OffersTLS(cfg))
    && (s.authedViaCert ==> s.tlsActive)
    && (s.authedUser != [] ==> TakesPasswords(EffectiveAuthMode(cfg)) && (cfg.requireTLS ==> s.tlsActive))
  }

  lemma KnownUserIsNamed(cfg: ListenerConfig, user: string, pass: string)
    requires Acceptable(cfg) && TakesPasswords(EffectiveAuthMode(cfg)) && KnownUser(cfg.users, user, pass)
    ensures user != []
  {
    var i :| 0 <= i < |cfg.users| && cfg.users[i] == User(user, pass);
    assert UserOk(cfg.users[i]);
  }

  lemma AuthKeepsOk(cfg: ListenerConfig, s: State, arg: string, env: Env)
    requires Acceptable(cfg) && SessionOk(cfg, s)
    ensures SessionOk(cfg, AuthStep(cfg, s, arg, env).state)
  {
    hide Listed, Acceptable, TrimSpace, SplitPlain, KnownUser;
    var r := AuthStep(cfg, s, arg, env);
    if r.state != s {
      var c := Presented(arg, env).value;
      KnownUserIsNamed(cfg, c.user, c.pass);
    }
  }

  lemma MailKeepsOk(cfg: ListenerConfig, s: State, arg: string)
    requires SessionOk(cfg, s)
    ensures SessionOk(cfg, MailStep(cfg, s, arg).state)
  {
    hide Listed, EnvelopeAddress;
  }

  lemma RcptKeepsOk(cfg: ListenerConfig, s: State, arg: string)
    requires SessionOk(cfg, s)
    ensures SessionOk(cfg, RcptStep(cfg, s, arg).state)
  {
    hide Listed, EnvelopeAddress;
  }

  lemma StepKeepsOk(l: Listener, s: State, input: Input)
    requires Acceptable(l.cfg) && SessionOk(l.cfg, s)
    ensures SessionOk(l.cfg, Step(l, s, input).state)
  {
    hide Listed, Acceptable, EnvelopeAddress, SplitCommand, VerbOf, Remaining, AllFit, BuildMessage, ReadLimited;
    var (word, arg) := SplitCommand(input.line);
    match VerbOf(word)
    case AUTH =>
      hide AuthStep;
      AuthKeepsOk(l.cfg, s, arg, input.env);
    case MAIL => MailKeepsOk(l.cfg, s, arg);
    case RCPT => RcptKeepsOk(l.cfg, s, arg);
    case _ =>
  }

  lemma {:induction false} SessionStaysOk(l: Listener, inputs: seq<Input>)
    requires Acceptable(l.cfg)
    ensures SessionOk(l.cfg, After(l, inputs))
  {
    if inputs != [] {
      hide Acceptable, Step;
      SessionStaysOk(l, inputs[..|inputs| - 1]);
      StepKeepsOk(l, After(l, inputs[..|inputs| - 1]), inputs[|inputs| - 1]);
    }
  }

  // ---- the gate -------------------------------------------------------------

  /** Only DATA hands anything to the transport. */
  lemma OnlyDataHands(l: Listener, s: State, input: Input)
    requires Step(l, s, input).handed.Some?
    ensures VerbOf(SplitCommand(input.line).0) == DATA
    ensures Step(l, s, input) == DataStep(l, s, input.env.data)
  {
    hide SplitCommand, VerbOf, StartTlsStep, AuthStep, MailStep, RcptStep, DataStep;
  }

  lemma HandedRecipients(l: Listener, s: State, env: DataEnv)
    requires DataStep(l, s, env).handed.Some?
    ensures var m := DataStep(l, s, env).handed.value;
            && s.transaction && m.to != [] && m.to == Remaining(s.rcptTo, env.keep)
            && |m.to| <= |s.rcptTo|
            && (forall i :: 0 <= i < |m.to| ==> m.to[i] in s.rcptTo)
  {
    hide AllFit, BuildMessage, ReadLimited;
    FilterConserves(s.rcptTo, env.keep);
    assert forall x :: x in Remaining(s.rcptTo, env.keep) ==> x in s.rcptTo;
  }

  /** After every sequence of commands, mid-session STARTTLS, failed AUTH and repeated
      MAIL included: a message reaches the transport only if TLS is active where it is
      required, the configured authentication is satisfied, the envelope sender is on
      the allowlist, and there is at least one recipient; and its recipients are capped,
      or all on the allowlist, or both. */
  lemma TransportGate(l: Listener, inputs: seq<Input>, input: Input)
    requires Acceptable(l.cfg) && Step(l, After(l, inputs), input).handed.Some?
    ensures var s, m := After(l, inputs), Step(l, After(l, inputs), input).handed.value;
            && (l.cfg.requireTLS ==> s.tlsActive)
            && !AuthMissing(l.cfg, s)
            && (EffectiveAuthMode(l.cfg) == AuthClientCert ==> s.tlsActive)
            && s.mailFrom != [] && Listed(s.mailFrom, l.cfg.allowedSenders)
            && m.to != []
            && (EffectiveMaxRecipients(l.cfg) > 0 || l.cfg.allowedRecipients != [])
            && (EffectiveMaxRecipients(l.cfg) > 0 ==> |m.to| <= EffectiveMaxRecipients(l.cfg))
            && (l.cfg.allowedRecipients != [] ==> forall i :: 0 <= i < |m.to| ==> Listed(m.to[i], l.cfg.allowedRecipients))
  {
    hide Step, DataStep, Listed, Remaining, EnvelopeAddress, After;
    var s := After(l, inputs);
    SessionStaysOk(l, inputs);
    OnlyDataHands(l, s, input);
    HandedRecipients(l, s, input.env.data);
    RecipientsAreBounded(l.cfg);
    hide Acceptable;
    var m := Step(l, s, input).handed.value;
    forall i | l.cfg.allowedRecipients != [] && 0 <= i < |m.to| ensures Listed(m.to[i], l.cfg.allowedRecipients) {
      var j :| 0 <= j < |s.rcptTo| && s.rcptTo[j] == m.to[i];
    }
  }

  // ---- where authentication comes from --------------------------------------

  /** This command presents a configured user's name and password, under TLS if required. */
  ghost predicate LogsIn(l: Listener, s: State, input: Input, user: string) {
    var (word, arg) := SplitCommand(input.line);
    && VerbOf(word) == AUTH && (l.cfg.requireTLS ==> s.tlsActive) && IsPlain(arg)
    && Presented(arg, input.env).Some? && Presented(arg, input.env).value.user == user
    && KnownUser(l.cfg.users, user, Presented(arg, input.env).value.pass)
  }

  /** Command j logged the user in, and the connection has not changed its TLS state since. */
  ghost predicate LoggedInAt(l: Listener, inputs: seq<Input>, j: nat, user: string) {
    && j < |inputs| && LogsIn(l, After(l, inputs[..j]), inputs[j], user)
    && After(l, inputs[..j]).tlsActive == After(l, inputs).tlsActive
  }

  lemma StepChangesUser(l: Listener, s: State, input: Input)
    ensures var t := Step(l, s, input).state;
            && (t.authedUser == s.authedUser || t.authedUser == [] || LogsIn(l, s, input, t.authedUser))
            && (t.tlsActive != s.tlsActive ==> t.authedUser == [] && t.tlsActive)
            && (t.authedViaCert != s.authedViaCert ==> input.env.handshake == Established(true) && t.tlsActive && !s.tlsActive)
  {
    hide EnvelopeAddress, Listed, DataStep, AuthStep, SplitCommand, VerbOf, LogsIn;
    var (word, arg) := SplitCommand(input.line);
    if VerbOf(word) == DATA { DataKeepsIdentity(l, s, input.env.data); }
    if VerbOf(word) == AUTH { AuthNeedsProof(l, s, input); }
  }

  lemma AuthNeedsProof(l: Listener, s: State, input: Input)
    requires VerbOf(SplitCommand(input.line).0) == AUTH
    ensures var t := AuthStep(l.cfg, s, SplitCommand(input.line).1, input.env).state;
            t == s.(authedUser := t.authedUser) && (t == s || LogsIn(l, s, input, t.authedUser))
  {
    hide TrimSpace, SplitPlain, KnownUser, SplitCommand, VerbOf, EqualFold;
  }

  lemma DataKeepsIdentity(l: Listener, s: State, env: DataEnv)
    ensures DataStep(l, s, env).state == s || DataStep(l, s, env).state == Reset(s)
  {
  }

  /** A session is authenticated by password only through a command that presented a
      configured user's credentials, and no earlier than the last STARTTLS: credentials
      given in the clear do not survive the upgrade. */
  lemma {:induction false} LoginHasProof(l: Listener, inputs: seq<Input>)
    requires After(l, inputs).authedUser != []
    ensures exists j: nat :: LoggedInAt(l, inputs, j, After(l, inputs).authedUser)
  {
    AfterNone(l);
    var n := |inputs| - 1;
    var front, s, t := inputs[..n], After(l, inputs[..n]), After(l, inputs);
    AfterLast(l, inputs);
    StepChangesUser(l, s, inputs[n]);
    hide Step, LogsIn, After;
    if t.authedUser == s.authedUser && t.tlsActive == s.tlsActive {
      LoginHasProof(l, front);
      var j: nat :| LoggedInAt(l, front, j, s.authedUser);
      ProofCarriesOver(l, inputs, j, s.authedUser);
    } else {
      assert LogsIn(l, s, inputs[n], t.authedUser) && t.tlsActive == s.tlsActive;
      assert LoggedInAt(l, inputs, n, t.authedUser);
    }
  }

  lemma ProofCarriesOver(l: Listener, inputs: seq<Input>, j: nat, user: string)
    requires inputs != [] && LoggedInAt(l, inputs[..|inputs| - 1], j, user)
    requires After(l, inputs[..|inputs| - 1]).tlsActive == After(l, inputs).tlsActive
    ensures LoggedInAt(l, inputs, j, user)
  {
    hide LogsIn, After;
    assert inputs[..|inputs| - 1][..j] == inputs[..j];
  }

  // ---- the 250 contract -----------------------------------------------------

  /** The message was read whole, is within the limit, and parses. */
  predicate Readable(l: Listener, env: DataEnv) {
    && env.body.Some? && env.parsed.Some? && AllFit(env.parsed.value.header, l.passthrough)
    && (l.maxBody > 0 ==> |env.body.value| <= l.maxBody)
  }

  /** Once 354 has been sent, the transaction is over whatever happens; and 250 is the
      reply exactly when the message is readable and the provider accepted it, or its row
      is now in the retry queue, or every recipient was suppressed. A row in the queue
      rebuilds to the message that was handed over. The verdict is the one the session
      derives from the same tables, and the id is new. */
  lemma Data250Contract(l: Listener, s: State, env: DataEnv, via: Ingress, db: Db, working: bool,
                        answer: SendResult, recordAt: int, outcomeAt: int, disk: Disk)
    requires s.transaction && s.rcptTo != [] && env.prompted && via.Smtp?
    requires env.verdict == VerdictOf(db, working, via, env.id, answer, disk) && IsNew(db, env.id)
    ensures var r, after := DataStep(l, s, env), DataDb(l, s, env, via, db, working, answer, recordAt, outcomeAt, disk);
            && r.state == Reset(s) && |r.replies| == 2 && r.replies[0] == 354
            && (r.replies[1] == 250 <==>
                  Readable(l, env) && (Removed(s.rcptTo, env.keep) == s.rcptTo || answer.Took? || env.id in after.queue))
            && (r.replies[1] == 250 ==> (r.handed.None? <==> Removed(s.rcptTo, env.keep) == s.rcptTo))
            && (env.id in after.queue ==>
                  && r.handed.Some? && env.id in after.submissions && after.submissions[env.id].status == Queued
                  && Rebuild(after.submissions[env.id]) == r.handed.value)
  {
    hide DataStep, DataDb, Readable, Removed;
    ReplyContract(l, s, env, via, db, working, answer, recordAt, outcomeAt, disk);
    if env.id in DataDb(l, s, env, via, db, working, answer, recordAt, outcomeAt, disk).queue {
      QueuedRowRebuilds(l, s, env, via, db, working, answer, recordAt, outcomeAt, disk);
    }
  }

  lemma ReplyContract(l: Listener, s: State, env: DataEnv, via: Ingress, db: Db, working: bool,
                      answer: SendResult, recordAt: int, outcomeAt: int, disk: Disk)
    requires s.transaction && s.rcptTo != [] && env.prompted && via.Smtp?
    requires env.verdict == VerdictOf(db, working, via, env.id, answer, disk) && IsNew(db, env.id)
    ensures var r, after := DataStep(l, s, env), DataDb(l, s, env, via, db, working, answer, recordAt, outcomeAt, disk);
            && r.state == Reset(s) && |r.replies| == 2 && r.replies[0] == 354
            && (r.replies[1] == 250 <==>
                  Readable(l, env) && (Removed(s.rcptTo, env.keep) == s.rcptTo || answer.Took? || env.id in after.queue))
            && (r.replies[1] == 250 ==> (r.handed.None? <==> Removed(s.rcptTo, env.keep) == s.rcptTo))
  {
    RemovedAll(s.rcptTo, env.keep);
    DataCases(l, s, env, via, db, working, working, answer, recordAt, outcomeAt, disk);
    ReadableReaches(l, s, env);
    hide VerdictOf, DataStep, DataDb, DataHealthy, Forwarded, StaysWorking, Readable, ReachesDelivery, Remaining, Removed;
  }

  /** With storage working, mail the provider may take later is taken over: 250, and a row in
      the retry queue. */
  lemma RetryableMailIsTakenOver(l: Listener, s: State, env: DataEnv, via: Ingress, db: Db,
                                 answer: SendResult, recordAt: int, outcomeAt: int, disk: Disk)
    requires s.transaction && s.rcptTo != [] && env.prompted && via.Smtp?
    requires env.verdict == VerdictOf(db, true, via, env.id, answer, disk) && IsNew(db, env.id)
    requires Readable(l, env) && Removed(s.rcptTo, env.keep) != s.rcptTo
    requires answer.Refused? && answer.error.TransportError? && answer.error.kind in {Transient, RateLimited}
    requires disk.recordOk && disk.outcomeOk
    ensures DataStep(l, s, env).replies == [354, 250]
    ensures env.id in DataDb(l, s, env, via, db, true, answer, recordAt, outcomeAt, disk).queue
  {
    RemovedAll(s.rcptTo, env.keep);
    VerdictIs(db, true, via, env.id, answer, disk);
    DataCases(l, s, env, via, db, true, true, answer, recordAt, outcomeAt, disk);
    ReadableReaches(l, s, env);
    hide VerdictOf, DataStep, DataDb, DataHealthy, Forwarded, StaysWorking, Readable, ReachesDelivery, Remaining, Removed;
  }

  /** A message whose recipients are all suppressed is answered 250 and logged as suppressed,
      by sender and subject, without its content. */
  lemma AllSuppressedIsLogged(l: Listener, s: State, env: DataEnv, via: Ingress, db: Db,
                              answer: SendResult, recordAt: int, outcomeAt: int, disk: Disk)
    requires s.transaction && s.rcptTo != [] && env.prompted && via.Smtp? && Readable(l, env)
    requires env.verdict == VerdictOf(db, true, via, env.id, answer, disk) && IsNew(db, env.id)
    requires Removed(s.rcptTo, env.keep) == s.rcptTo
    ensures var after := DataDb(l, s, env, via, db, true, answer, recordAt, outcomeAt, disk);
            && DataStep(l, s, env).replies == [354, 250] && DataStep(l, s, env).handed.None?
            && (disk.recordOk ==>
                  && env.id in after.submissions
                  && var row, p := after.submissions[env.id], env.parsed.value;
                     && row.status == Suppressed && row.endpoint == via.listener && row.transport == via.transport
                     && row.from == (if p.from != "" then p.from else s.mailFrom) && row.subject == p.subject
                     && row.toAddrs == [] && row.replyTo == row.bodyText == row.bodyHTML == row.clientIP == ""
                     && row.headers == [] && row.createdAt == Unix(recordAt) && row.sentAt.None?
                     && row.messageID == row.lastError == "")
            && (!disk.recordOk ==> after == db)
  {
    RemovedAll(s.rcptTo, env.keep);
    ReadableReaches(l, s, env);
    hide VerdictOf, Settled, StaysHealthy, Readable, Refusal, Remaining, Removed, Selected, Unix;
  }

  /** Under a new id, a queue row comes from a message that was handed over, and holds it. */
  lemma QueuedRowRebuilds(l: Listener, s: State, env: DataEnv, via: Ingress, db: Db, working: bool,
                          answer: SendResult, recordAt: int, outcomeAt: int, disk: Disk)
    requires via.Smtp? && env.verdict == VerdictOf(db, working, via, env.id, answer, disk) && IsNew(db, env.id)
    requires env.id in DataDb(l, s, env, via, db, working, answer, recordAt, outcomeAt, disk).queue
    ensures var after := DataDb(l, s, env, via, db, working, answer, recordAt, outcomeAt, disk);
            && DataStep(l, s, env).handed.Some? && env.id in after.submissions && after.submissions[env.id].status == Queued
            && Rebuild(after.submissions[env.id]) == DataStep(l, s, env).handed.value
  {
    DataCases(l, s, env, via, db, working, working, answer, recordAt, outcomeAt, disk);
    hide VerdictOf, DataStep, Forwarded, StaysWorking, ReachesDelivery, Remaining;
    ForwardedRowRebuilds(db, via, Checked(l, s, env), answer, recordAt, outcomeAt, disk);
  }

  lemma ReadableReaches(l: Listener, s: State, env: DataEnv)
    requires s.transaction && s.rcptTo != [] && env.prompted
    ensures ReachesDelivery(l, s, env) <==> Readable(l, env)
  {
    hide AllFit;
  }

  /** A row that forwarding put into the queue holds the message. */
  lemma ForwardedRowRebuilds(db: Db, via: Ingress, msg: Message, answer: SendResult, recordAt: int, outcomeAt: int, disk: Disk)
    requires via.Smtp? && IsNew(db, msg.submissionID) && msg.fields == map[] && msg.attachments == []
    requires msg.submissionID in Forwarded(db, via, msg, answer, recordAt, outcomeAt, disk).queue
    ensures var after := Forwarded(db, via, msg, answer, recordAt, outcomeAt, disk);
            && msg.to != [] && msg.submissionID in after.submissions && after.submissions[msg.submissionID].status == Queued
            && Rebuild(after.submissions[msg.submissionID]) == msg
  {
    RebuildInvertsStore(via, msg.submissionID, msg, recordAt);
    hide PreSendRow;
  }

  lemma {:induction false} RemovedAll(to: seq<string>, keep: nat -> bool)
    ensures Remaining(to, keep) == [] <==> Removed(to, keep) == to
  {
    FilterConserves(to, keep);
    if to != [] {
      RemovedAll(to[..|to| - 1], keep);
      assert to == to[..|to| - 1] + [to[|to| - 1]];
      FilterConserves(to[..|to| - 1], keep);
    }
  }

  /** What goes out is addressed to the envelope recipients only, in their order, with the
      suppressed ones taken out; headers cannot add a recipient. Subject, reply address and
      HTML are those of the message; the sender is its From header, or the envelope sender
      without one; the text is its text, or derived from the HTML if there is only that.
      It has the shape the store can rebuild, and its passthrough headers are the
      configured ones of the message and pass every transport's check. */
  lemma HandedMessageIsWellFormed(l: Listener, s: State, env: DataEnv, via: Ingress)
    requires DataStep(l, s, env).handed.Some? && via.Smtp?
    requires Acceptable(l.cfg) && Configured(l)
    ensures env.parsed.Some?
    ensures var m := DataStep(l, s, env).handed.value;
            && IsMerge(s.rcptTo, m.to, Removed(s.rcptTo, env.keep))
            && IngressShape(via, env.id, m)
            && HeadersOk(m.headers) && m.headers == Selected(env.parsed.value.header, l.passthrough)
            && var p := env.parsed.value;
               && m.subject == p.subject && m.replyTo == p.replyTo && m.bodyHTML == p.bodyHTML
               && m.from == (if p.from != "" then p.from else s.mailFrom)
               && (p.bodyText != "" || p.bodyHTML == "" ==> m.bodyText == p.bodyText)
               && (p.bodyText == "" && p.bodyHTML != "" ==> m.bodyText == l.toText(p.bodyHTML))
  {
    HandedIsChecked(l, s, env);
    ConfiguredNames(l);
    FilterConserves(s.rcptTo, env.keep);
    AcceptedHeadersStayValid(env.parsed.value.header, l.passthrough);
    hide DataStep, Acceptable, Configured, Remaining, Removed, IsMerge, HeadersOk, AllFit, Selected, DistinctNames;
  }

  lemma HandedIsChecked(l: Listener, s: State, env: DataEnv)
    requires DataStep(l, s, env).handed.Some?
    ensures env.parsed.Some? && DataStep(l, s, env).handed.value == Checked(l, s, env)
    ensures AllFit(env.parsed.value.header, l.passthrough)
    ensures Checked(l, s, env).headers == Selected(env.parsed.value.header, l.passthrough)
  {
    hide AllFit, Selected, Remaining, ReadLimited;
  }
}
