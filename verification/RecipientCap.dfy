/**
 The recipient cap of the SMTP listener. Its documentation speaks of a cap per session;
 the code keeps one per mail transaction.
 */
module RecipientCap {
  import opened Basics
  import opened Text
  import opened SmtpConfig
  import opened SmtpSession
  import opened SmtpTheorems

  // ---- counting -------------------------------------------------------------

  function Bit(b: bool): nat {
    if b then 1 else 0
  }

  predicate AcceptsVerb(l: Listener, s: State, input: Input, verb: Verb) {
    VerbOf(SplitCommand(input.line).0) == verb && Step(l, s, input).replies == [250]
  }

  /** How many commands of this kind the session accepts. */
  function Accepted(l: Listener, inputs: seq<Input>, verb: Verb): nat {
    if inputs == [] then 0
    else
      var n := |inputs| - 1;
      Accepted(l, inputs[..n], verb) + Bit(AcceptsVerb(l, After(l, inputs[..n]), inputs[n], verb))
  }

  lemma StepMovesRecipients(l: Listener, s: State, input: Input)
    ensures var t := Step(l, s, input).state;
            var mail, rcpt := AcceptsVerb(l, s, input, MAIL), AcceptsVerb(l, s, input, RCPT);
            && !(mail && rcpt)
            && (mail ==> t.rcptTo == [])
            && (rcpt ==> |t.rcptTo| == |s.rcptTo| + 1)
            && (!mail && !rcpt ==> |t.rcptTo| <= |s.rcptTo|)
  {
    hide EnvelopeAddress, Listed, TrimSpace, SplitPlain, KnownUser, DataStep, SplitCommand, VerbOf;
    if VerbOf(SplitCommand(input.line).0) == DATA { DataKeepsIdentity(l, s, input.env.data); }
  }

  /** Recipients the open transaction can still take. */
  function Room(cap: int, s: State): int {
    if s.transaction then cap - |s.rcptTo| else 0
  }

  /** What holds is a cap per mail transaction: a session's accepted recipients number at
      most the cap times the accepted MAILs. */
  lemma {:induction false} RecipientsPerSession(l: Listener, inputs: seq<Input>)
    requires Acceptable(l.cfg) && EffectiveMaxRecipients(l.cfg) > 0
    ensures Accepted(l, inputs, RCPT) + Room(EffectiveMaxRecipients(l.cfg), After(l, inputs))
            <= EffectiveMaxRecipients(l.cfg) * Accepted(l, inputs, MAIL)
    ensures Accepted(l, inputs, RCPT) <= EffectiveMaxRecipients(l.cfg) * Accepted(l, inputs, MAIL)
  {
    hide Acceptable, Step, AcceptsVerb, After, EffectiveMaxRecipients;
    var cap := EffectiveMaxRecipients(l.cfg);
    RcptWithinCap(l, inputs);
    if inputs == [] {
      AfterNone(l);
    } else {
      var n := |inputs| - 1;
      RecipientsPerSession(l, inputs[..n]);
      RcptWithinCap(l, inputs[..n]);
      AfterLast(l, inputs);
      StepMovesRoom(l, After(l, inputs[..n]), inputs[n], cap);
      Grow(cap, Accepted(l, inputs[..n], MAIL));
    }
  }

  lemma RcptWithinCap(l: Listener, inputs: seq<Input>)
    requires Acceptable(l.cfg) && EffectiveMaxRecipients(l.cfg) > 0
    ensures |After(l, inputs).rcptTo| <= EffectiveMaxRecipients(l.cfg)
  {
    hide Acceptable, Step, After;
    SessionStaysOk(l, inputs);
  }

  lemma StepMovesRoom(l: Listener, s: State, input: Input, cap: int)
    requires cap > 0 && |s.rcptTo| <= cap
    ensures var mail, rcpt := AcceptsVerb(l, s, input, MAIL), AcceptsVerb(l, s, input, RCPT);
            && !(mail && rcpt)
            && Room(cap, Step(l, s, input).state) + Bit(rcpt) <= Room(cap, s) + (if mail then cap else 0)
  {
    hide Step, AcceptsVerb;
    StepMovesRecipients(l, s, input);
    StepMovesTransaction(l, s, input);
  }

  lemma Grow(cap: int, n: nat)
    ensures cap * (n + 1) == cap * n + cap
  {
  }

  lemma StepMovesTransaction(l: Listener, s: State, input: Input)
    ensures var t := Step(l, s, input).state;
            && (AcceptsVerb(l, s, input, MAIL) ==> t.transaction)
            && (AcceptsVerb(l, s, input, RCPT) ==> s.transaction && t.transaction)
            && (!AcceptsVerb(l, s, input, MAIL) && t.transaction ==> s.transaction && (AcceptsVerb(l, s, input, RCPT) || t.rcptTo == s.rcptTo))
  {
    hide EnvelopeAddress, Listed, TrimSpace, SplitPlain, KnownUser, DataStep, SplitCommand, VerbOf;
    if VerbOf(SplitCommand(input.line).0) == DATA { DataKeepsIdentity(l, s, input.env.data); }
  }

  // ---- commands as a client writes them -------------------------------------

  function MailLine(addr: string): string {
    "MAIL" + " " + ("FROM:" + ("<" + addr + ">" + ""))
  }

  function RcptLine(addr: string): string {
    "RCPT" + " " + ("TO:" + ("<" + addr + ">" + ""))
  }

  lemma MailLineReadsBack(addr: string)
    requires '>' !in addr
    ensures SplitCommand(MailLine(addr)).0 == "MAIL"
    ensures EnvelopeAddress(SplitCommand(MailLine(addr)).1, "FROM:") == addr
  {
    hide EnvelopeAddress, IndexOf;
    var arg := "FROM:" + ("<" + addr + ">" + "");
    FirstIndex("MAIL" + " " + arg, ' ', 4);
    assert ("MAIL" + " " + arg)[..4] == "MAIL" && ("MAIL" + " " + arg)[5..] == arg;
    EnvelopeAddressReadsBack("FROM:", addr, "");
  }

  lemma RcptLineReadsBack(addr: string)
    requires '>' !in addr
    ensures SplitCommand(RcptLine(addr)).0 == "RCPT"
    ensures EnvelopeAddress(SplitCommand(RcptLine(addr)).1, "TO:") == addr
  {
    hide EnvelopeAddress, IndexOf;
    var arg := "TO:" + ("<" + addr + ">" + "");
    FirstIndex("RCPT" + " " + arg, ' ', 4);
    assert ("RCPT" + " " + arg)[..4] == "RCPT" && ("RCPT" + " " + arg)[5..] == arg;
    EnvelopeAddressReadsBack("TO:", addr, "");
  }

  lemma VerbsReadBack()
    ensures VerbOf("MAIL") == MAIL && VerbOf("RCPT") == RCPT && VerbOf("AUTH") == AUTH && VerbOf("STARTTLS") == STARTTLS
  {
    assert Upper("MAIL") == "MAIL" && Upper("RCPT") == "RCPT" && Upper("AUTH") == "AUTH" && Upper("STARTTLS") == "STARTTLS";
  }

  lemma AfterSnoc(l: Listener, inputs: seq<Input>, input: Input)
    ensures After(l, inputs + [input]) == Step(l, After(l, inputs), input).state
    ensures forall verb :: Accepted(l, inputs + [input], verb)
                           == Accepted(l, inputs, verb) + Bit(AcceptsVerb(l, After(l, inputs), input, verb))
  {
    hide Step, AcceptsVerb, After;
    var all := inputs + [input];
    assert all[..|all| - 1] == inputs;
    AfterLast(l, all);
  }

  // ---- a session that fills every transaction -------------------------------

  predicate MayMail(cfg: ListenerConfig, s: State) {
    (cfg.requireTLS ==> s.tlsActive) && !AuthMissing(cfg, s)
  }

  /** An address that a client can write between angle brackets. */
  predicate Writable(addr: string) {
    addr != [] && '>' !in addr
  }

  lemma MailIsAccepted(l: Listener, s: State, addr: string, env: Env)
    requires MayMail(l.cfg, s) && Writable(addr) && Listed(addr, l.cfg.allowedSenders)
    ensures var mail := Input(MailLine(addr), env);
            && AcceptsVerb(l, s, mail, MAIL) && !AcceptsVerb(l, s, mail, RCPT)
            && Step(l, s, mail).state == Reset(s).(mailFrom := addr, transaction := true)
  {
    hide EnvelopeAddress, SplitCommand, VerbOf, MailLine, Listed;
    MailLineReadsBack(addr);
    VerbsReadBack();
  }

  lemma RcptIsAccepted(l: Listener, s: State, addr: string, env: Env)
    requires s.transaction && |s.rcptTo| < EffectiveMaxRecipients(l.cfg) && Writable(addr)
    requires l.cfg.allowedRecipients != [] ==> Listed(addr, l.cfg.allowedRecipients)
    ensures var rcpt := Input(RcptLine(addr), env);
            && AcceptsVerb(l, s, rcpt, RCPT) && !AcceptsVerb(l, s, rcpt, MAIL)
            && Step(l, s, rcpt).state == s.(rcptTo := s.rcptTo + [addr])
  {
    hide EnvelopeAddress, SplitCommand, VerbOf, RcptLine, Listed, EffectiveMaxRecipients;
    RcptLineReadsBack(addr);
    VerbsReadBack();
  }

  function Repeat(input: Input, n: nat): seq<Input> {
    if n == 0 then [] else Repeat(input, n - 1) + [input]
  }

  /** n transactions after `opening`, each with `cap` recipients. */
  function Burst(opening: seq<Input>, mail: Input, rcpt: Input, cap: nat, n: nat): seq<Input> {
    if n == 0 then opening else Burst(opening, mail, rcpt, cap, n - 1) + [mail] + Repeat(rcpt, cap)
  }

  /** A sender and a recipient the configuration takes, and credentials that can be
      written in an AUTH PLAIN message if passwords are the only way in. */
  ghost predicate Reachable(cfg: ListenerConfig, from: string, to: string) {
    && Writable(from) && Listed(from, cfg.allowedSenders)
    && Writable(to) && (cfg.allowedRecipients != [] ==> Listed(to, cfg.allowedRecipients))
    && (EffectiveAuthMode(cfg) == AuthSMTP ==> exists i :: 0 <= i < |cfg.users| && '\0' !in cfg.users[i].username)
  }

  lemma {:induction false} FillTransaction(l: Listener, inputs: seq<Input>, from: string, to: string, env: Env, n: nat)
    requires MayMail(l.cfg, After(l, inputs)) && Reachable(l.cfg, from, to) && n <= EffectiveMaxRecipients(l.cfg)
    ensures var all := inputs + [Input(MailLine(from), env)] + Repeat(Input(RcptLine(to), env), n);
            && MayMail(l.cfg, After(l, all)) && After(l, all).transaction && |After(l, all).rcptTo| == n
            && Accepted(l, all, MAIL) == Accepted(l, inputs, MAIL) + 1
            && Accepted(l, all, RCPT) == Accepted(l, inputs, RCPT) + n
  {
    hide Step, AcceptsVerb, After, Accepted, Listed, MailLine, RcptLine, EffectiveMaxRecipients;
    var mail, rcpt := Input(MailLine(from), env), Input(RcptLine(to), env);
    if n == 0 {
      MailIsAccepted(l, After(l, inputs), from, env);
      AfterSnoc(l, inputs, mail);
      assert inputs + [mail] + [] == inputs + [mail];
    } else {
      var before := inputs + [mail] + Repeat(rcpt, n - 1);
      FillTransaction(l, inputs, from, to, env, n - 1);
      RcptIsAccepted(l, After(l, before), to, env);
      AfterSnoc(l, before, rcpt);
      assert inputs + [mail] + Repeat(rcpt, n) == before + [rcpt];
    }
  }

  lemma {:induction false} BurstFills(l: Listener, opening: seq<Input>, from: string, to: string, env: Env, n: nat)
    requires MayMail(l.cfg, After(l, opening)) && Reachable(l.cfg, from, to) && EffectiveMaxRecipients(l.cfg) > 0
    requires Accepted(l, opening, MAIL) == 0 && Accepted(l, opening, RCPT) == 0
    ensures var all := Burst(opening, Input(MailLine(from), env), Input(RcptLine(to), env), EffectiveMaxRecipients(l.cfg), n);
            && MayMail(l.cfg, After(l, all))
            && Accepted(l, all, MAIL) == n && Accepted(l, all, RCPT) == EffectiveMaxRecipients(l.cfg) * n
  {
    hide Reachable, MayMail, After, Accepted, EffectiveMaxRecipients, MailLine, RcptLine, Repeat;
    var cap, mail, rcpt := EffectiveMaxRecipients(l.cfg), Input(MailLine(from), env), Input(RcptLine(to), env);
    if n > 0 {
      BurstFills(l, opening, from, to, env, n - 1);
      FillTransaction(l, Burst(opening, mail, rcpt, cap, n - 1), from, to, env, cap);
      Grow(cap, n - 1);
    }
  }

  // ---- getting to MAIL ------------------------------------------------------

  lemma {:induction false} NoIndex(s: string, c: char)
    requires c !in s
    ensures IndexOf(s, c) == |s|
  {
    if s != [] {
      NoIndex(s[1..], c);
    }
  }

  lemma StartTlsOpens(l: Listener, inputs: seq<Input>, env: Env)
    requires OffersTLS(l.cfg) && !After(l, inputs).tlsActive && env.handshake == Established(true)
    ensures var all := inputs + [Input("STARTTLS", env)];
            && After(l, all).tlsActive && After(l, all).authedViaCert
            && Accepted(l, all, MAIL) == Accepted(l, inputs, MAIL) && Accepted(l, all, RCPT) == Accepted(l, inputs, RCPT)
  {
    hide IndexOf, VerbOf, After, Accepted;
    NoIndex("STARTTLS", ' ');
    VerbsReadBack();
    AfterSnoc(l, inputs, Input("STARTTLS", env));
  }

  /** A client that answers the prompt with these credentials. */
  function Answering(env: Env, c: Credentials): Env {
    env.(continuation := Some(""), decode := (_: string) => Some("" + "\0" + (c.user + "\0" + c.pass)))
  }

  lemma PlainLineReadsBack()
    ensures SplitCommand("AUTH PLAIN") == ("AUTH", "PLAIN") && IsPlain("PLAIN") && TrimSpace("PLAIN"[5..]) == ""
  {
    hide IndexOf;
    var line := "AUTH PLAIN";
    FirstIndex(line, ' ', 4);
    assert line[..4] == "AUTH" && line[5..] == "PLAIN";
  }

  lemma LoginOpens(l: Listener, inputs: seq<Input>, env: Env, c: Credentials)
    requires TakesPasswords(EffectiveAuthMode(l.cfg)) && (l.cfg.requireTLS ==> After(l, inputs).tlsActive)
    requires KnownUser(l.cfg.users, c.user, c.pass) && '\0' !in c.user
    ensures var all := inputs + [Input("AUTH PLAIN", Answering(env, c))];
            && After(l, all) == After(l, inputs).(authedUser := c.user)
            && Accepted(l, all, MAIL) == Accepted(l, inputs, MAIL) && Accepted(l, all, RCPT) == Accepted(l, inputs, RCPT)
  {
    hide SplitCommand, VerbOf, IsPlain, TrimSpace, SplitPlain, KnownUser, After, Accepted;
    var input := Input("AUTH PLAIN", Answering(env, c));
    PlainLineReadsBack();
    PlainReadsBack("", c.user, c.pass);
    VerbsReadBack();
    AfterSnoc(l, inputs, input);
  }

  /** Every accepted configuration lets some client come as far as MAIL, without a mail
      transaction on the way. */
  lemma Opening(l: Listener, from: string, to: string, env: Env) returns (opening: seq<Input>)
    requires Acceptable(l.cfg) && Reachable(l.cfg, from, to)
    ensures MayMail(l.cfg, After(l, opening)) && Accepted(l, opening, MAIL) == 0 && Accepted(l, opening, RCPT) == 0
  {
    var shake := env.(handshake := Established(true));
    opening := [];
    AfterNone(l);
    if OffersTLS(l.cfg) {
      StartTlsOpens(l, [], shake);
      opening := [] + [Input("STARTTLS", shake)];
    }
    if EffectiveAuthMode(l.cfg) == AuthSMTP {
      var i :| 0 <= i < |l.cfg.users| && '\0' !in l.cfg.users[i].username;
      var c := Credentials(l.cfg.users[i].username, l.cfg.users[i].password);
      assert l.cfg.users[i] == User(c.user, c.pass);
      KnownUserIsNamed(l.cfg, c.user, c.pass);
      LoginOpens(l, opening, env, c);
      opening := opening + [Input("AUTH PLAIN", Answering(env, c))];
    }
  }

  // ---- exactly when the cap holds for a session -----------------------------

  /** The bound per transaction is tight: for every accepted configuration with a cap and
      every n there is a session with n accepted MAILs and n times the cap of accepted
      recipients. */
  lemma CapIsTight(l: Listener, from: string, to: string, env: Env, n: nat) returns (session: seq<Input>)
    requires Acceptable(l.cfg) && Reachable(l.cfg, from, to) && EffectiveMaxRecipients(l.cfg) > 0
    ensures Accepted(l, session, MAIL) == n && Accepted(l, session, RCPT) == EffectiveMaxRecipients(l.cfg) * n
  {
    var opening := Opening(l, from, to, env);
    BurstFills(l, opening, from, to, env, n);
    session := Burst(opening, Input(MailLine(from), env), Input(RcptLine(to), env), EffectiveMaxRecipients(l.cfg), n);
  }

  /** So the cap holds for whole sessions exactly as long as they open one mail
      transaction at most. */
  lemma CapHoldsPerSessionIffOneMail(l: Listener, from: string, to: string, env: Env, n: nat)
    requires Acceptable(l.cfg) && Reachable(l.cfg, from, to) && EffectiveMaxRecipients(l.cfg) > 0
    ensures (forall session :: Accepted(l, session, MAIL) == n ==> Accepted(l, session, RCPT) <= EffectiveMaxRecipients(l.cfg)) <==> n <= 1
  {
    hide Acceptable, Reachable, EffectiveMaxRecipients, Accepted;
    var cap := EffectiveMaxRecipients(l.cfg);
    if n <= 1 {
      forall session | Accepted(l, session, MAIL) == n ensures Accepted(l, session, RCPT) <= cap {
        RecipientsPerSession(l, session);
        Monotone(n, 1, cap);
      }
    } else {
      var session := CapIsTight(l, from, to, env, n);
      Monotone(2, n, cap);
    }
  }

  lemma Monotone(a: nat, b: nat, cap: nat)
    requires a <= b
    ensures cap * a <= cap * b
  {
  }

  /** A listener for a private network with a cap of one recipient. */
  const CAP_OF_ONE := ListenerConfig(":25", false, "", "", "", AuthNone, [], ["*"], [], [], 1, 0, 0, 0)

  lemma CapOfOneIsReachable(addr: string)
    requires Writable(addr)
    ensures Acceptable(CAP_OF_ONE) && Reachable(CAP_OF_ONE, addr, addr) && EffectiveMaxRecipients(CAP_OF_ONE) == 1
  {
    assert EntryMatches("*", addr) && CAP_OF_ONE.allowedSenders[0] == "*";
  }

  /** Two mail transactions in one session get two recipients past a cap of one. */
  lemma CapIsNotPerSession(l: Listener, addr: string, env: Env)
    requires l.cfg == CAP_OF_ONE && Writable(addr)
    ensures var mail, rcpt := Input(MailLine(addr), env), Input(RcptLine(addr), env);
            Acceptable(l.cfg) && EffectiveMaxRecipients(l.cfg) == 1 && Accepted(l, [mail, rcpt, mail, rcpt], RCPT) == 2
  {
    hide Step, AcceptsVerb, MailLine, RcptLine, After;
    var mail, rcpt := Input(MailLine(addr), env), Input(RcptLine(addr), env);
    CapOfOneIsReachable(addr);
    AfterNone(l);
    BurstFills(l, [], addr, addr, env, 2);
    assert Repeat(rcpt, 1) == [rcpt];
    assert Burst([], mail, rcpt, 1, 1) == [mail, rcpt];
    assert Burst([], mail, rcpt, 1, 2) == [mail, rcpt, mail, rcpt];
  }
}
