/**
 The per-connection SMTP state machine. Each handler changes the session's fields and
 answers with reply codes; sockets, TLS handshakes, base64, MIME parsing and the provider
 are answers handed in from outside.
 */
module SmtpSession {
  import opened Basics
  import opened Clock
  import opened Mail
  import opened Text
  import opened Tables
  import opened Transport
  import opened Storage
  import opened Headers
  import opened Delivery
  import opened Suppressions
  import opened SmtpConfig

  // ---- reading a command ----------------------------------------------------

  datatype Verb = EHLO | HELO | STARTTLS | AUTH | MAIL | RCPT | DATA | RSET | NOOP | QUIT | Unrecognized

  /** strings.ToUpper as far as it can yield an ASCII capital: the dotless i and the long s
      have one too. */
  function UpperAny(c: char): char {
    if c == '\U{131}' then 'I' else if c == '\U{17F}' then 'S' else UpperChar(c)
  }

  function Upper(s: string): string {
    seq(|s|, i requires 0 <= i < |s| => UpperAny(s[i]))
  }

  /** The command word and the rest of the line after the first blank. */
  function SplitCommand(line: string): (string, string) {
    var i := IndexOf(line, ' ');
    if i == |line| then (line, "") else (line[..i], line[i + 1..])
  }

  function VerbOf(word: string): Verb {
    var w := Upper(word);
    if w == "EHLO" then EHLO else if w == "HELO" then HELO else if w == "STARTTLS" then STARTTLS
    else if w == "AUTH" then AUTH else if w == "MAIL" then MAIL else if w == "RCPT" then RCPT
    else if w == "DATA" then DATA else if w == "RSET" then RSET else if w == "NOOP" then NOOP
    else if w == "QUIT" then QUIT else Unrecognized
  }

  /** The address between the angle brackets of MAIL FROM or RCPT TO; empty if there is none. */
  function EnvelopeAddress(arg: string, prefix: string): string {
    if |arg| < |prefix| || !EqualFold(arg[..|prefix|], prefix) then ""
    else
      var rest := TrimSpace(arg[|prefix|..]);
      if rest == [] || rest[0] != '<' then ""
      else
        var end := IndexOf(rest, '>');
        if end == |rest| then "" else rest[1..end]
  }

  /** What a client writes is what the server reads, parameters after the address included. */
  lemma EnvelopeAddressReadsBack(prefix: string, addr: string, params: string)
    requires '>' !in addr && (params == [] || !IsSpace(params[|params| - 1]))
    ensures EnvelopeAddress(prefix + ("<" + addr + ">" + params), prefix) == addr
  {
    hide TrimSpace, IndexOf, IsSpace;
    var rest := "<" + addr + ">" + params;
    assert !IsSpace('<') && !IsSpace('>') by { BracketsAreNoSpace(); }
    assert (prefix + rest)[..|prefix|] == prefix && (prefix + rest)[|prefix|..] == rest;
    assert rest[0] == '<';
    assert rest[|rest| - 1] == if params == [] then '>' else params[|params| - 1];
    TrimIsIdentity(rest);
    assert rest[|addr| + 1] == '>';
    FirstIndex(rest, '>', |addr| + 1);
  }

  lemma BracketsAreNoSpace()
    ensures !IsSpace('<') && !IsSpace('>')
  {
  }

  lemma {:induction false} FirstIndex(s: string, c: char, i: nat)
    requires i < |s| && s[i] == c && forall j :: 0 <= j < i ==> s[j] != c
    ensures IndexOf(s, c) == i
  {
    if i > 0 {
      FirstIndex(s[1..], c, i - 1);
    }
  }

  // ---- the allowlist --------------------------------------------------------

  /** An exact address, a domain wildcard, or a star. */
  predicate EntryMatches(entry: string, addr: string) {
    || entry == "*"
    || entry == addr
    || (HasPrefix(entry, "*@") && IndexOf(addr, '@') < |addr| && addr[IndexOf(addr, '@') + 1..] == entry[2..])
  }

  predicate Listed(addr: string, allowlist: seq<string>) {
    exists i :: 0 <= i < |allowlist| && EntryMatches(allowlist[i], addr)
  }

  method MatchesAllowlist(addr: string, allowlist: seq<string>) returns (ok: bool)
    ensures ok <==> Listed(addr, allowlist)
  {
    for i := 0 to |allowlist|
      invariant forall j :: 0 <= j < i ==> !EntryMatches(allowlist[j], addr)
    {
      var entry := allowlist[i];
      if entry == "*" || entry == addr {
        return true;
      }
      if HasPrefix(entry, "*@") {
        var at := IndexOf(addr, '@');
        if at < |addr| && addr[at + 1..] == entry[2..] {
          return true;
        }
      }
    }
    return false;
  }

  // ---- AUTH PLAIN -----------------------------------------------------------

  datatype Credentials = Credentials(user: string, pass: string)

  /** bytes.SplitN at NUL into three: whatever follows the second NUL is the password. */
  function SplitPlain(raw: string): Option<Credentials> {
    var i := IndexOf(raw, '\0');
    if i == |raw| then None
    else
      var rest := raw[i + 1..];
      var j := IndexOf(rest, '\0');
      if j == |rest| then None else Some(Credentials(rest[..j], rest[j + 1..]))
  }

  /** The message of section 2 of RFC 4616 reads back, whatever authorization identity
      comes first, and even if the password contains NUL. */
  lemma PlainReadsBack(authzid: string, user: string, pass: string)
    requires '\0' !in authzid && '\0' !in user
    ensures SplitPlain(authzid + "\0" + (user + "\0" + pass)) == Some(Credentials(user, pass))
  {
    var rest := user + "\0" + pass;
    var raw := authzid + "\0" + rest;
    FirstIndex(raw, '\0', |authzid|);
    assert raw[|authzid| + 1..] == rest;
    FirstIndex(rest, '\0', |user|);
    assert rest[..|user|] == user && rest[|user| + 1..] == pass;
  }

  predicate KnownUser(users: seq<User>, user: string, pass: string) {
    exists i :: 0 <= i < |users| && users[i] == User(user, pass)
  }

  method VerifyUser(users: seq<User>, user: string, pass: string) returns (ok: bool)
    ensures ok <==> KnownUser(users, user, pass)
  {
    for i := 0 to |users|
      invariant forall j :: 0 <= j < i ==> users[j] != User(user, pass)
    {
      var userMatch := users[i].username == user;
      var passMatch := users[i].password == pass;
      if userMatch && passMatch {
        return true;
      }
    }
    return false;
  }

  // ---- what the outside contributes -----------------------------------------

  datatype Handshake = HandshakeFailed | Established(clientCertVerified: bool)

  /** A MIME message as the library parses it, headers keyed canonically. */
  datatype Parsed = Parsed(from: string, replyTo: string, subject: string, bodyText: string, bodyHTML: string,
                           header: map<string, seq<string>>)

  /** Outside answers to one DATA command. `verdict` is how delivery ends for the
      recipients that `keep` lets through. */
  datatype DataEnv = DataEnv(prompted: bool, body: Option<string>, parsed: Option<Parsed>, id: Id,
                             keep: nat -> bool, verdict: Verdict)

  /** Outside answers to one command line. */
  datatype Env = Env(handshake: Handshake, continuation: Option<string>, decode: string -> Option<string>,
                     budgetLeft: bool, data: DataEnv)

  datatype Input = Input(line: string, env: Env)

  /** What stays fixed for a listener: its configuration, the parsed size limit, the
      passthrough names, and the derivation of text from HTML. */
  datatype Listener = Listener(cfg: ListenerConfig, maxBody: int, passthrough: seq<string>, toText: string -> string)

  /** The listener carries the headers its configuration names, under their canonical names. */
  ghost predicate Configured(l: Listener) {
    && |l.passthrough| == |l.cfg.passthroughHeaders|
    && forall i :: 0 <= i < |l.passthrough| ==> PassthroughHeader(l.cfg.passthroughHeaders[i]) == Some(l.passthrough[i])
  }

  /** Construction resolves the header names; `tlsOk` says whether TLS material loads. */
  method NewListener(cfg: ListenerConfig, maxBody: int, toText: string -> string, tlsOk: bool) returns (l: Option<Listener>)
    ensures l.Some? ==> Configured(l.value) && l.value.cfg == cfg && l.value.maxBody == maxBody && l.value.toText == toText
    ensures Acceptable(cfg) && tlsOk ==> l.Some?
  {
    hide PassthroughHeader;
    var passthrough := PassthroughNames(cfg.passthroughHeaders);
    if passthrough.None? || !tlsOk {
      return None;
    }
    return Some(Listener(cfg, maxBody, passthrough.value, toText));
  }

  /** Under an accepted configuration those names are distinct and allowed. */
  lemma ConfiguredNames(l: Listener)
    requires Acceptable(l.cfg) && Configured(l)
    ensures DistinctNames(l.passthrough) && forall i :: 0 <= i < |l.passthrough| ==> l.passthrough[i] in ALLOWLIST
  {
    hide PassthroughHeader;
    forall i | 0 <= i < |l.passthrough| ensures l.passthrough[i] in ALLOWLIST {
      assert PassthroughHeader(l.cfg.passthroughHeaders[i]) == Some(l.passthrough[i]);
    }
  }

  // ---- session state --------------------------------------------------------

  datatype State = State(tlsActive: bool, authedUser: string, authedViaCert: bool,
                         mailFrom: string, rcptTo: seq<string>, transaction: bool)

  const FRESH := State(false, "", false, "", [], false)

  function Reset(s: State): State {
    s.(mailFrom := "", rcptTo := [], transaction := false)
  }

  predicate AuthMissing(cfg: ListenerConfig, s: State) {
    match EffectiveAuthMode(cfg)
    case AuthNone => false
    case AuthSMTP => s.authedUser == []
    case AuthClientCert => !s.authedViaCert
    case _ => s.authedUser == [] && !s.authedViaCert
  }

  /** The result of one command: new state, replies, whether the session ends, and the
      message handed to the transport, if any. */
  datatype Result = Result(state: State, replies: seq<int>, close: bool, handed: Option<Message>)

  function Say(s: State, code: int): Result {
    Result(s, [code], false, None)
  }

  function StartTlsStep(cfg: ListenerConfig, s: State, handshake: Handshake): (r: Result)
    ensures r.handed.None?
  {
    if !OffersTLS(cfg) then Say(s, 502)
    else if s.tlsActive then Say(s, 503)
    else
      match handshake
      case HandshakeFailed => Say(s, 220)
      case Established(verified) =>
        Say(Reset(s).(tlsActive := true, authedUser := "", authedViaCert := s.authedViaCert || verified), 220)
  }

  predicate IsPlain(arg: string) {
    |arg| >= 5 && EqualFold(arg[..5], "PLAIN")
  }

  /** The base64 text of an AUTH PLAIN command: on the line, or on the next one. */
  function AuthPayload(arg: string, continuation: Option<string>): Option<string>
    requires IsPlain(arg)
  {
    var inline := TrimSpace(arg[5..]);
    if inline == [] then continuation else Some(inline)
  }

  /** The credentials presented, if they are well-formed. */
  function Presented(arg: string, env: Env): Option<Credentials>
    requires IsPlain(arg)
  {
    match AuthPayload(arg, env.continuation)
    case None => None
    case Some(text) => (match env.decode(text) case None => None case Some(raw) => SplitPlain(raw))
  }

  function AuthStep(cfg: ListenerConfig, s: State, arg: string, env: Env): (r: Result)
    ensures r.handed.None?
  {
    if cfg.requireTLS && !s.tlsActive then Say(s, 530)
    else if !TakesPasswords(EffectiveAuthMode(cfg)) then Say(s, 502)
    else if !IsPlain(arg) then Say(s, 504)
    else
      var asked := if TrimSpace(arg[5..]) == [] then [334] else [];
      if AuthPayload(arg, env.continuation).None? then Result(s, asked, false, None)
      else
        match Presented(arg, env)
        case Some(c) =>
          if KnownUser(cfg.users, c.user, c.pass) then Result(s.(authedUser := c.user), asked + [235], false, None)
          else AuthRefused(s, asked, env.budgetLeft)
        case None => AuthRefused(s, asked, env.budgetLeft)
  }

  /** A failed attempt counts against the client's budget; the session ends when it is spent. */
  function AuthRefused(s: State, asked: seq<int>, budgetLeft: bool): (r: Result)
    ensures r.handed.None?
  {
    if budgetLeft then Result(s, asked + [535], false, None) else Result(s, asked + [421], true, None)
  }

  function MailStep(cfg: ListenerConfig, s: State, arg: string): (r: Result)
    ensures r.handed.None?
  {
    var addr := EnvelopeAddress(arg, "FROM:");
    if cfg.requireTLS && !s.tlsActive then Say(s, 530)
    else if AuthMissing(cfg, s) then Say(s, 530)
    else if addr == [] then Say(s, 501)
    else if !Listed(addr, cfg.allowedSenders) then Say(s, 550)
    else Say(Reset(s).(mailFrom := addr, transaction := true), 250)
  }

  function RcptStep(cfg: ListenerConfig, s: State, arg: string): (r: Result)
    ensures r.handed.None?
  {
    var addr, cap := EnvelopeAddress(arg, "TO:"), EffectiveMaxRecipients(cfg);
    if !s.transaction then Say(s, 503)
    else if addr == [] then Say(s, 501)
    else if cap > 0 && |s.rcptTo| >= cap then Say(s, 452)
    else if cfg.allowedRecipients != [] && !Listed(addr, cfg.allowedRecipients) then Say(s, 550)
    else Say(s.(rcptTo := s.rcptTo + [addr]), 250)
  }

  // ---- DATA -----------------------------------------------------------------

  /** At most one byte more than the limit is read. */
  function ReadLimited(body: string, maxBody: int): string {
    if maxBody + 1 <= 0 then [] else if |body| <= maxBody + 1 then body else body[..maxBody + 1]
  }

  /** Recipients come from the envelope only, the sender from the From header with the
      envelope sender as a fallback, and an HTML-only message gets a text part. */
  function BuildMessage(l: Listener, s: State, p: Parsed, id: Id): (m: Message)
    ensures m.to == s.rcptTo && m.submissionID == id && m.fields == map[] && m.attachments == []
  {
    Message(if p.from == [] then s.mailFrom else p.from, s.rcptTo, p.replyTo, p.subject,
            if p.bodyText == [] && p.bodyHTML != [] then l.toText(p.bodyHTML) else p.bodyText, p.bodyHTML,
            id, map[], [], Selected(p.header, l.passthrough))
  }

  predicate Accepts(verdict: Verdict) {
    verdict.SentNow? || verdict.QueuedForRetry?
  }

  /** Why a message that has been read is refused: too big, malformed, or a passthrough
      header that cannot be carried; zero if it is not. */
  function Refusal(l: Listener, body: string, parsed: Option<Parsed>): (code: int)
    ensures code == 0 ==> parsed.Some?
    ensures code != 250
  {
    if l.maxBody > 0 && |ReadLimited(body, l.maxBody)| > l.maxBody then 552
    else if parsed.None? then 550
    else if !AllFit(parsed.value.header, l.passthrough) then 554
    else 0
  }

  function DataStep(l: Listener, s: State, env: DataEnv): Result {
    if !s.transaction || s.rcptTo == [] then Say(s, 503)
    else if !env.prompted then Result(s, [], false, None)
    else
      var done := Reset(s);
      if env.body.None? then Result(done, [354, 451], false, None)
      else if Refusal(l, env.body.value, env.parsed) != 0 then
        Result(done, [354, Refusal(l, env.body.value, env.parsed)], false, None)
      else
        var to := Remaining(s.rcptTo, env.keep);
        if to == [] then Result(done, [354, 250], false, None)
        else
          Result(done, [354, if Accepts(env.verdict) then 250 else 451], false,
                 Some(BuildMessage(l, s, env.parsed.value, env.id).(to := to)))
  }

  // ---- a whole command ------------------------------------------------------

  function Step(l: Listener, s: State, input: Input): Result {
    var (word, arg) := SplitCommand(input.line);
    match VerbOf(word)
    case EHLO => Say(s, 250)
    case HELO => Say(s, 250)
    case STARTTLS => StartTlsStep(l.cfg, s, input.env.handshake)
    case AUTH => AuthStep(l.cfg, s, arg, input.env)
    case MAIL => MailStep(l.cfg, s, arg)
    case RCPT => RcptStep(l.cfg, s, arg)
    case DATA => DataStep(l, s, input.env.data)
    case RSET => Say(Reset(s), 250)
    case NOOP => Say(s, 250)
    case QUIT => Result(s, [221], true, None)
    case Unrecognized => Say(s, 500)
  }

  // ---- the session object ---------------------------------------------------

  class Session {
    const listener: Listener
    const name: string
    const transport: string
    const remoteIP: string
    const gate: Gate?
    var tlsActive: bool
    var authedUser: string
    var authedViaCert: bool
    var mailFrom: string
    var rcptTo: seq<string>
    var transaction: bool

    function Current(): State
      reads this
    {
      State(tlsActive, authedUser, authedViaCert, mailFrom, rcptTo, transaction)
    }

    constructor (listener: Listener, name: string, transport: string, remoteIP: string, gate: Gate?)
      ensures this.listener == listener && this.gate == gate && Current() == FRESH
      ensures this.name == name && this.transport == transport && this.remoteIP == remoteIP
    {
      this.listener, this.name, this.transport, this.remoteIP, this.gate := listener, name, transport, remoteIP, gate;
      tlsActive, authedUser, authedViaCert := false, "", false;
      mailFrom, rcptTo, transaction := "", [], false;
    }

    method ResetTransaction()
      modifies this`mailFrom, this`rcptTo, this`transaction
      ensures Current() == Reset(old(Current()))
    {
      mailFrom, rcptTo, transaction := "", [], false;
    }

    method HandleSTARTTLS(handshake: Handshake) returns (replies: seq<int>)
      modifies this
      ensures var r := StartTlsStep(listener.cfg, old(Current()), handshake);
              Current() == r.state && replies == r.replies
    {
      if !OffersTLS(listener.cfg) { return [502]; }
      if tlsActive { return [503]; }
      replies := [220];
      if handshake.HandshakeFailed? { return; }
      tlsActive := true;
      ResetTransaction();
      authedUser := "";
      if handshake.clientCertVerified { authedViaCert := true; }
    }

    method HandleAUTH(arg: string, env: Env) returns (replies: seq<int>, close: bool)
      modifies this
      ensures var r := AuthStep(listener.cfg, old(Current()), arg, env);
              Current() == r.state && replies == r.replies && close == r.close
    {
      hide TrimSpace, SplitPlain, EqualFold;
      close := false;
      if listener.cfg.requireTLS && !tlsActive { return [530], false; }
      if !TakesPasswords(EffectiveAuthMode(listener.cfg)) { return [502], false; }
      if !IsPlain(arg) { return [504], false; }
      var creds := TrimSpace(arg[5..]);
      replies := [];
      if creds == [] {
        replies := [334];
        if env.continuation.None? { return; }
        creds := env.continuation.value;
      }
      var raw := env.decode(creds);
      if raw.Some? {
        var c := SplitPlain(raw.value);
        if c.Some? {
          var known := VerifyUser(listener.cfg.users, c.value.user, c.value.pass);
          if known {
            authedUser := c.value.user;
            replies := replies + [235];
            return;
          }
        }
      }
      if !env.budgetLeft { return replies + [421], true; }
      replies := replies + [535];
    }

    method HandleMAIL(arg: string) returns (replies: seq<int>)
      modifies this
      ensures var r := MailStep(listener.cfg, old(Current()), arg);
              Current() == r.state && replies == r.replies
    {
      hide EnvelopeAddress, Listed;
      if listener.cfg.requireTLS && !tlsActive { return [530]; }
      if AuthMissing(listener.cfg, Current()) { return [530]; }
      var addr := EnvelopeAddress(arg, "FROM:");
      if addr == [] { return [501]; }
      var ok := MatchesAllowlist(addr, listener.cfg.allowedSenders);
      if !ok { return [550]; }
      ResetTransaction();
      mailFrom := addr;
      transaction := true;
      return [250];
    }

    method HandleRCPT(arg: string) returns (replies: seq<int>)
      modifies this
      ensures var r := RcptStep(listener.cfg, old(Current()), arg);
              Current() == r.state && replies == r.replies
    {
      hide EnvelopeAddress, Listed;
      if !transaction { return [503]; }
      var addr := EnvelopeAddress(arg, "TO:");
      if addr == [] { return [501]; }
      var cap := EffectiveMaxRecipients(listener.cfg);
      if cap > 0 && |rcptTo| >= cap { return [452]; }
      if listener.cfg.allowedRecipients != [] {
        var ok := MatchesAllowlist(addr, listener.cfg.allowedRecipients);
        if !ok { return [550]; }
      }
      rcptTo := rcptTo + [addr];
      return [250];
    }

    /** DATA against the store. `env.keep` and `env.verdict` of the step it refines are
        what the suppression list and the delivery tail come to; for a new id, 250 is the
        reply exactly when the provider accepted, the retry queue now holds the message,
        or every recipient was suppressed. */
    method HandleDATA(prompted: bool, body: Option<string>, parsed: Option<Parsed>, id: Id, lookupOk: nat -> bool,
                      answer: SendResult, recordAt: int, outcomeAt: int, disk: Disk)
      returns (replies: seq<int>, sent: Option<Message>, ghost env: DataEnv)
      modifies this, gate, if gate == null then {} else {gate.store}
      ensures var s, db, working, healthy := old(Current()), old(DbOf(gate)), old(Works(gate, rcptTo, lookupOk)), old(Healthy(gate));
              && env == DataEnv(prompted, body, parsed, id, KeepFor(old(ActiveDb(gate)), s.rcptTo, lookupOk),
                                VerdictOf(db, working, Via(), id, answer, disk))
              && Result(Current(), replies, false, sent) == DataStep(listener, s, env)
              && DbOf(gate) == DataDb(listener, s, env, Via(), db, working, answer, recordAt, outcomeAt, disk)
              && Healthy(gate) == DataHealthy(listener, s, env, Via(), db, healthy, working, answer, disk)
              && (ReachesDelivery(listener, s, env) && IsNew(db, id) ==>
                    (replies == [354, 250] <==> sent.None? || answer.Took? || id in DbOf(gate).queue))
    {
      hide Refusal, BuildMessage, Remaining, KeepFor, ActiveDb, VerdictOf, Forwarded, StaysWorking, DataStep, DataDb, DataHealthy, Undelivered, ReachesDelivery, IsNew;
      env := DataEnv(prompted, body, parsed, id, KeepFor(ActiveDb(gate), rcptTo, lookupOk),
                     VerdictOf(DbOf(gate), Works(gate, rcptTo, lookupOk), Via(), id, answer, disk));
      DataCases(listener, Current(), env, Via(), DbOf(gate), Healthy(gate), Works(gate, rcptTo, lookupOk),
                answer, recordAt, outcomeAt, disk);
      sent := None;
      var ready;
      replies, ready := Receive(prompted, body, parsed, env);
      if !ready { return; }
      var verdict;
      var msg := BuildMessage(listener, Current(), parsed.value, id);
      sent, verdict := Forward(msg, lookupOk, answer, recordAt, outcomeAt, disk);
      ResetTransaction();
      replies := [354, if sent.Some? && verdict.NotSent? then 451 else 250];
    }

    /** The prompt, and the message up to the point where it is accepted for delivery. */
    method Receive(prompted: bool, body: Option<string>, parsed: Option<Parsed>, ghost env: DataEnv) returns (replies: seq<int>, ready: bool)
      requires env.prompted == prompted && env.body == body && env.parsed == parsed
      modifies this`mailFrom, this`rcptTo, this`transaction
      ensures ready <==> ReachesDelivery(listener, old(Current()), env)
      ensures ready ==> Current() == old(Current()) && parsed.Some?
      ensures !ready ==> Result(Current(), replies, false, None) == Undelivered(listener, old(Current()), env)
    {
      hide Refusal;
      if !transaction { return [503], false; }
      if rcptTo == [] { return [503], false; }
      if !prompted { return [], false; }
      if body.None? {
        ResetTransaction();
        return [354, 451], false;
      }
      var code := Examine(body.value, parsed);
      if code != 0 {
        ResetTransaction();
        return [354, code], false;
      }
      return [354], true;
    }

    /** The refusal a message that has been read earns by itself, or zero. */
    method Examine(body: string, parsed: Option<Parsed>) returns (code: int)
      ensures code == Refusal(listener, body, parsed)
    {
      hide ReadLimited, AllFit;
      var read := ReadLimited(body, listener.maxBody);
      if listener.maxBody > 0 && |read| > listener.maxBody { return 552; }
      if parsed.None? { return 550; }
      var headers := CopyHeaders(parsed.value.header, listener.passthrough);
      if headers.None? { return 554; }
      return 0;
    }

    function Via(): Ingress {
      Smtp(name, transport, remoteIP)
    }

    /** Drop the suppressed recipients and deliver to the rest, if any is left. */
    method Forward(msg: Message, lookupOk: nat -> bool, answer: SendResult, recordAt: int, outcomeAt: int, disk: Disk)
      returns (sent: Option<Message>, verdict: Verdict)
      requires msg.to == rcptTo
      modifies gate, if gate == null then {} else {gate.store}
      ensures var to := Remaining(rcptTo, KeepFor(old(ActiveDb(gate)), rcptTo, lookupOk));
              && sent == (if to == [] then None else Some(msg.(to := to)))
              && DbOf(gate) == old(if Works(gate, rcptTo, lookupOk)
                                   then Forwarded(DbOf(gate), Via(), msg.(to := to), answer, recordAt, outcomeAt, disk) else DbOf(gate))
              && Healthy(gate) == old(Works(gate, rcptTo, lookupOk) && StaysWorking(DbOf(gate), Via(), msg.(to := to), answer, disk))
      ensures sent.Some? ==>
                verdict == VerdictOf(old(DbOf(gate)), old(Works(gate, rcptTo, lookupOk)), Via(), msg.submissionID, answer, disk)
    {
      hide IsSuppressed, VerdictOf, Settled, KeepFor, ActiveDb, Remaining, StaysHealthy, PreSendRow;
      var to, suppressed := FilterSuppressed(gate, rcptTo, lookupOk);
      if to == [] {
        if gate != null && gate.healthy {
          var logged := gate.store.RecordSubmission(SuppressedRow(name, transport, msg, recordAt), disk.recordOk);
          if !logged { gate.ReportError(); }
        }
        return None, NotSent("");
      }
      sent := Some(msg.(to := to));
      verdict := Deliver(gate, Via(), msg.submissionID, msg.(to := to), answer, recordAt, outcomeAt, disk);
    }
  }

  predicate IsNew(db: Db, id: Id) {
    id !in db.submissions && id !in db.queue
  }

  /** What forwarding a message, whose recipients have been checked, leaves in the tables. */
  function Forwarded(db: Db, via: Ingress, msg: Message, answer: SendResult, recordAt: int, outcomeAt: int, disk: Disk): Db
    requires via.Smtp?
  {
    if msg.to != [] then Settled(db, via, msg.submissionID, msg, answer, recordAt, outcomeAt, disk)
    else if Persists(db, msg.submissionID, disk) then
      InsertSubmission(db, SuppressedRow(via.listener, via.transport, msg, recordAt))
    else db
  }

  lemma QueuedIffForwarded(db: Db, working: bool, via: Ingress, msg: Message, answer: SendResult, recordAt: int, outcomeAt: int, disk: Disk)
    requires via.Smtp? && msg.to != [] && IsNew(db, msg.submissionID)
    ensures var after := if working then Forwarded(db, via, msg, answer, recordAt, outcomeAt, disk) else db;
            VerdictOf(db, working, via, msg.submissionID, answer, disk).QueuedForRetry? <==> msg.submissionID in after.queue
  {
    QueuedIffRowCommitted(db, working, via, msg.submissionID, msg, answer, recordAt, outcomeAt, disk);
    hide Settled, VerdictOf;
  }

  predicate StaysWorking(db: Db, via: Ingress, msg: Message, answer: SendResult, disk: Disk) {
    if msg.to != [] then StaysHealthy(db, via, msg.submissionID, answer, disk) else Persists(db, msg.submissionID, disk)
  }

  /** The message has been read and is not refused. */
  predicate ReachesDelivery(l: Listener, s: State, env: DataEnv) {
    && s.transaction && s.rcptTo != [] && env.prompted && env.body.Some?
    && Refusal(l, env.body.value, env.parsed) == 0
  }

  /** The message handed to the delivery tail, its recipients already checked. */
  function Checked(l: Listener, s: State, env: DataEnv): Message
    requires env.parsed.Some?
  {
    BuildMessage(l, s, env.parsed.value, env.id).(to := Remaining(s.rcptTo, env.keep))
  }

  /** The tables after DATA. `working`: the gate is healthy after the suppression check. */
  function DataDb(l: Listener, s: State, env: DataEnv, via: Ingress, db: Db, working: bool,
                  answer: SendResult, recordAt: int, outcomeAt: int, disk: Disk): Db
    requires via.Smtp?
  {
    if ReachesDelivery(l, s, env) && working then Forwarded(db, via, Checked(l, s, env), answer, recordAt, outcomeAt, disk) else db
  }

  /** The gate after DATA. */
  predicate DataHealthy(l: Listener, s: State, env: DataEnv, via: Ingress, db: Db, healthy: bool, working: bool,
                        answer: SendResult, disk: Disk)
  {
    if ReachesDelivery(l, s, env) then working && StaysWorking(db, via, Checked(l, s, env), answer, disk) else healthy
  }

  /** How DATA ends when it does not get as far as delivery. */
  function Undelivered(l: Listener, s: State, env: DataEnv): Result {
    if !s.transaction || s.rcptTo == [] then Say(s, 503)
    else if !env.prompted then Result(s, [], false, None)
    else Result(Reset(s), [354, if env.body.None? then 451 else Refusal(l, env.body.value, env.parsed)], false, None)
  }

  /** How DATA ends before delivery, and what delivery makes of it; and for a new id, 250
      is the reply exactly when the provider accepted, the retry queue holds the message,
      or nobody is left to send to. */
  lemma DataCases(l: Listener, s: State, env: DataEnv, via: Ingress, db: Db, healthy: bool, working: bool,
                  answer: SendResult, recordAt: int, outcomeAt: int, disk: Disk)
    requires via.Smtp? && env.verdict == VerdictOf(db, working, via, env.id, answer, disk)
    ensures var r := DataStep(l, s, env);
            var after := DataDb(l, s, env, via, db, working, answer, recordAt, outcomeAt, disk);
            var alive := DataHealthy(l, s, env, via, db, healthy, working, answer, disk);
            if !ReachesDelivery(l, s, env) then
              && after == db && alive == healthy
              && r == Undelivered(l, s, env)
            else
              var msg := Checked(l, s, env);
              && after == (if working then Forwarded(db, via, msg, answer, recordAt, outcomeAt, disk) else db)
              && (alive <==> working && StaysWorking(db, via, msg, answer, disk))
              && r == Result(Reset(s), [354, if msg.to == [] || Accepts(env.verdict) then 250 else 451], false,
                             if msg.to == [] then None else Some(msg))
              && (IsNew(db, env.id) ==> (r.replies == [354, 250] <==> r.handed.None? || answer.Took? || env.id in after.queue))
  {
    if ReachesDelivery(l, s, env) && IsNew(db, env.id) && Checked(l, s, env).to != [] {
      QueuedIffForwarded(db, working, via, Checked(l, s, env), answer, recordAt, outcomeAt, disk);
    }
    hide Refusal, BuildMessage, Remaining, Forwarded, StaysWorking, VerdictOf;
  }

  /** The log entry of a submission whose recipients are all suppressed. */
  function SuppressedRow(name: string, transport: string, msg: Message, now: int): Submission {
    Submission(msg.submissionID, name, transport, msg.from, [], "", msg.subject, "", "", map[], [], [], "",
               Suppressed, "", "", Unix(now), None)
  }
}
