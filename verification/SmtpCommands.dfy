/**
 What a client's commands mean: how a line is read, and what each command answers and
 leaves of the session.
 */
module SmtpCommands {
  import opened Basics
  import opened Mail
  import opened Text
  import opened Headers
  import opened Transport
  import opened Delivery
  import opened SmtpConfig
  import opened SmtpSession

  // ---- the command line -----------------------------------------------------

  /** The word is the name in any case; the dotless i and the long s count as letters whose
      capitals are I and S. */
  predicate Spells(word: string, name: string) {
    |word| == |name| && forall i :: 0 <= i < |name| ==>
      || word[i] == name[i]
      || word[i] as int == name[i] as int + 32
      || (name[i] == 'I' && word[i] == '\U{131}')
      || (name[i] == 'S' && word[i] == '\U{17F}')
  }

  predicate IsCapitals(name: string) {
    forall i :: 0 <= i < |name| ==> 'A' <= name[i] <= 'Z'
  }

  /** The name under which a command is known. */
  function Name(verb: Verb): string
    requires verb != Unrecognized
  {
    match verb
    case EHLO => "EHLO" case HELO => "HELO" case STARTTLS => "STARTTLS" case AUTH => "AUTH" case MAIL => "MAIL"
    case RCPT => "RCPT" case DATA => "DATA" case RSET => "RSET" case NOOP => "NOOP" case QUIT => "QUIT"
  }

  lemma SpelledUpper(word: string, name: string)
    requires IsCapitals(name)
    ensures Upper(word) == name <==> Spells(word, name)
  {
    if Upper(word) == name {
      forall i | 0 <= i < |name| ensures UpperAny(word[i]) == name[i] {
        assert Upper(word)[i] == name[i];
      }
    }
  }

  /** A command is recognized exactly by its name in any letter case. */
  lemma VerbsIgnoreCase(word: string, verb: Verb)
    requires verb != Unrecognized
    ensures VerbOf(word) == verb <==> Spells(word, Name(verb))
  {
    hide Upper, Spells;
    assert IsCapitals(Name(verb));
    SpelledUpper(word, Name(verb));
  }

  /** A word that is no command's name is answered 500 and changes nothing. */
  lemma OtherWordsAreRefused(l: Listener, s: State, input: Input)
    requires forall verb :: verb != Unrecognized ==> !Spells(SplitCommand(input.line).0, Name(verb))
    ensures Step(l, s, input) == Result(s, [500], false, None)
  {
    hide VerbOf, Spells, Name, SplitCommand, StartTlsStep, AuthStep, MailStep, RcptStep, DataStep;
    var verb := VerbOf(SplitCommand(input.line).0);
    if verb != Unrecognized { VerbsIgnoreCase(SplitCommand(input.line).0, verb); }
  }

  /** The argument is what stands behind the first blank; without a blank there is none. */
  lemma LineReads(word: string, arg: string)
    requires ' ' !in word
    ensures SplitCommand(word + " " + arg) == (word, arg)
    ensures SplitCommand(word) == (word, "")
  {
    hide IndexOf;
    var line := word + " " + arg;
    FirstIndex(line, ' ', |word|);
    assert line[..|word|] == word && line[|word| + 1..] == arg;
  }

  // ---- the envelope address -------------------------------------------------

  /** The argument is the prefix in any case, blanks, and an address in angle brackets;
      anything may follow. */
  ghost predicate Bracketed(arg: string, prefix: string, addr: string) {
    && |prefix| <= |arg| && SameText(arg[..|prefix|], prefix)
    && '>' !in addr
    && exists gap, rest :: IsGap(gap) && arg[|prefix|..] == gap + ("<" + addr + ">" + rest)
  }

  predicate IsGap(s: string) {
    forall i :: 0 <= i < |s| ==> IsSpace(s[i])
  }

  lemma {:induction false} TrimLeftSkips(gap: string, s: string)
    requires IsGap(gap) && (s == [] || !IsSpace(s[0]))
    ensures TrimLeft(gap + s) == s
  {
    hide IsSpace;
    if gap == [] {
      assert gap + s == s;
    } else {
      assert (gap + s)[0] == gap[0] && (gap + s)[1..] == gap[1..] + s;
      TrimLeftSkips(gap[1..], s);
    }
  }

  lemma {:induction false} TrimRightKeeps(s: string, n: nat)
    requires 0 < n <= |s| && !IsSpace(s[n - 1])
    ensures n <= |TrimRight(s)| && TrimRight(s)[..n] == s[..n]
  {
    hide IsSpace;
    if IsSpace(s[|s| - 1]) {
      TrimRightKeeps(s[..|s| - 1], n);
      assert s[..|s| - 1][..n] == s[..n];
    }
  }

  /** The address is read exactly from arguments of that form, and empty otherwise. */
  lemma AddressIsBracketed(arg: string, prefix: string, addr: string)
    requires addr != ""
    ensures EnvelopeAddress(arg, prefix) == addr <==> Bracketed(arg, prefix, addr)
  {
    hide EnvelopeAddress, Bracketed;
    if EnvelopeAddress(arg, prefix) == addr { AddressGivesBrackets(arg, prefix); }
    if Bracketed(arg, prefix, addr) { BracketsGiveAddress(arg, prefix, addr); }
  }

  lemma BracketsGiveAddress(arg: string, prefix: string, addr: string)
    requires Bracketed(arg, prefix, addr)
    ensures EnvelopeAddress(arg, prefix) == addr
  {
    EqualFoldIffSame(arg[..|prefix|], prefix);
    hide TrimSpace, EqualFold, SameText, IsGap;
    var gap, rest :| IsGap(gap) && arg[|prefix|..] == gap + ("<" + addr + ">" + rest);
    TrimmedTail(gap, addr, rest);
    AddressEnds(TrimSpace(arg[|prefix|..]), addr);
  }

  lemma AddressEnds(t: string, addr: string)
    requires |t| >= |addr| + 2 && t[0] == '<' && t[1..|addr| + 1] == addr && t[|addr| + 1] == '>' && '>' !in addr
    ensures IndexOf(t, '>') == |addr| + 1
  {
    hide IndexOf;
    forall j | 0 <= j < |addr| + 1 ensures t[j] != '>' {
      if j > 0 { assert t[j] == t[1..|addr| + 1][j - 1] && addr[j - 1] in addr; }
    }
    FirstIndex(t, '>', |addr| + 1);
  }

  lemma AddressGivesBrackets(arg: string, prefix: string)
    requires EnvelopeAddress(arg, prefix) != ""
    ensures Bracketed(arg, prefix, EnvelopeAddress(arg, prefix))
  {
    EqualFoldIffSame(arg[..|prefix|], prefix);
    hide EqualFold, SameText, IsSpace, TrimSpace, IsGap;
    var addr, tail := EnvelopeAddress(arg, prefix), arg[|prefix|..];
    var gap, more := TrimParts(tail);
    var rest := BracketParts(TrimSpace(tail));
    Regroup(gap, "<" + addr + ">", rest, more);
  }

  lemma TrimParts(s: string) returns (gap: string, more: string)
    ensures IsGap(gap) && s == gap + TrimSpace(s) + more
  {
    hide IsSpace, TrimLeft, TrimRight;
    var left := TrimLeft(s);
    gap, more := s[..|s| - |left|], left[|TrimRight(left)|..];
    assert s == gap + left && left == TrimRight(left) + more;
    assert gap + (TrimRight(left) + more) == gap + TrimRight(left) + more;
  }

  lemma BracketParts(t: string) returns (rest: string)
    requires t != [] && t[0] == '<' && IndexOf(t, '>') < |t|
    ensures var addr := t[1..IndexOf(t, '>')]; t == "<" + addr + ">" + rest && '>' !in addr
  {
    var end := IndexOf(t, '>');
    rest := t[end + 1..];
    var addr := t[1..end];
    forall k | 0 <= k < |addr| ensures addr[k] != '>' {
      assert t[..end][k + 1] == addr[k] && t[..end][k + 1] in t[..end];
    }
    hide IndexOf;
    assert t == "<" + addr + ">" + rest;
  }

  lemma Regroup(a: string, b: string, c: string, d: string)
    ensures a + (b + c) + d == a + (b + (c + d))
  {
  }

  lemma TrimmedTail(gap: string, addr: string, rest: string)
    requires IsGap(gap)
    ensures var t := TrimSpace(gap + ("<" + addr + ">" + rest));
            |t| >= |addr| + 2 && t[0] == '<' && t[1..|addr| + 1] == addr && t[|addr| + 1] == '>'
  {
    hide IsSpace, IsGap, TrimLeft, TrimRight;
    BracketsAreNoSpace();
    var s := "<" + addr + ">" + rest;
    TrimLeftSkips(gap, s);
    assert s[|addr| + 1] == '>';
    TrimRightKeeps(s, |addr| + 2);
    FrontAgrees(s, TrimRight(s), addr, rest);
  }

  lemma FrontAgrees(s: string, t: string, addr: string, rest: string)
    requires s == "<" + addr + ">" + rest && |addr| + 2 <= |t| && t[..|addr| + 2] == s[..|addr| + 2]
    ensures t[0] == '<' && t[1..|addr| + 1] == addr && t[|addr| + 1] == '>'
  {
    var n := |addr| + 2;
    assert t[0] == t[..n][0] == s[..n][0] && t[n - 1] == t[..n][n - 1] == s[..n][n - 1];
    assert t[1..n - 1] == t[..n][1..n - 1] && s[1..n - 1] == s[..n][1..n - 1] == addr;
  }

  // ---- the allowlist --------------------------------------------------------

  /** A star admits everyone, an address itself, and "*@" everyone at the domain after it. */
  lemma EntryAdmits(entry: string, addr: string)
    ensures EntryMatches(entry, addr) <==>
            || entry == "*"
            || entry == addr
            || exists local, domain :: '@' !in local && addr == local + "@" + domain && entry == "*@" + domain
  {
    hide IndexOf;
    if HasPrefix(entry, "*@") && IndexOf(addr, '@') < |addr| && addr[IndexOf(addr, '@') + 1..] == entry[2..] {
      CutAt(addr, '@');
      assert entry == "*@" + entry[2..];
    }
    forall local, domain | '@' !in local && addr == local + "@" + domain && entry == "*@" + domain
      ensures EntryMatches(entry, addr)
    {
      DomainIsAdmitted(local, domain);
    }
  }

  lemma CutAt(s: string, c: char)
    requires IndexOf(s, c) < |s|
    ensures var i := IndexOf(s, c); s == s[..i] + [c] + s[i + 1..] && c !in s[..i]
  {
    hide IndexOf;
  }

  lemma DomainIsAdmitted(local: string, domain: string)
    requires '@' !in local
    ensures EntryMatches("*@" + domain, local + "@" + domain)
  {
    hide IndexOf;
    var addr := local + "@" + domain;
    assert addr[|local|] == '@';
    FirstIndex(addr, '@', |local|);
    assert addr[|local| + 1..] == domain == ("*@" + domain)[2..];
    assert ("*@" + domain)[..2] == "*@";
  }

  // ---- AUTH -----------------------------------------------------------------

  /** The credentials are the two fields after the first NUL, the second of which takes the rest. */
  lemma PlainIsSplit(raw: string, user: string, pass: string)
    ensures SplitPlain(raw) == Some(Credentials(user, pass))
            <==> exists authzid :: '\0' !in authzid && '\0' !in user && raw == authzid + "\0" + (user + "\0" + pass)
  {
    hide IndexOf;
    if SplitPlain(raw) == Some(Credentials(user, pass)) {
      var rest := raw[IndexOf(raw, '\0') + 1..];
      CutAt(raw, '\0');
      CutAt(rest, '\0');
      assert rest == user + "\0" + pass;
    }
    forall authzid | '\0' !in authzid && '\0' !in user && raw == authzid + "\0" + (user + "\0" + pass)
      ensures SplitPlain(raw) == Some(Credentials(user, pass))
    {
      PlainReadsBack(authzid, user, pass);
    }
  }

  /** The base64 text reaches the server: behind the mechanism's name, or on a line of its
      own after the prompt. */
  ghost predicate Sends(arg: string, env: Env, text: string, prompted: bool) {
    if prompted then SameText(arg, "PLAIN") && env.continuation == Some(text)
    else |arg| > 6 && SameText(arg[..5], "PLAIN") && arg[5] == ' ' && arg[6..] == text && !IsSpace(text[0]) && !IsSpace(text[|text| - 1])
  }

  /** AUTH PLAIN where it may be used: 235 exactly if the credentials are well-formed and
      those of a configured user, who is then logged in; 535 otherwise, or 421 and the end
      of the session if the client's attempts are used up, and nobody is logged in anew. */
  lemma AuthAnswers(cfg: ListenerConfig, s: State, arg: string, env: Env, text: string, prompted: bool)
    requires (cfg.requireTLS ==> s.tlsActive) && (cfg.authRequired == Unset || cfg.authRequired == AuthSMTP || cfg.authRequired == AuthEither)
    requires Sends(arg, env, text, prompted)
    ensures var r, raw := AuthStep(cfg, s, arg, env), env.decode(text);
            var asked := if prompted then [334] else [];
            && (forall user, pass :: raw.Some? && SplitPlain(raw.value) == Some(Credentials(user, pass)) && User(user, pass) in cfg.users ==>
                  r == Result(s.(authedUser := user), asked + [235], false, None))
            && ((raw.None? || SplitPlain(raw.value).None?
                 || User(SplitPlain(raw.value).value.user, SplitPlain(raw.value).value.pass) !in cfg.users) ==>
                  r == Result(s, asked + (if env.budgetLeft then [535] else [421]), !env.budgetLeft, None))
  {
    hide TrimSpace, SplitPlain, IsSpace;
    PayloadIs(arg, env, text, prompted);
  }

  lemma PayloadIs(arg: string, env: Env, text: string, prompted: bool)
    requires Sends(arg, env, text, prompted)
    ensures IsPlain(arg) && AuthPayload(arg, env.continuation) == Some(text)
    ensures TrimSpace(arg[5..]) == [] <==> prompted
  {
    hide IsSpace;
    if prompted {
      assert arg[..5] == arg && arg[5..] == [];
    } else {
      assert arg[5..] == " " + text;
      InlineText(text);
      hide TrimSpace;
    }
  }

  lemma InlineText(text: string)
    requires text != [] && !IsSpace(text[0]) && !IsSpace(text[|text| - 1])
    ensures TrimSpace(" " + text) == text
  {
    assert IsSpace(' ') by { BlankIsSpace(); }
    hide IsSpace;
    TrimLeftSkips(" ", text);
    hide TrimLeft;
  }

  lemma BlankIsSpace()
    ensures IsSpace(' ')
  {
  }

  /** Where AUTH is refused outright: without the TLS that is required, where passwords are
      not taken, and for any other mechanism. A client that says nothing after the prompt
      gets no answer. Nothing changes. */
  lemma AuthIsRefused(cfg: ListenerConfig, s: State, arg: string, env: Env)
    ensures var r := AuthStep(cfg, s, arg, env);
            var takes := cfg.authRequired == Unset || cfg.authRequired == AuthSMTP || cfg.authRequired == AuthEither;
            var plain := |arg| >= 5 && SameText(arg[..5], "PLAIN");
            if cfg.requireTLS && !s.tlsActive then r == Result(s, [530], false, None)
            else if !takes then r == Result(s, [502], false, None)
            else if !plain then r == Result(s, [504], false, None)
            else TrimSpace(arg[5..]) == [] && env.continuation.None? ==> r == Result(s, [334], false, None)
  {
    if |arg| >= 5 { EqualFoldIffSame(arg[..5], "PLAIN"); }
    hide TrimSpace, SplitPlain, EqualFold, SameText, KnownUser;
  }

  // ---- the transaction ------------------------------------------------------

  /** What authentication a listener asks for, and whether the session has it. */
  predicate HasAuth(cfg: ListenerConfig, s: State) {
    match cfg.authRequired
    case Unset => s.authedUser != ""
    case AuthSMTP => s.authedUser != ""
    case AuthClientCert => s.authedViaCert
    case AuthEither => s.authedUser != "" || s.authedViaCert
    case AuthNone => true
    case OtherMode(_) => s.authedUser != "" || s.authedViaCert
  }

  lemma AuthMissingIff(cfg: ListenerConfig, s: State)
    ensures AuthMissing(cfg, s) <==> !HasAuth(cfg, s)
  {
  }

  /** MAIL opens a transaction with the address it names, and forgets an earlier one, exactly
      under TLS and authentication as configured and for an address on the sender list. */
  lemma MailAnswers(cfg: ListenerConfig, s: State, arg: string, addr: string)
    requires addr != "" && Bracketed(arg, "FROM:", addr)
    ensures MailStep(cfg, s, arg)
            == if (cfg.requireTLS && !s.tlsActive) || !HasAuth(cfg, s) then Result(s, [530], false, None)
               else if !Listed(addr, cfg.allowedSenders) then Result(s, [550], false, None)
               else Result(s.(mailFrom := addr, rcptTo := [], transaction := true), [250], false, None)
  {
    hide Bracketed, Listed, EnvelopeAddress;
    AddressIsBracketed(arg, "FROM:", addr);
    AuthMissingIff(cfg, s);
  }

  /** RCPT adds the address it names, exactly within a transaction, below the cap, and for an
      address on the recipient list if there is one. The cap is checked first. */
  lemma RcptAnswers(cfg: ListenerConfig, s: State, arg: string, addr: string)
    requires addr != "" && Bracketed(arg, "TO:", addr)
    ensures var cap := EffectiveMaxRecipients(cfg);
            RcptStep(cfg, s, arg)
            == if !s.transaction then Result(s, [503], false, None)
               else if cap > 0 && |s.rcptTo| >= cap then Result(s, [452], false, None)
               else if cfg.allowedRecipients != [] && !Listed(addr, cfg.allowedRecipients) then Result(s, [550], false, None)
               else Result(s.(rcptTo := s.rcptTo + [addr]), [250], false, None)
  {
    hide Bracketed, Listed, EnvelopeAddress;
    AddressIsBracketed(arg, "TO:", addr);
  }

  /** A command without an address is refused and changes nothing. */
  lemma NoAddressIsRefused(cfg: ListenerConfig, s: State, arg: string)
    ensures (forall addr :: addr != "" ==> !Bracketed(arg, "FROM:", addr)) ==>
              MailStep(cfg, s, arg) == Result(s, if (cfg.requireTLS && !s.tlsActive) || !HasAuth(cfg, s) then [530] else [501], false, None)
    ensures (forall addr :: addr != "" ==> !Bracketed(arg, "TO:", addr)) ==>
              RcptStep(cfg, s, arg) == Result(s, if s.transaction then [501] else [503], false, None)
  {
    hide Bracketed, Listed, EnvelopeAddress;
    AuthMissingIff(cfg, s);
    var from, to := EnvelopeAddress(arg, "FROM:"), EnvelopeAddress(arg, "TO:");
    if from != "" { AddressIsBracketed(arg, "FROM:", from); }
    if to != "" { AddressIsBracketed(arg, "TO:", to); }
  }

  /** STARTTLS: refused without TLS material or when TLS is on; a failed handshake changes
      nothing; a completed one forgets the transaction and the user who logged in before,
      and remembers a verified client certificate. */
  lemma StartTlsAnswers(cfg: ListenerConfig, s: State, handshake: Handshake)
    ensures StartTlsStep(cfg, s, handshake)
            == if !(cfg.requireTLS || cfg.authRequired == AuthClientCert || cfg.authRequired == AuthEither) then Result(s, [502], false, None)
               else if s.tlsActive then Result(s, [503], false, None)
               else if handshake.HandshakeFailed? then Result(s, [220], false, None)
               else Result(State(true, "", s.authedViaCert || handshake.clientCertVerified, "", [], false), [220], false, None)
  {
  }

  /** The commands that need nothing: only RSET changes the session, and only QUIT ends it. */
  lemma PlainAnswers(l: Listener, s: State, input: Input)
    ensures var r := Step(l, s, input);
            match VerbOf(SplitCommand(input.line).0)
            case EHLO => r == Result(s, [250], false, None)
            case HELO => r == Result(s, [250], false, None)
            case NOOP => r == Result(s, [250], false, None)
            case RSET => r == Result(s.(mailFrom := "", rcptTo := [], transaction := false), [250], false, None)
            case QUIT => r == Result(s, [221], true, None)
            case AUTH => r.close ==> r.replies != [] && r.replies[|r.replies| - 1] == 421
            case _ => !r.close
  {
    hide VerbOf, SplitCommand, MailStep, RcptStep, StartTlsStep, DataStep, AuthStep;
    var (word, arg) := SplitCommand(input.line);
    if VerbOf(word) == MAIL { MailNeverCloses(l.cfg, s, arg); }
    if VerbOf(word) == RCPT { RcptNeverCloses(l.cfg, s, arg); }
    if VerbOf(word) == STARTTLS { StartTlsAnswers(l.cfg, s, input.env.handshake); }
    if VerbOf(word) == DATA { DataNeverCloses(l, s, input.env.data); }
    if VerbOf(word) == AUTH { AuthClosesWith421(l.cfg, s, arg, input.env); }
  }

  lemma MailNeverCloses(cfg: ListenerConfig, s: State, arg: string)
    ensures !MailStep(cfg, s, arg).close
  {
    hide EnvelopeAddress, Listed;
  }

  lemma RcptNeverCloses(cfg: ListenerConfig, s: State, arg: string)
    ensures !RcptStep(cfg, s, arg).close
  {
    hide EnvelopeAddress, Listed;
  }

  lemma DataNeverCloses(l: Listener, s: State, env: DataEnv)
    ensures !DataStep(l, s, env).close
  {
    hide Refusal, Remaining;
  }

  lemma AuthClosesWith421(cfg: ListenerConfig, s: State, arg: string, env: Env)
    ensures var r := AuthStep(cfg, s, arg, env); r.close ==> r.replies != [] && r.replies[|r.replies| - 1] == 421
  {
    hide TrimSpace, SplitPlain, EqualFold, KnownUser;
  }

  // ---- DATA -----------------------------------------------------------------

  /** How DATA is refused: out of order, unreadable, too big, malformed, a passthrough header
      that cannot be carried, or an upstream that takes nothing now. After the prompt the
      transaction is over. */
  lemma DataIsRefused(l: Listener, s: State, env: DataEnv)
    ensures var r, begun := DataStep(l, s, env), s.transaction && s.rcptTo != [];
            var over := s.(mailFrom := "", rcptTo := [], transaction := false);
            && (!begun ==> r == Result(s, [503], false, None))
            && (begun && !env.prompted ==> r == Result(s, [], false, None))
            && (begun && env.prompted && env.body.None? ==> r == Result(over, [354, 451], false, None))
            && (begun && env.prompted && env.body.Some? ==>
                  var tooBig := l.maxBody > 0 && |env.body.value| > l.maxBody;
                  && (tooBig ==> r == Result(over, [354, 552], false, None))
                  && (!tooBig && env.parsed.None? ==> r == Result(over, [354, 550], false, None))
                  && (!tooBig && env.parsed.Some? ==>
                        && (!AllFit(env.parsed.value.header, l.passthrough) ==> r == Result(over, [354, 554], false, None))
                        && (AllFit(env.parsed.value.header, l.passthrough) ==>
                              && r.state == over && !r.close
                              && (r.handed.Some? && env.verdict.NotSent? ==> r.replies == [354, 451])
                              && (r.handed.None? || !env.verdict.NotSent? ==> r.replies == [354, 250]))))
  {
    hide AllFit, Remaining, BuildMessage;
  }
}
