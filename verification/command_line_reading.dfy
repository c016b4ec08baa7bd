/** Reading a command line back. `ParseCommandLine` recognises the options
    `BuildCommandLine` emits, in the order it emits them, and returns the
    invocation they describe; `Intended` says, without any formatting, which
    invocation a profile asks for. The round-trip lemma ties the two together:
    reading the built line gives the intended invocation. */
module CommandLineReading {
  import opened Wrappers
  import opened Text
  import opened HostProfiles
  import opened SshCommandBuilder

  /** How the connection reaches its target through a jump host. The port is
      `None` when the line names none, and ssh then uses the default. */
  datatype JumpRoute =
    | ProxyThrough(key: string, user: string, host: string, port: Option<int>)  // ProxyCommand with ssh -W
    | JumpThrough(user: string, host: string, port: Option<int>)                // -J

  /** The options that precede the keep-alive settings; `port` is `None`
      when no port option is written. */
  datatype Flags = Flags(
    tty: bool,
    port: Option<int>,
    identity: Option<string>,
    agent: bool,
    policy: Option<string>)

  /** What an ssh command line asks for. */
  datatype Invocation = Invocation(
    exe: string,
    flags: Flags,
    jump: Option<JumpRoute>,
    user: string,
    host: string,
    extra: Option<string>)

  /** A port as a line should name it: only when it is not the default. */
  function OffDefault(port: int): (r: Option<int>)
    ensures r.Some? <==> port != DefaultPort
    ensures r.Some? ==> r.value == port
  {
    if port != DefaultPort then Some(port) else None
  }

  /** The route through a resolved jump host: by `ProxyCommand` when it has a
      non-empty key, by `-J` otherwise. */
  function Route(j: HostProfile): JumpRoute {
    if !IsNullOrEmpty(j.identityFile) then ProxyThrough(j.identityFile.value, j.username, j.host, OffDefault(j.port))
    else JumpThrough(j.username, j.host, OffDefault(j.port))
  }

  /** The options a profile asks for: the default port, a blank identity
      file or a blank policy counts as absent. */
  function FlagsOf(p: HostProfile): Flags {
    Flags(
      tty := p.requestTty,
      port := OffDefault(p.port),
      identity := if IsNullOrWhiteSpace(p.identityFile) then None else p.identityFile,
      agent := p.agentForwarding,
      policy := if IsBlank(p.hostKeyChecking) then None else Some(p.hostKeyChecking))
  }

  /** The invocation a profile stands for: blank extra arguments count as
      absent, and the jump host is the first profile carrying the jump-host
      id. */
  function Intended(sshExePath: string, p: HostProfile, allProfiles: Option<seq<HostProfile>>): Invocation {
    Invocation(
      exe := sshExePath,
      flags := FlagsOf(p),
      jump := match ResolveJumpHost(p, allProfiles) {
        case None => None
        case Some(j) => Some(Route(j))
      },
      user := p.username,
      host := p.host,
      extra := if IsNullOrWhiteSpace(p.extraArgs) then None else p.extraArgs)
  }

  // ---------------------------------------------------------------------
  // Quoted values
  // ---------------------------------------------------------------------

  /** Reads the inside of a quoted value up to its closing quote, turning each
      `\"` back into `"`; returns the value and what follows the closing
      quote. */
  function ReadEscaped(s: string): Option<(string, string)>
    decreases |s|
  {
    if s == [] then None
    else if s[0] == '"' then Some(([], s[1..]))
    else if s[0] == '\\' && |s| > 1 && s[1] == '"' then
      match ReadEscaped(s[2..])
      case None => None
      case Some((v, rest)) => Some(("\"" + v, rest))
    else
      match ReadEscaped(s[1..])
      case None => None
      case Some((v, rest)) => Some(([s[0]] + v, rest))
  }

  /** Reads a value written by `Quote`. */
  function ReadQuoted(s: string): Option<(string, string)> {
    if |s| > 0 && s[0] == '"' then ReadEscaped(s[1..]) else None
  }

  /** The reader turns an escaped quote back into a quote. */
  lemma ReadEscapedQuote(v: string, tail: string, rest: string)
    requires ReadEscaped(tail) == Some((v, rest))
    ensures ReadEscaped("\\\"" + tail) == Some(("\"" + v, rest))
  {
    assert ("\\\"" + tail)[2..] == tail;
  }

  /** The reader copies any other character, unless it is a backslash that
      escapes a following quote. */
  lemma ReadEscapedPlain(c: char, v: string, tail: string, rest: string)
    requires c != '"' && (c == '\\' ==> tail == [] || tail[0] != '"')
    requires ReadEscaped(tail) == Some((v, rest))
    ensures ReadEscaped([c] + tail) == Some(([c] + v, rest))
  {
    assert ([c] + tail)[1..] == tail;
  }

  /** The inductive step of `EscapeReadsBack` for a value opening with a
      quote. */
  lemma EscapeReadsBackQuote(v: string, rest: string)
    requires v != [] && v[0] == '"'
    requires ReadEscaped(Escape(v[1..]) + "\"" + rest) == Some((v[1..], rest))
    ensures ReadEscaped(Escape(v) + "\"" + rest) == Some((v, rest))
  {
    var tail := Escape(v[1..]) + "\"" + rest;
    assert Escape(v) + "\"" + rest == "\\\"" + tail;
    ReadEscapedQuote(v[1..], tail, rest);
    assert "\"" + v[1..] == v;
  }

  /** The inductive step of `EscapeReadsBack` for a value opening with any
      other character. */
  lemma EscapeReadsBackPlain(v: string, rest: string)
    requires v != [] && v[0] != '"' && v[|v| - 1] != '\\'
    requires ReadEscaped(Escape(v[1..]) + "\"" + rest) == Some((v[1..], rest))
    ensures ReadEscaped(Escape(v) + "\"" + rest) == Some((v, rest))
  {
    var w := v[1..];
    var tail := Escape(w) + "\"" + rest;
    assert Escape(v) + "\"" + rest == [v[0]] + tail;
    assert v[0] == '\\' ==> w != [] && tail[0] != '"';
    ReadEscapedPlain(v[0], w, tail, rest);
    assert [v[0]] + w == v;
  }

  /** Escaping then reading gives the value back, whatever follows the closing
      quote, as long as the value does not end with a backslash. */
  lemma {:induction false} EscapeReadsBack(v: string, rest: string)
    requires v == [] || v[|v| - 1] != '\\'
    ensures ReadEscaped(Escape(v) + "\"" + rest) == Some((v, rest))
    decreases |v|
  {
    if v == [] {
      assert Escape(v) + "\"" + rest == "\"" + rest;
    } else {
      EscapeReadsBack(v[1..], rest);
      if v[0] == '"' {
        EscapeReadsBackQuote(v, rest);
      } else {
        EscapeReadsBackPlain(v, rest);
      }
    }
  }

  /** `Quote` is read back by `ReadQuoted` for every value that does not end
      with a backslash. */
  lemma QuoteReadsBack(v: string, rest: string)
    requires v == [] || v[|v| - 1] != '\\'
    ensures ReadQuoted(Quote(v) + rest) == Some((v, rest))
  {
    EscapeReadsBack(v, rest);
    assert (Quote(v) + rest)[1..] == Escape(v) + "\"" + rest;
  }

  /** A value ending with a backslash is not read back: the backslash turns the
      closing quote into an escaped one. */
  lemma TrailingBackslashBreaksQuote()
    ensures Quote("\\") == "\"\\\""
    ensures ReadQuoted(Quote("\\")) == None
  {
    assert Escape("\\") == "\\";
  }

  // ---------------------------------------------------------------------
  // One reader per segment, in the order the builder appends them
  // ---------------------------------------------------------------------

  const PolicyOption: string := " -o StrictHostKeyChecking="

  /** The executable, written between double quotes. */
  function ReadExe(s: string): Option<(string, string)> {
    if |s| > 0 && s[0] == '"' then
      var (exe, rest) := TakeUntil(s[1..], '"');
      if rest != [] then Some((exe, rest[1..])) else None
    else None
  }

  /** A flag that carries no value. */
  function ReadFlag(s: string, flag: string): (bool, string) {
    if StartsWith(s, flag) then (true, s[|flag|..]) else (false, s)
  }

  /** ` -p <port>`; `None` for the port when the option is absent. */
  function ReadPort(s: string): Option<(Option<int>, string)> {
    if StartsWith(s, " -p ") then
      var (digits, rest) := TakeUntil(s[4..], ' ');
      match ParseInteger(digits)
      case None => None
      case Some(n) => Some((Some(n), rest))
    else Some((None, s))
  }

  /** ` -i "<identity file>"`. */
  function ReadIdentity(s: string): Option<(Option<string>, string)> {
    if StartsWith(s, " -i ") then
      match ReadQuoted(s[4..])
      case None => None
      case Some((v, rest)) => Some((Some(v), rest))
    else Some((None, s))
  }

  /** ` -o StrictHostKeyChecking=<policy>`. */
  function ReadPolicy(s: string): (Option<string>, string) {
    if StartsWith(s, PolicyOption) then
      var (v, rest) := TakeUntil(s[|PolicyOption|..], ' ');
      (Some(v), rest)
    else (None, s)
  }

  /** `host[:port]`; `None` for the port when the suffix is absent. */
  function ReadHostPort(s: string): Option<(string, Option<int>)> {
    match IndexOf(s, ':')
    case None => Some((s, None))
    case Some(k) =>
      match ParseInteger(s[k + 1..])
      case None => None
      case Some(n) => Some((s[..k], Some(n)))
  }

  /** `user@host[:port]`. */
  function ReadJumpTarget(t: string): Option<(string, string, Option<int>)> {
    match IndexOf(t, '@')
    case None => None
    case Some(i) =>
      match ReadHostPort(t[i + 1..])
      case None => None
      case Some((h, n)) => Some((t[..i], h, n))
  }

  /** The jump-host clause, in either of its two forms, or nothing. */
  function ReadJump(s: string): Option<(Option<JumpRoute>, string)> {
    if StartsWith(s, ProxyPrefix) then
      var (key, r1) := TakeUntil(s[|ProxyPrefix|..], ' ');
      if StartsWith(r1, ProxyMiddle) then
        var (target, r2) := TakeUntil(r1[|ProxyMiddle|..], '"');
        if r2 == [] then None
        else match ReadJumpTarget(target)
          case None => None
          case Some((u, h, n)) => Some((Some(ProxyThrough(key, u, h, n)), r2[1..]))
      else None
    else if StartsWith(s, " -J ") then
      var (target, rest) := TakeUntil(s[4..], ' ');
      match ReadJumpTarget(target)
      case None => None
      case Some((u, h, n)) => Some((Some(JumpThrough(u, h, n)), rest))
    else Some((None, s))
  }

  /** ` user@host`, then the extra arguments after one space, if anything
      follows. */
  function ReadTarget(s: string): Option<(string, string, Option<string>)> {
    if |s| > 0 && s[0] == ' ' then
      var (user, r1) := TakeUntil(s[1..], '@');
      if r1 == [] then None
      else
        var (host, r2) := TakeUntil(r1[1..], ' ');
        Some((user, host, if r2 == [] then None else Some(r2[1..])))
    else None
  }

  /** The options before the keep-alive settings, in their fixed order. */
  function ReadOptions(s: string): Option<(Flags, string)> {
    var (tty, s2) := ReadFlag(s, " -tt");
    var port :- ReadPort(s2);
    var identity :- ReadIdentity(port.1);
    var (agent, s5) := ReadFlag(identity.1, " -A");
    var (policy, s6) := ReadPolicy(s5);
    Some((Flags(tty, port.0, identity.0, agent, policy), s6))
  }

  /** Reads a whole command line, segment by segment in the fixed order. */
  function ParseCommandLine(s: string): Option<Invocation> {
    var exe :- ReadExe(s);
    var options :- ReadOptions(exe.1);
    if !StartsWith(options.1, KeepAlive) then None
    else
      var jump :- ReadJump(options.1[|KeepAlive|..]);
      var target :- ReadTarget(jump.1);
      Some(Invocation(exe.0, options.0, jump.0, target.0, target.1, target.2))
  }

  // ---------------------------------------------------------------------
  // Round trip
  // ---------------------------------------------------------------------

  /** A resolved jump host whose fields keep the clause unambiguous. */
  predicate JumpHostReadable(j: HostProfile) {
    && '@' !in j.username && ' ' !in j.username && '"' !in j.username
    && ' ' !in j.host && ':' !in j.host && '"' !in j.host
    && (!IsNullOrEmpty(j.identityFile) ==> ' ' !in j.identityFile.value)
  }

  /** A profile whose fields contain none of the delimiters the reader splits
      on. Profiles made by the dialog satisfy the policy condition by
      construction (the policy is one of `accept-new`, `ask`, `yes`, `no`). */
  predicate Readable(sshExePath: string, p: HostProfile, allProfiles: Option<seq<HostProfile>>) {
    && '"' !in sshExePath
    && (!IsNullOrWhiteSpace(p.identityFile) ==> !EndsWith(p.identityFile.value, "\\"))
    && ' ' !in p.hostKeyChecking
    && '@' !in p.username && ' ' !in p.username && ' ' !in p.host
    && (ResolveJumpHost(p, allProfiles).Some? ==> JumpHostReadable(ResolveJumpHost(p, allProfiles).value))
  }

  /** Regroups the builder's left-nested appends from the right. */
  lemma Reassociate(a: string, b: string, c: string, d: string, e: string, f: string, g: string, h: string,
                    i: string, k: string)
    ensures a + ((b + c + d + e + f + g) + h + i + k) == a + (b + (c + (d + (e + (f + (g + (h + (i + k))))))))
  {
  }

  lemma ReadExeStep(exe: string, t: string)
    requires '"' !in exe
    ensures ReadExe(ExeSegment(exe) + t) == Some((exe, t))
  {
    var s := ExeSegment(exe) + t;
    assert s[1..] == exe + ("\"" + t);
    TakeUntilToken(exe, "\"" + t, '"');
  }

  lemma ReadFlagStep(present: bool, flag: string, t: string)
    requires |flag| == 3 || |flag| == 4
    requires |t| >= 3 && t[2] != flag[2]
    ensures ReadFlag((if present then flag else "") + t, flag) == (present, t)
  {
    if present {
      assert (flag + t)[..|flag|] == flag;
      assert (flag + t)[|flag|..] == t;
    } else {
      assert "" + t == t;
    }
  }

  /** `ReadPort` on any text that opens with ` -p ` and a number. */
  lemma ReadPortParts(s: string, digits: string, t: string, n: int)
    requires StartsWith(s, " -p ") && TakeUntil(s[4..], ' ') == (digits, t)
    requires ParseInteger(digits) == Some(n)
    ensures ReadPort(s) == Some((Some(n), t))
  {
  }

  /** A port option splits after ` -p ` at the space that ends its digits. */
  lemma PortOptionSplits(digits: string, t: string)
    requires ' ' !in digits
    requires t == [] || t[0] == ' '
    ensures var s := " -p " + digits + t;
            StartsWith(s, " -p ") && TakeUntil(s[4..], ' ') == (digits, t)
  {
    assert " -p " + digits + t == " -p " + (digits + t);
    PrefixThenToken(" -p ", digits, t, ' ');
  }

  /** A port option is read back as its number. */
  lemma ReadPortPresent(port: int, t: string)
    requires t == [] || t[0] == ' '
    ensures ReadPort(" -p " + IntToString(port) + t) == Some((Some(port), t))
  {
    var digits := IntToString(port);
    IntToStringHasNoDelimiter(port, ' ');
    PortOptionSplits(digits, t);
    IntToStringRoundTrip(port);
    ReadPortParts(" -p " + digits + t, digits, t, port);
  }

  /** Without a port option no port is read. */
  lemma ReadPortAbsent(t: string)
    requires |t| >= 3 && t[2] != 'p'
    ensures ReadPort(t) == Some((None, t))
  {
  }

  lemma ReadPortStep(p: HostProfile, t: string)
    requires |t| >= 3 && t[0] == ' ' && t[2] != 'p'
    ensures ReadPort(PortSegment(p) + t) == Some((OffDefault(p.port), t))
  {
    if p.port != DefaultPort {
      ReadPortPresent(p.port, t);
    } else {
      assert PortSegment(p) + t == t;
      ReadPortAbsent(t);
    }
  }

  lemma ReadIdentityStep(p: HostProfile, t: string)
    requires !IsNullOrWhiteSpace(p.identityFile) ==> !EndsWith(p.identityFile.value, "\\")
    requires |t| >= 3 && t[2] != 'i'
    ensures ReadIdentity(IdentitySegment(p) + t)
         == Some((if IsNullOrWhiteSpace(p.identityFile) then None else p.identityFile, t))
  {
    if !IsNullOrWhiteSpace(p.identityFile) {
      var v := p.identityFile.value;
      var s := IdentitySegment(p) + t;
      assert s == " -i " + (Quote(v) + t);
      assert s[4..] == Quote(v) + t;
      QuoteReadsBack(v, t);
    } else {
      assert IdentitySegment(p) + t == t;
    }
  }

  lemma ReadPolicyStep(p: HostProfile, t: string)
    requires ' ' !in p.hostKeyChecking
    requires StartsWith(t, KeepAlive)
    ensures ReadPolicy(PolicySegment(p) + t)
         == (if IsBlank(p.hostKeyChecking) then None else Some(p.hostKeyChecking), t)
  {
    if !IsBlank(p.hostKeyChecking) {
      var s := PolicySegment(p) + t;
      assert s == PolicyOption + (p.hostKeyChecking + t);
      assert s[..|PolicyOption|] == PolicyOption;
      assert s[|PolicyOption|..] == p.hostKeyChecking + t;
      KeepAliveLead();
      assert t[0] == t[..|KeepAlive|][0];
      TakeUntilToken(p.hostKeyChecking, t, ' ');
    } else {
      assert PolicySegment(p) + t == t;
      KeepAliveLead();
      assert t[5] == t[..|KeepAlive|][5] == 'e';
      assert PolicyOption[5] == 't';
    }
  }

  /** The target segment never looks like a jump-host clause, because both
      clauses have a space where the user name (free of spaces) or its `@`
      stands. */
  lemma TargetIsNotJumpClause(p: HostProfile)
    requires ' ' !in p.username
    ensures !StartsWith(TargetSegment(p) + ExtraSegment(p), ProxyPrefix)
    ensures !StartsWith(TargetSegment(p) + ExtraSegment(p), " -J ")
  {
    var s := TargetSegment(p) + ExtraSegment(p);
    assert s == " " + (p.username + ("@" + p.host + ExtraSegment(p)));
    var u := p.username;
    if |u| >= 3 {
      assert s[3] == u[2];
    } else if |u| == 2 {
      assert s[3] == '@';
    } else if |u| == 1 {
      assert s[2] == '@';
    } else {
      assert s[1] == '@';
    }
  }

  /** A text split at the first occurrence of `c`, which the part before it
      does not contain. */
  lemma SplitsAtFirst(before: string, c: char, after: string)
    requires c !in before
    ensures var s := before + [c] + after;
            IndexOf(s, c) == Some(|before|) && s[..|before|] == before && s[|before| + 1..] == after
  {
    var s := before + [c] + after;
    assert s[..|before|] == before;
    IndexOfFirst(s, c, |before|);
    assert s[|before| + 1..] == after;
  }

  /** The `host[:port]` part of a jump target reads back as its host, and
      as its port exactly when that is not the default. */
  lemma HostPortReadsBack(host: string, port: int)
    requires ':' !in host
    ensures ReadHostPort(host + PortSuffix(port)) == Some((host, OffDefault(port)))
  {
    if port != DefaultPort {
      var digits := IntToString(port);
      assert host + PortSuffix(port) == host + [':'] + digits;
      SplitsAtFirst(host, ':', digits);
      IntToStringRoundTrip(port);
    } else {
      assert host + PortSuffix(port) == host;
    }
  }

  /** `user@host[:port]` reads back as its user when the user has no `@`. */
  lemma ReadUserAt(user: string, hostPort: string, host: string, port: Option<int>)
    requires '@' !in user
    requires ReadHostPort(hostPort) == Some((host, port))
    ensures ReadJumpTarget(user + ['@'] + hostPort) == Some((user, host, port))
  {
    SplitsAtFirst(user, '@', hostPort);
  }

  /** A jump target is its user, an `@`, and its `host[:port]` part. */
  lemma JumpTargetShape(j: HostProfile)
    ensures JumpTarget(j) == j.username + ['@'] + (j.host + PortSuffix(j.port))
  {
  }

  lemma ReadJumpTargetStep(j: HostProfile)
    requires '@' !in j.username && ':' !in j.host
    ensures ReadJumpTarget(JumpTarget(j)) == Some((j.username, j.host, OffDefault(j.port)))
  {
    HostPortReadsBack(j.host, j.port);
    ReadUserAt(j.username, j.host + PortSuffix(j.port), j.host, OffDefault(j.port));
    JumpTargetShape(j);
  }

  lemma JumpTargetHasNo(j: HostProfile, c: char)
    requires c == ' ' || c == '"'
    requires c !in j.username && c !in j.host
    ensures c !in JumpTarget(j)
  {
    IntToStringHasNoDelimiter(j.port, c);
  }

  /** Regroups a `ProxyCommand` clause and what follows it from the right. */
  lemma Nest(a: string, b: string, c: string, d: string, e: string, f: string)
    ensures a + b + c + d + e + f == a + (b + (c + (d + (e + f))))
  {
  }

  /** `ReadJump` on any text laid out as a `ProxyCommand` clause. */
  lemma ReadProxyParts(s: string, key: string, r1: string, target: string, t: string, u: string, h: string, n: Option<int>)
    requires StartsWith(s, ProxyPrefix) && TakeUntil(s[|ProxyPrefix|..], ' ') == (key, r1)
    requires StartsWith(r1, ProxyMiddle) && TakeUntil(r1[|ProxyMiddle|..], '"') == (target, "\"" + t)
    requires ReadJumpTarget(target) == Some((u, h, n))
    ensures ReadJump(s) == Some((Some(ProxyThrough(key, u, h, n)), t))
  {
    assert ("\"" + t)[1..] == t;
  }

  lemma ReadProxyStep(j: HostProfile, t: string)
    requires JumpHostReadable(j) && !IsNullOrEmpty(j.identityFile)
    requires |t| > 0 && t[0] == ' '
    ensures ReadJump(ProxyClause(j) + t) == Some((Some(Route(j)), t))
  {
    var key := j.identityFile.value;
    var target := JumpTarget(j);
    var tail := "\"" + t;
    var r1 := ProxyMiddle + (target + tail);
    Nest(ProxyPrefix, key, ProxyMiddle, target, "\"", t);
    assert r1[0] == ' ';
    PrefixThenToken(ProxyPrefix, key, r1, ' ');
    JumpTargetHasNo(j, '"');
    PrefixThenToken(ProxyMiddle, target, tail, '"');
    ReadJumpTargetStep(j);
    ReadProxyParts(ProxyPrefix + (key + r1), key, r1, target, t, j.username, j.host, OffDefault(j.port));
  }

  /** `ReadJump` on any text laid out as a `-J` clause. */
  lemma ReadDirectParts(s: string, target: string, t: string, u: string, h: string, n: Option<int>)
    requires !StartsWith(s, ProxyPrefix)
    requires StartsWith(s, " -J ") && TakeUntil(s[4..], ' ') == (target, t)
    requires ReadJumpTarget(target) == Some((u, h, n))
    ensures ReadJump(s) == Some((Some(JumpThrough(u, h, n)), t))
  {
  }

  lemma ReadDirectStep(j: HostProfile, t: string)
    requires JumpHostReadable(j) && IsNullOrEmpty(j.identityFile)
    requires |t| > 0 && t[0] == ' '
    ensures ReadJump(DirectClause(j) + t) == Some((Some(Route(j)), t))
  {
    var target := JumpTarget(j);
    var s := " -J " + (target + t);
    assert DirectClause(j) + t == s;
    JumpTargetHasNo(j, ' ');
    PrefixThenToken(" -J ", target, t, ' ');
    assert !StartsWith(s, ProxyPrefix) by {
      assert s[2] == 'J' && ProxyPrefix[2] == 'o';
    }
    ReadJumpTargetStep(j);
    ReadDirectParts(s, target, t, j.username, j.host, OffDefault(j.port));
  }

  lemma ReadJumpStep(p: HostProfile, allProfiles: Option<seq<HostProfile>>)
    requires ' ' !in p.username
    requires ResolveJumpHost(p, allProfiles).Some? ==> JumpHostReadable(ResolveJumpHost(p, allProfiles).value)
    ensures ReadJump(JumpClause(p, allProfiles) + (TargetSegment(p) + ExtraSegment(p)))
         == Some((Intended("", p, allProfiles).jump, TargetSegment(p) + ExtraSegment(p)))
  {
    var t := TargetSegment(p) + ExtraSegment(p);
    assert t[0] == ' ';
    match ResolveJumpHost(p, allProfiles)
    case None =>
      TargetIsNotJumpClause(p);
      assert JumpClause(p, allProfiles) + t == t;
    case Some(j) =>
      if !IsNullOrEmpty(j.identityFile) {
        ReadProxyStep(j, t);
      } else {
        ReadDirectStep(j, t);
      }
  }

  /** A segment that is empty or opens with ` -c` keeps the lead of what
      follows it, or puts its own option letter `c` in front. */
  lemma SegmentLead(segment: string, c: char, t: string)
    requires segment == [] || (|segment| >= 3 && segment[0] == ' ' && segment[1] == '-' && segment[2] == c)
    requires |t| >= 3 && t[0] == ' ' && t[1] == '-'
    ensures |segment + t| >= 3 && (segment + t)[0] == ' ' && (segment + t)[1] == '-'
    ensures (segment + t)[2] == (if segment == [] then t[2] else c)
  {
  }

  lemma ReadOptionsStep(p: HostProfile, t: string)
    requires !IsNullOrWhiteSpace(p.identityFile) ==> !EndsWith(p.identityFile.value, "\\")
    requires ' ' !in p.hostKeyChecking
    requires StartsWith(t, KeepAlive)
    ensures ReadOptions(TtySegment(p) + (PortSegment(p) + (IdentitySegment(p) + (AgentSegment(p) + (PolicySegment(p) + t)))))
         == Some((FlagsOf(p), t))
  {
    KeepAliveLead();
    assert t[..|KeepAlive|][0] == ' ' && t[..|KeepAlive|][1] == '-' && t[..|KeepAlive|][2] == 'o';
    var t5 := PolicySegment(p) + t;
    SegmentLead(PolicySegment(p), 'o', t);
    var t4 := AgentSegment(p) + t5;
    SegmentLead(AgentSegment(p), 'A', t5);
    var t3 := IdentitySegment(p) + t4;
    SegmentLead(IdentitySegment(p), 'i', t4);
    var t2 := PortSegment(p) + t3;
    SegmentLead(PortSegment(p), 'p', t3);
    ReadFlagStep(p.requestTty, " -tt", t2);
    ReadPortStep(p, t3);
    ReadIdentityStep(p, t4);
    ReadFlagStep(p.agentForwarding, " -A", t5);
    ReadPolicyStep(p, t);
  }

  lemma ReadTargetStep(p: HostProfile)
    requires '@' !in p.username && ' ' !in p.host
    ensures ReadTarget(TargetSegment(p) + ExtraSegment(p))
         == Some((p.username, p.host, if IsNullOrWhiteSpace(p.extraArgs) then None else p.extraArgs))
  {
    var e := ExtraSegment(p);
    var s := TargetSegment(p) + e;
    assert s[1..] == p.username + ("@" + (p.host + e));
    TakeUntilToken(p.username, "@" + (p.host + e), '@');
    assert ("@" + (p.host + e))[1..] == p.host + e;
    assert e == [] || e[0] == ' ';
    TakeUntilToken(p.host, e, ' ');
    if e != [] {
      assert e[1..] == p.extraArgs.value;
    }
  }

  /** Reading a built command line gives back the invocation the profile
      stands for: the executable; `-tt` exactly when a TTY is requested; the
      port exactly when it is not 22; the identity file exactly when it is not blank; `-A` exactly when
      agent forwarding is on; the host-key policy exactly when it is not
      blank; the keep-alive options; the jump route through the first profile
      with the jump-host id, by `ProxyCommand` when that host has a key and by
      `-J` otherwise, naming its port exactly when that is not 22; the `user@host` target; and the extra arguments exactly
      when they are not blank. Since the reader takes the segments in one
      fixed order, it also shows that the builder emits them in that order. */
  lemma CommandLineReadsBack(sshExePath: string, p: HostProfile, allProfiles: Option<seq<HostProfile>>)
    requires Readable(sshExePath, p, allProfiles)
    ensures ParseCommandLine(BuildCommandLine(sshExePath, p, allProfiles)) == Some(Intended(sshExePath, p, allProfiles))
  {
    var t8 := TargetSegment(p) + ExtraSegment(p);
    var t7 := JumpClause(p, allProfiles) + t8;
    var t6 := KeepAlive + t7;
    var t1 := TtySegment(p) + (PortSegment(p) + (IdentitySegment(p) + (AgentSegment(p) + (PolicySegment(p) + t6))));
    Reassociate(ExeSegment(sshExePath), TtySegment(p), PortSegment(p), IdentitySegment(p), AgentSegment(p),
                PolicySegment(p), KeepAlive, JumpClause(p, allProfiles), TargetSegment(p), ExtraSegment(p));
    assert BuildCommandLine(sshExePath, p, allProfiles) == ExeSegment(sshExePath) + t1;
    assert t6[..|KeepAlive|] == KeepAlive;
    assert t6[|KeepAlive|..] == t7;
    ReadExeStep(sshExePath, t1);
    ReadOptionsStep(p, t6);
    ReadJumpStep(p, allProfiles);
    ReadTargetStep(p);
  }
  /** The built line names the profile's port exactly when it is not 22, and
      the jump host's port exactly when that is not 22. */
  lemma PortWrittenOnlyOffDefault(sshExePath: string, p: HostProfile, allProfiles: Option<seq<HostProfile>>)
    requires Readable(sshExePath, p, allProfiles)
    ensures var inv := ParseCommandLine(BuildCommandLine(sshExePath, p, allProfiles));
            && inv.Some?
            && (inv.value.flags.port.Some? <==> p.port != DefaultPort)
            && (inv.value.flags.port.Some? ==> inv.value.flags.port.value == p.port)
            && (inv.value.jump.Some? <==> ResolveJumpHost(p, allProfiles).Some?)
            && (inv.value.jump.Some? ==>
                  var j := ResolveJumpHost(p, allProfiles).value;
                  (inv.value.jump.value.port.Some? <==> j.port != DefaultPort)
                  && (inv.value.jump.value.port.Some? ==> inv.value.jump.value.port.value == j.port))
  {
    CommandLineReadsBack(sshExePath, p, allProfiles);
  }

  /** A written ` -p 22` is told apart from no port option at all. */
  lemma ExplicitDefaultPortIsRead()
    ensures ReadPort(" -p 22" + KeepAlive) == Some((Some(22), KeepAlive))
    ensures ReadPort(KeepAlive) == Some((None, KeepAlive))
  {
    KeepAliveLead();
    assert IntToString(22) == "22";
    assert " -p " + IntToString(22) + KeepAlive == " -p 22" + KeepAlive;
    ReadPortPresent(22, KeepAlive);
  }
}
