/** `SshCommandBuilder`: turns a profile, and the profile list that jump-host
    ids are resolved against, into the command line handed to `ssh.exe`.
    Each segment function below is one conditional append of the source, in
    the order the source appends them. */
module SshCommandBuilder {
  import opened Wrappers
  import opened Text
  import opened HostProfiles

  /** The keep-alive options every command line carries. */
  const KeepAlive: string := " -o ServerAliveInterval=30" + " -o ServerAliveCountMax=3"

  /** The first characters of the keep-alive options. */
  lemma KeepAliveLead()
    ensures |KeepAlive| > 5
    ensures KeepAlive[0] == ' ' && KeepAlive[1] == '-' && KeepAlive[2] == 'o' && KeepAlive[5] == 'e'
  {
  }

  /** `value.Replace("\"", "\\\"")`: every double quote gains a backslash in
      front of it; every other character is copied. */
  function Escape(value: string): (r: string)
    ensures |r| >= |value|
    ensures value == [] <==> r == []
    ensures value != [] ==> r[0] == (if value[0] == '"' then '\\' else value[0])
  {
    if value == [] then []
    else (if value[0] == '"' then "\\\"" else [value[0]]) + Escape(value[1..])
  }

  /** Escaping works character by character: the escape of a concatenation
      is the concatenation of the escapes. */
  lemma {:induction false} EscapeConcat(a: string, b: string)
    ensures Escape(a + b) == Escape(a) + Escape(b)
  {
    if a == [] {
      assert a + b == b;
    } else {
      assert (a + b)[1..] == a[1..] + b;
      EscapeConcat(a[1..], b);
    }
  }

  /** A single character escapes to itself, except a double quote, which
      becomes a backslash followed by the quote. */
  lemma EscapeChar(c: char)
    ensures Escape([c]) == if c == '"' then "\\\"" else [c]
  {
    assert [c][1..] == [];
  }

  /** The inverse of `Escape`: a backslash followed by a double quote reads
      as the quote, and every other character as itself. */
  function Unescape(s: string): (r: string)
    ensures |r| <= |s|
  {
    if s == [] then []
    else if |s| >= 2 && s[0] == '\\' && s[1] == '"' then ['"'] + Unescape(s[2..])
    else [s[0]] + Unescape(s[1..])
  }

  /** `Escape` loses nothing: every value, including one ending in a
      backslash, is recovered from its escape. */
  lemma {:induction false} UnescapeEscape(value: string)
    ensures Unescape(Escape(value)) == value
  {
    if value != [] {
      var rest := Escape(value[1..]);
      UnescapeEscape(value[1..]);
      if value[0] == '"' {
        assert Escape(value) == "\\\"" + rest;
        assert (Escape(value))[2..] == rest;
      } else {
        assert Escape(value) == [value[0]] + rest;
        assert (Escape(value))[1..] == rest;
        assert rest != [] ==> rest[0] != '"';
      }
    }
  }

  /** Wraps a value in double quotes after escaping its embedded quotes. No
      other character is escaped. */
  function Quote(value: string): (r: string)
    ensures |r| >= 2 && r[0] == '"' && r[|r| - 1] == '"'
    ensures r[1..|r| - 1] == Escape(value)
  {
    "\"" + Escape(value) + "\""
  }

  /** Distinct values quote differently: the value is the unescaped text
      between the quotes. */
  lemma QuoteInjective(a: string, b: string)
    ensures Quote(a) == Quote(b) ==> a == b
    ensures Unescape(Quote(a)[1..|Quote(a)| - 1]) == a
  {
    UnescapeEscape(a);
    UnescapeEscape(b);
  }

  /** The `:port` suffix of a jump target, present only off the default port. */
  function PortSuffix(port: int): string {
    if port != DefaultPort then ":" + IntToString(port) else ""
  }

  /** `user@host[:port]` of a jump host. */
  function JumpTarget(j: HostProfile): string {
    j.username + "@" + j.host + PortSuffix(j.port)
  }

  /** The profile a non-blank `jumpHostId` resolves to: the first profile of
      the list with that id, when a list is given at all. */
  function ResolveJumpHost(p: HostProfile, allProfiles: Option<seq<HostProfile>>): Option<HostProfile> {
    if !IsNullOrWhiteSpace(p.jumpHostId) && allProfiles.Some? then
      FirstById(allProfiles.value, p.jumpHostId.value)
    else None
  }

  /** The fixed text around the key in the `ProxyCommand` clause. */
  const ProxyPrefix: string := " -o " + "ProxyCommand=\"ssh -i "
  const ProxyMiddle: string := " -W %h:%p "

  /** The clause for a jump host with a key: a `ProxyCommand` running a nested
      ssh through it, with the key inserted unquoted. */
  function ProxyClause(j: HostProfile): string
    requires j.identityFile.Some?
  {
    ProxyPrefix + j.identityFile.value + ProxyMiddle + JumpTarget(j) + "\""
  }

  /** The clause for a jump host without a key. */
  function DirectClause(j: HostProfile): string {
    " -J " + JumpTarget(j)
  }

  /** The jump-host clause: nothing when the id does not resolve, otherwise
      the `ProxyCommand` form when the jump host's key is non-empty and the
      `-J` form when it is not. */
  function JumpClause(p: HostProfile, allProfiles: Option<seq<HostProfile>>): string {
    match ResolveJumpHost(p, allProfiles)
    case None => ""
    case Some(j) => if !IsNullOrEmpty(j.identityFile) then ProxyClause(j) else DirectClause(j)
  }

  function ExeSegment(sshExePath: string): string {
    "\"" + sshExePath + "\""
  }

  function TtySegment(p: HostProfile): string {
    if p.requestTty then " -tt" else ""
  }

  function PortSegment(p: HostProfile): string {
    if p.port != DefaultPort then " -p " + IntToString(p.port) else ""
  }

  function IdentitySegment(p: HostProfile): string {
    if !IsNullOrWhiteSpace(p.identityFile) then " -i " + Quote(p.identityFile.value) else ""
  }

  function AgentSegment(p: HostProfile): string {
    if p.agentForwarding then " -A" else ""
  }

  function PolicySegment(p: HostProfile): string {
    if !IsBlank(p.hostKeyChecking) then " -o StrictHostKeyChecking=" + p.hostKeyChecking else ""
  }

  function TargetSegment(p: HostProfile): string {
    " " + p.username + "@" + p.host
  }

  function ExtraSegment(p: HostProfile): string {
    if !IsNullOrWhiteSpace(p.extraArgs) then " " + p.extraArgs.value else ""
  }

  /** The options every line carries before any jump-host clause, in the
      order the source appends them. */
  function Options(p: HostProfile): string {
    TtySegment(p) + PortSegment(p) + IdentitySegment(p) + AgentSegment(p) + PolicySegment(p) + KeepAlive
  }

  /** The line assembled from the executable, the options, the jump clause,
      the target and the extra arguments: it opens with the executable and
      ends with the extra arguments, or with the target when there are none. */
  function Assemble(exe: string, options: string, jump: string, target: string, extra: string): (r: string)
    ensures StartsWith(r, exe)
    ensures EndsWith(r, extra)
    ensures extra == [] ==> EndsWith(r, target)
  {
    var args := options + jump + target + extra;
    StartsWithConcat(exe, args);
    EndsWithLast(options + jump + target, extra);
    EndsWithConcat(exe, args, extra);
    assert extra == [] ==> EndsWith(exe + args, target) by {
      if extra == [] {
        assert args == options + jump + target;
        EndsWithLast(options + jump, target);
        EndsWithConcat(exe, args, target);
      }
    }
    exe + args
  }

  /** `BuildCommandLine(sshExePath, profile, allProfiles)`; `None` for
      `allProfiles` is the source's `null` list. The line always opens with the
      quoted executable and always ends with the extra arguments when there are
      any, or else with the ` user@host` target. */
  function BuildCommandLine(sshExePath: string, p: HostProfile, allProfiles: Option<seq<HostProfile>>): (r: string)
    ensures StartsWith(r, "\"" + sshExePath + "\"")
    ensures !IsNullOrWhiteSpace(p.extraArgs) ==> EndsWith(r, " " + p.extraArgs.value)
    ensures IsNullOrWhiteSpace(p.extraArgs) ==> EndsWith(r, " " + UserAndHost(p))
  {
    assert TargetSegment(p) == " " + UserAndHost(p);
    Assemble(ExeSegment(sshExePath), Options(p), JumpClause(p, allProfiles), TargetSegment(p), ExtraSegment(p))
  }

  /** A jump-host id that is blank, that no profile carries, or that cannot be
      looked up because no list was given, leaves the command line exactly as
      if the profile had no jump host. */
  lemma UnresolvedJumpHostIsIgnored(sshExePath: string, p: HostProfile, allProfiles: Option<seq<HostProfile>>)
    requires IsNullOrWhiteSpace(p.jumpHostId) || allProfiles.None?
          || forall j :: 0 <= j < |allProfiles.value| ==> allProfiles.value[j].id != p.jumpHostId.value
    ensures BuildCommandLine(sshExePath, p, allProfiles)
         == BuildCommandLine(sshExePath, p.(jumpHostId := None), None)
  {
    var q := p.(jumpHostId := None);
    assert JumpClause(p, allProfiles) == [] == JumpClause(q, None);
    assert Options(p) == Options(q);
  }

  /** Only the first profile carrying the jump-host id matters: the command
      line is the same as if the list held that profile alone. */
  lemma FirstJumpHostMatchWins(sshExePath: string, p: HostProfile, ps: seq<HostProfile>, i: nat)
    requires !IsNullOrWhiteSpace(p.jumpHostId)
    requires i < |ps| && ps[i].id == p.jumpHostId.value
    requires forall j :: 0 <= j < i ==> ps[j].id != p.jumpHostId.value
    ensures BuildCommandLine(sshExePath, p, Some(ps)) == BuildCommandLine(sshExePath, p, Some([ps[i]]))
  {
    assert FirstIndexById(ps, p.jumpHostId.value) == Some(i);
    assert FirstIndexById([ps[i]], p.jumpHostId.value) == Some(0);
  }

  /** The options of a freshly created profile: a terminal is requested and
      the `ask` policy is passed. */
  lemma NewProfileOptions(id: string)
    ensures Options(NewProfile(id)) == " -tt" + " -o StrictHostKeyChecking=" + "ask" + KeepAlive
  {
    var p := NewProfile(id);
    assert !IsBlank(p.hostKeyChecking) by { assert !IsWhiteSpace(p.hostKeyChecking[0]); }
    assert PortSegment(p) == [] && IdentitySegment(p) == [] && AgentSegment(p) == [];
  }

  /** Regrouping the three parts of a command line into its eleven pieces. */
  lemma Regroup(e1: string, e2: string, e3: string, o1: string, o2: string, o3: string, o4: string,
                t1: string, t2: string, t3: string, t4: string)
    ensures (e1 + e2 + e3) + ((o1 + o2 + o3 + o4) + (t1 + t2 + t3 + t4))
         == e1 + e2 + e3 + o1 + o2 + o3 + o4 + t1 + t2 + t3 + t4
  {
  }

  /** The command line of a freshly created profile. */
  lemma NewProfileCommandLine(id: string)
    ensures BuildCommandLine("ssh.exe", NewProfile(id), None)
         == "\"" + "ssh.exe" + "\"" + " -tt" + " -o StrictHostKeyChecking=" + "ask" + KeepAlive
            + " " + "user" + "@" + "example.com"
  {
    var p := NewProfile(id);
    NewProfileOptions(id);
    assert JumpClause(p, None) == [] && ExtraSegment(p) == [];
    assert Options(p) + [] + TargetSegment(p) + [] == Options(p) + TargetSegment(p);
    Regroup("\"", "ssh.exe", "\"", " -tt", " -o StrictHostKeyChecking=", "ask", KeepAlive, " ", "user", "@", "example.com");
  }
}
