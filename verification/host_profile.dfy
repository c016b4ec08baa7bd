/** The connection profile record every other part of the model consumes. */
module HostProfiles {
  import opened Wrappers
  import opened Text

  /** A saved connection. Nullable strings are `Option<string>`; `port`,
      `initialCols` and `initialRows` are .NET `int`s. The UI icon (`Symbol`)
      carries no logic and is not modelled. */
  datatype HostProfile = HostProfile(
    id: string,
    name: string,
    host: string,
    port: int,
    username: string,
    identityFile: Option<string>,  // -i
    requestTty: bool,              // -tt
    agentForwarding: bool,         // -A
    hostKeyChecking: string,       // accept-new | ask | yes | no
    jumpHostId: Option<string>,    // -J
    extraArgs: Option<string>,
    initialCols: int,
    initialRows: int)

  const DefaultPort: int := 22

  /** A freshly constructed profile. The source draws `id` from a new GUID;
      here it is a parameter. Every other field takes its declared default. */
  function NewProfile(id: string): (p: HostProfile)
    ensures p.id == id
    ensures p.name == "New Host" && p.host == "example.com" && p.username == "user"
    ensures p.port == 22 && p.requestTty && !p.agentForwarding && p.hostKeyChecking == "ask"
    ensures p.identityFile.None? && p.jumpHostId.None? && p.extraArgs.None?
    ensures p.initialCols == 120 && p.initialRows == 30
  {
    HostProfile(
      id := id,
      name := "New Host",
      host := "example.com",
      port := DefaultPort,
      username := "user",
      identityFile := None,
      requestTty := true,
      agentForwarding := false,
      hostKeyChecking := "ask",
      jumpHostId := None,
      extraArgs := None,
      initialCols := 120,
      initialRows := 30)
  }

  /** The `user@host` label shown for a profile. */
  function UserAndHost(p: HostProfile): string {
    p.username + "@" + p.host
  }

  /** The position of the first profile with the given id: the profile that
      `FirstOrDefault(h => h.Id == id)` and `First(h => h.Id == id)` pick. */
  function FirstIndexById(ps: seq<HostProfile>, id: string): (r: Option<nat>)
    ensures r.Some? ==> r.value < |ps| && ps[r.value].id == id
    ensures r.Some? ==> forall j :: 0 <= j < r.value ==> ps[j].id != id
    ensures r.None? ==> forall j :: 0 <= j < |ps| ==> ps[j].id != id
  {
    if ps == [] then None
    else if ps[0].id == id then Some(0)
    else match FirstIndexById(ps[1..], id)
      case None => None
      case Some(i) => Some(i + 1)
  }

  /** A position holding the id, with no earlier one holding it, is the one
      found. */
  lemma FirstIndexAt(ps: seq<HostProfile>, id: string, i: nat)
    requires i < |ps| && ps[i].id == id
    requires forall j :: 0 <= j < i ==> ps[j].id != id
    ensures FirstIndexById(ps, id) == Some(i)
  {
    var r := FirstIndexById(ps, id);
    assert r.Some? by {
      assert ps[i].id == id;
    }
  }

  /** `FirstOrDefault(h => h.Id == id)`: the first profile with that id. */
  function FirstById(ps: seq<HostProfile>, id: string): (r: Option<HostProfile>)
    ensures r.Some? <==> FirstIndexById(ps, id).Some?
    ensures r.Some? ==> r.value == ps[FirstIndexById(ps, id).value]
  {
    match FirstIndexById(ps, id)
    case None => None
    case Some(i) => Some(ps[i])
  }

  /** Splits a `user@host` label at its first `@`. */
  function SplitUserAndHost(userAtHost: string): (r: Option<(string, string)>)
    ensures r.Some? ==> userAtHost == r.value.0 + "@" + r.value.1 && '@' !in r.value.0
    ensures r.None? <==> '@' !in userAtHost
  {
    match IndexOf(userAtHost, '@')
    case None => None
    case Some(i) =>
      assert userAtHost == userAtHost[..i] + "@" + userAtHost[i + 1..];
      Some((userAtHost[..i], userAtHost[i + 1..]))
  }

  /** The label names the user and the host it was built from, as long as the
      user name itself contains no `@` (host names may). */
  lemma UserAndHostSplits(p: HostProfile)
    requires '@' !in p.username
    ensures SplitUserAndHost(UserAndHost(p)) == Some((p.username, p.host))
  {
    var userAtHost := UserAndHost(p);
    var i := |p.username|;
    assert userAtHost[i] == '@' && userAtHost[..i] == p.username;
    assert IndexOf(userAtHost, '@') == Some(i);
    assert userAtHost[i + 1..] == p.host;
  }
}
