/** `ProfileDialog`: the form that creates or edits a profile. The text boxes,
    check boxes and drop-downs become plain values: a text box holds a string
    (never `null`), a check box a `bool?`, and a drop-down the item selected,
    if any. The host-key drop-down's items are declared in the dialog's XAML,
    which is not part of this model; they are a parameter here. */
module ProfileDialog {
  import opened Wrappers
  import opened Text
  import opened HostProfiles

  /** The host-key policy used when none is chosen. */
  const DefaultPolicy: string := "accept-new"

  // ---------------------------------------------------------------------
  // Jump-host drop-down
  // ---------------------------------------------------------------------

  /** An entry of the jump-host drop-down: its label and its tag, the id of
      the profile it offers or `None` for the "None" entry. */
  datatype JumpItem = JumpItem(content: string, tag: Option<string>)

  /** The entries of the drop-down and the index of the selected one. */
  datatype JumpChoices = JumpChoices(items: seq<JumpItem>, selected: nat)

  const NoneItem: JumpItem := JumpItem("None", None)

  /** The entry offering a profile. */
  function ItemFor(p: HostProfile): JumpItem {
    JumpItem(p.name + " (" + p.username + "@" + p.host + ")", Some(p.id))
  }

  /** The profiles offered as jump hosts: every profile whose id differs from
      that of the profile being edited, in list order. With no profile being
      edited, every profile is offered. */
  function Candidates(all: seq<HostProfile>, currentId: Option<string>): (r: seq<HostProfile>)
    ensures forall q :: q in r <==> q in all && Some(q.id) != currentId
  {
    if all == [] then []
    else
      var rest := Candidates(all[1..], currentId);
      assert forall q :: q in all <==> q == all[0] || q in all[1..] by {
        assert all == [all[0]] + all[1..];
      }
      if Some(all[0].id) != currentId then [all[0]] + rest else rest
  }

  /** The filter works element by element, so the offered profiles keep
      their order. */
  lemma {:induction false} CandidatesDistribute(a: seq<HostProfile>, b: seq<HostProfile>, currentId: Option<string>)
    ensures Candidates(a + b, currentId) == Candidates(a, currentId) + Candidates(b, currentId)
  {
    if a != [] {
      assert (a + b)[1..] == a[1..] + b;
      CandidatesDistribute(a[1..], b, currentId);
    } else {
      assert a + b == b;
    }
  }

  /** The last position whose profile carries the id `target`. */
  function LastMatch(cands: seq<HostProfile>, target: Option<string>): (r: Option<nat>)
    ensures r.Some? ==> r.value < |cands| && Some(cands[r.value].id) == target
    ensures r.Some? ==> forall j :: r.value < j < |cands| ==> Some(cands[j].id) != target
    ensures r.None? ==> forall j :: 0 <= j < |cands| ==> Some(cands[j].id) != target
  {
    if cands == [] then None
    else
      var n := |cands| - 1;
      if Some(cands[n].id) == target then Some(n) else LastMatch(cands[..n], target)
  }

  /** The "None" entry followed by one entry per candidate. */
  function JumpItems(cands: seq<HostProfile>): (items: seq<JumpItem>)
    ensures |items| == |cands| + 1 && items[0] == NoneItem
    ensures forall k :: 0 <= k < |cands| ==> items[k + 1] == ItemFor(cands[k])
  {
    [NoneItem] + seq(|cands|, k requires 0 <= k < |cands| => ItemFor(cands[k]))
  }

  /** The index of the entry left selected: the entry after the last
      candidate carrying `target`, or the "None" entry when none does. */
  function SelectedEntry(cands: seq<HostProfile>, target: Option<string>): (k: nat)
    ensures k <= |cands|
    ensures k > 0 ==> Some(cands[k - 1].id) == target
    ensures k == 0 ==> forall j :: 0 <= j < |cands| ==> Some(cands[j].id) != target
  {
    match LastMatch(cands, target)
    case None => 0
    case Some(j) => j + 1
  }

  /** The id of the profile being edited, if any. */
  function EditedId(current: Option<HostProfile>): Option<string> {
    if current.Some? then Some(current.value.id) else None
  }

  /** `PopulateJumpHostComboBox(currentProfile)`: the "None" entry, then one
      entry per candidate. The loop selects every candidate whose id is the
      edited profile's jump-host id, so the last of them stays selected; when
      there is none, "None" is selected. */
  function PopulateJumpHost(all: seq<HostProfile>, current: Option<HostProfile>): (r: JumpChoices)
    ensures var cands := Candidates(all, EditedId(current));
            && |r.items| == |cands| + 1
            && r.items[0] == NoneItem
            && (forall k :: 0 <= k < |cands| ==> r.items[k + 1] == ItemFor(cands[k]))
    ensures r.selected < |r.items|
    ensures r.items[r.selected].tag.Some? ==> current.Some? && r.items[r.selected].tag == current.value.jumpHostId
  {
    var target := if current.Some? then current.value.jumpHostId else None;
    var cands := Candidates(all, EditedId(current));
    JumpChoices(JumpItems(cands), SelectedEntry(cands, target))
  }

  /** The edited profile is never offered as its own jump host. */
  lemma NeverOfferedToItself(all: seq<HostProfile>, p: HostProfile)
    ensures var r := PopulateJumpHost(all, Some(p));
            forall k :: 0 <= k < |r.items| ==> r.items[k].tag != Some(p.id)
  {
    var r := PopulateJumpHost(all, Some(p));
    var cands := Candidates(all, Some(p.id));
    forall k | 0 <= k < |r.items|
      ensures r.items[k].tag != Some(p.id)
    {
      if k > 0 {
        assert r.items[k] == ItemFor(cands[k - 1]);
        assert cands[k - 1] in cands;
      }
    }
  }

  /** A selected jump host is one of the profiles offered. */
  lemma SelectedIsOffered(all: seq<HostProfile>, p: HostProfile)
    ensures var r := PopulateJumpHost(all, Some(p));
            r.items[r.selected].tag.Some? ==>
              exists q :: q in all && q.id != p.id && Some(q.id) == r.items[r.selected].tag
  {
    var r := PopulateJumpHost(all, Some(p));
    var cands := Candidates(all, Some(p.id));
    if r.selected > 0 {
      assert r.items[r.selected] == ItemFor(cands[r.selected - 1]);
      assert cands[r.selected - 1] in cands;
    }
  }

  /** No candidate carries a target that selects the "None" entry, so no
      profile of the list but the edited one does. */
  lemma UnselectedTargetIsUnoffered(all: seq<HostProfile>, currentId: Option<string>, target: Option<string>)
    requires SelectedEntry(Candidates(all, currentId), target) == 0
    ensures forall q :: q in all && Some(q.id) != currentId ==> Some(q.id) != target
  {
    var cands := Candidates(all, currentId);
    forall q | q in all && Some(q.id) != currentId
      ensures Some(q.id) != target
    {
      assert q in cands;
      var j :| 0 <= j < |cands| && cands[j] == q;
    }
  }

  /** "None" stays selected only when no offered profile carries the edited
      profile's jump-host id. */
  lemma NoneSelectedOnlyWithoutMatch(all: seq<HostProfile>, p: HostProfile)
    ensures var r := PopulateJumpHost(all, Some(p));
            r.items[r.selected].tag.None? ==>
              forall q :: q in all && q.id != p.id ==> Some(q.id) != p.jumpHostId
  {
    var r := PopulateJumpHost(all, Some(p));
    if r.items[r.selected].tag.None? {
      assert r.selected == 0;
      UnselectedTargetIsUnoffered(all, Some(p.id), p.jumpHostId);
    }
  }

  // ---------------------------------------------------------------------
  // Host-key drop-down
  // ---------------------------------------------------------------------

  /** The item the constructor selects in the host-key drop-down: the first
      whose content (`null` read as empty) is the profile's policy, or
      `accept-new` when that policy is blank or there is no profile. `None`
      when no item matches. */
  function InitialPolicy(items: seq<Option<string>>, current: Option<HostProfile>): (r: Option<Option<string>>)
    ensures var value := if current.None? || IsBlank(current.value.hostKeyChecking) then DefaultPolicy
                         else current.value.hostKeyChecking;
            && (r.Some? ==> r.value in items && r.value.GetOr([]) == value)
            && (r.None? ==> forall k :: 0 <= k < |items| ==> items[k].GetOr([]) != value)
  {
    var value := if current.None? || IsBlank(current.value.hostKeyChecking) then DefaultPolicy
                 else current.value.hostKeyChecking;
    FirstItemWithContent(items, value)
  }

  function FirstItemWithContent(items: seq<Option<string>>, value: string): (r: Option<Option<string>>)
    ensures r.Some? ==> r.value in items && r.value.GetOr([]) == value
    ensures r.None? ==> forall k :: 0 <= k < |items| ==> items[k].GetOr([]) != value
  {
    if items == [] then None
    else if items[0].GetOr([]) == value then Some(items[0])
    else FirstItemWithContent(items[1..], value)
  }

  // ---------------------------------------------------------------------
  // The form
  // ---------------------------------------------------------------------

  /** What the form holds when the primary button is pressed. A selection is
      `None` when nothing is selected, otherwise the selected item's content
      (host key) or tag (jump host). */
  datatype Form = Form(
    name: string,
    host: string,
    user: string,
    port: string,
    key: string,
    extraArgs: string,
    tty: Option<bool>,
    agent: Option<bool>,
    policySelection: Option<Option<string>>,
    jumpSelection: Option<Option<string>>)

  /** The form as the constructor fills it for `profile` (`None` when a new
      profile is being created): every box shows the profile's field, and
      for a new profile the boxes are empty and the check boxes unset. The
      host-key drop-down shows the item `InitialPolicy` picks and the
      jump-host drop-down the entry `PopulateJumpHost` leaves selected. */
  function FormFor(profile: Option<HostProfile>, policyItems: seq<Option<string>>, all: seq<HostProfile>): (f: Form)
    ensures profile.Some? ==>
              var p := profile.value;
              && f.name == p.name && f.host == p.host && f.user == p.username
              && ParseInteger(f.port) == Some(p.port)
              && f.key == p.identityFile.GetOr([]) && f.extraArgs == p.extraArgs.GetOr([])
              && f.tty == Some(p.requestTty) && f.agent == Some(p.agentForwarding)
    ensures profile.None? ==>
              && f.name == [] && f.host == [] && f.user == [] && f.port == []
              && f.key == [] && f.extraArgs == [] && f.tty.None? && f.agent.None?
    ensures f.policySelection == InitialPolicy(policyItems, profile)
    ensures var choices := PopulateJumpHost(all, profile);
            f.jumpSelection == Some(choices.items[choices.selected].tag)
  {
    assert profile.Some? ==> ParseInteger(IntToString(profile.value.port)) == Some(profile.value.port) by {
      if profile.Some? {
        IntToStringRoundTrip(profile.value.port);
      }
    }
    var choices := PopulateJumpHost(all, profile);
    match profile
    case None =>
      Form([], [], [], [], [], [], None, None, InitialPolicy(policyItems, None), Some(choices.items[choices.selected].tag))
    case Some(p) =>
      Form(p.name, p.host, p.username, IntToString(p.port), p.identityFile.GetOr([]), p.extraArgs.GetOr([]),
           Some(p.requestTty), Some(p.agentForwarding),
           InitialPolicy(policyItems, profile), Some(choices.items[choices.selected].tag))
  }

  /** The outcome of pressing the primary button: the dialog stays open and
      nothing is changed, or the profile is saved together with the path of a
      key to import, if one is to be imported. */
  datatype Submission = Rejected | Accepted(profile: HostProfile, keyImport: Option<string>)

  /** The port the text names, if it is a valid TCP port. */
  function PortOf(text: string): (r: Option<int>)
    ensures r.Some? ==> 1 <= r.value <= 65535 && ParseInteger(Trim(text)) == r
    ensures r.None? ==> match ParseInteger(Trim(text)) case None => true case Some(n) => n < 1 || n > 65535
  {
    match TryParseInt32(Trim(text))
    case None => None
    case Some(n) => if n < 1 || n > 65535 then None else Some(n)
  }

  /** The extra arguments stored for the text of their box: blank text is
      stored as `null`, anything else trimmed. */
  function ExtraArgsOf(text: string): (r: Option<string>)
    ensures r.None? <==> IsBlank(text)
    ensures r.Some? ==> r.value == Trim(text) && r.value != []
  {
    if IsBlank(text) then None else Some(Trim(text))
  }

  /** The host-key policy stored for the drop-down's selection: the selected
      item's content, or `accept-new` when nothing with content is selected. */
  function PolicyOf(selection: Option<Option<string>>): (r: string)
    ensures selection.Some? && selection.value.Some? ==> r == selection.value.value
    ensures selection.None? || selection.value.None? ==> r == DefaultPolicy
  {
    match selection
    case Some(Some(content)) => content
    case _ => DefaultPolicy
  }

  /** `OnPrimary`. `existing` is the profile being edited (`None` in create
      mode), `newId` the id a new profile draws, and `importedKey` the path
      the key importer returns. A blank name, host or user, or a port that is
      not a number from 1 to 65535, rejects the form. Otherwise the names are
      stored trimmed, blank extra arguments are stored as `null`, the check
      boxes count only when checked, the policy falls back to `accept-new`,
      and the jump-host selection's tag is stored. A key is imported only in
      create mode and only when the key box is not empty. */
  function OnPrimary(existing: Option<HostProfile>, form: Form, newId: string, importedKey: string): (r: Submission)
    ensures r.Rejected? <==> IsBlank(form.name) || IsBlank(form.host) || IsBlank(form.user) || PortOf(form.port).None?
    ensures r.Accepted? ==>
              var p := r.profile;
              && p.name == Trim(form.name) && p.name != []
              && p.host == Trim(form.host) && p.host != []
              && p.username == Trim(form.user) && p.username != []
              && 1 <= p.port <= 65535 && ParseInteger(Trim(form.port)) == Some(p.port)
    ensures r.Accepted? ==>
              && (r.profile.extraArgs.None? <==> IsBlank(form.extraArgs))
              && (r.profile.extraArgs.Some? ==> r.profile.extraArgs.value == Trim(form.extraArgs) && r.profile.extraArgs.value != [])
    ensures r.Accepted? ==>
              && (r.profile.requestTty <==> form.tty == Some(true))
              && (r.profile.agentForwarding <==> form.agent == Some(true))
    ensures r.Accepted? && form.policySelection.Some? && form.policySelection.value.Some? ==>
              r.profile.hostKeyChecking == form.policySelection.value.value
    ensures r.Accepted? && (form.policySelection.None? || form.policySelection.value.None?) ==>
              r.profile.hostKeyChecking == DefaultPolicy
    ensures r.Accepted? ==>
              r.profile.jumpHostId == (if form.jumpSelection.Some? then form.jumpSelection.value
                                       else if existing.Some? then existing.value.jumpHostId else None)
    ensures r.Accepted? ==> (r.keyImport.Some? <==> form.key != [] && existing.None?)
    ensures r.Accepted? && r.keyImport.Some? ==> r.keyImport.value == Trim(form.key) && r.profile.identityFile == Some(importedKey)
    ensures r.Accepted? && r.keyImport.None? && existing.Some? ==> r.profile.identityFile == existing.value.identityFile
    ensures r.Accepted? && existing.Some? ==>
              && r.profile.id == existing.value.id
              && r.profile.initialCols == existing.value.initialCols && r.profile.initialRows == existing.value.initialRows
    ensures r.Accepted? && existing.None? ==>
              && r.profile.id == newId && r.profile.initialCols == 120 && r.profile.initialRows == 30
              && (r.keyImport.None? ==> r.profile.identityFile.None?)
  {
    if IsBlank(form.name) || IsBlank(form.host) || IsBlank(form.user) then Rejected
    else match PortOf(form.port)
      case None => Rejected
      case Some(port) =>
        var base := if existing.Some? then existing.value else NewProfile(newId);
        var importing := form.key != [] && existing.None?;
        var saved := base.(
          name := Trim(form.name),
          host := Trim(form.host),
          username := Trim(form.user),
          port := port,
          extraArgs := ExtraArgsOf(form.extraArgs),
          requestTty := form.tty == Some(true),
          agentForwarding := form.agent == Some(true),
          hostKeyChecking := PolicyOf(form.policySelection),
          jumpHostId := if form.jumpSelection.Some? then form.jumpSelection.value else base.jumpHostId,
          identityFile := if importing then Some(importedKey) else base.identityFile);
        Accepted(saved, if importing then Some(Trim(form.key)) else None)
  }

  // ---------------------------------------------------------------------
  // Opening and saving a profile unchanged
  // ---------------------------------------------------------------------

  /** A trimmed, non-empty text. */
  predicate Normal(s: string) {
    s != [] && Trim(s) == s
  }

  /** Text without any whitespace trims to itself. */
  lemma TrimWithoutWhitespace(s: string)
    requires forall k :: 0 <= k < |s| ==> !IsWhiteSpace(s[k])
    ensures Trim(s) == s
  {
    if s != [] {
      assert !IsWhiteSpace(s[0]);
      assert TrimStart(s) == s;
      assert !IsWhiteSpace(s[|s| - 1]);
    }
  }

  /** The port box of a valid port reads back as that port. */
  lemma PortReadsBack(port: int)
    requires 1 <= port <= 65535
    ensures PortOf(IntToString(port)) == Some(port)
  {
    var text := IntToString(port);
    forall k | 0 <= k < |text| ensures !IsWhiteSpace(text[k]) {
      if IsWhiteSpace(text[k]) {
        assert text[k] in text;
        IntToStringHasNoDelimiter(port, text[k]);
      }
    }
    TrimWithoutWhitespace(text);
    IntToStringRoundTrip(port);
  }

  /** A profile as the dialog itself would have saved it: trimmed, non-empty
      names, a valid port, trimmed non-blank extra arguments or none, a policy
      that is one of the drop-down's items, and a jump host that the
      drop-down offers, or none. */
  predicate SavedByDialog(p: HostProfile, policyItems: seq<Option<string>>, all: seq<HostProfile>) {
    && Normal(p.name) && Normal(p.host) && Normal(p.username)
    && 1 <= p.port <= 65535
    && (p.extraArgs.Some? ==> Normal(p.extraArgs.value))
    && !IsBlank(p.hostKeyChecking) && Some(p.hostKeyChecking) in policyItems
    && (p.jumpHostId.Some? ==> exists q :: q in all && q.id != p.id && Some(q.id) == p.jumpHostId)
  }

  /** The constructor selects the profile's own policy when it is one of
      the items. */
  lemma PolicySelectedOnOpen(p: HostProfile, policyItems: seq<Option<string>>)
    requires !IsBlank(p.hostKeyChecking) && Some(p.hostKeyChecking) in policyItems
    ensures InitialPolicy(policyItems, Some(p)) == Some(Some(p.hostKeyChecking))
  {
    var sel := InitialPolicy(policyItems, Some(p));
    assert sel.Some? by {
      var k :| 0 <= k < |policyItems| && policyItems[k] == Some(p.hostKeyChecking);
      assert policyItems[k].GetOr([]) == p.hostKeyChecking;
    }
    assert sel.value.GetOr([]) == p.hostKeyChecking;
  }

  /** The constructor selects the profile's own jump host when the drop-down
      offers it, and "None" when the profile has none. */
  lemma JumpHostSelectedOnOpen(p: HostProfile, all: seq<HostProfile>)
    requires p.jumpHostId.Some? ==> exists q :: q in all && q.id != p.id && Some(q.id) == p.jumpHostId
    ensures var choices := PopulateJumpHost(all, Some(p));
            choices.items[choices.selected].tag == p.jumpHostId
  {
    NoneSelectedOnlyWithoutMatch(all, p);
  }

  /** The form the constructor fills for a profile the dialog saved. */
  lemma FormOnOpen(p: HostProfile, policyItems: seq<Option<string>>, all: seq<HostProfile>)
    requires SavedByDialog(p, policyItems, all)
    ensures FormFor(Some(p), policyItems, all)
         == Form(p.name, p.host, p.username, IntToString(p.port), p.identityFile.GetOr([]),
                 p.extraArgs.GetOr([]), Some(p.requestTty), Some(p.agentForwarding),
                 Some(Some(p.hostKeyChecking)), Some(p.jumpHostId))
  {
    PolicySelectedOnOpen(p, policyItems);
    JumpHostSelectedOnOpen(p, all);
  }

  /** Opening the dialog on such a profile and pressing the primary button
      without touching the form saves the profile exactly as it was, and
      imports no key. */
  lemma EditUnchangedKeepsProfile(p: HostProfile, policyItems: seq<Option<string>>, all: seq<HostProfile>, newId: string, importedKey: string)
    requires SavedByDialog(p, policyItems, all)
    ensures OnPrimary(Some(p), FormFor(Some(p), policyItems, all), newId, importedKey) == Accepted(p, None)
  {
    FormOnOpen(p, policyItems, all);
    SubmitOwnForm(p, newId, importedKey);
  }

  /** Submitting, in edit mode, the form filled from a profile the dialog
      saved gives back that profile. */
  lemma SubmitOwnForm(p: HostProfile, newId: string, importedKey: string)
    requires Normal(p.name) && Normal(p.host) && Normal(p.username)
    requires 1 <= p.port <= 65535
    requires p.extraArgs.Some? ==> Normal(p.extraArgs.value)
    ensures var form := Form(p.name, p.host, p.username, IntToString(p.port), p.identityFile.GetOr([]),
                             p.extraArgs.GetOr([]), Some(p.requestTty), Some(p.agentForwarding),
                             Some(Some(p.hostKeyChecking)), Some(p.jumpHostId));
            OnPrimary(Some(p), form, newId, importedKey) == Accepted(p, None)
  {
    var form := Form(p.name, p.host, p.username, IntToString(p.port), p.identityFile.GetOr([]),
                     p.extraArgs.GetOr([]), Some(p.requestTty), Some(p.agentForwarding),
                     Some(Some(p.hostKeyChecking)), Some(p.jumpHostId));
    PortReadsBack(p.port);
    assert !IsBlank(p.name) && !IsBlank(p.host) && !IsBlank(p.username);
    assert ExtraArgsOf(form.extraArgs) == p.extraArgs by {
      if p.extraArgs.Some? {
        assert !IsBlank(p.extraArgs.value);
      }
    }
    var r := OnPrimary(Some(p), form, newId, importedKey);
    assert r.Accepted?;
    assert r.profile.hostKeyChecking == p.hostKeyChecking;
    assert r.profile.requestTty == p.requestTty && r.profile.agentForwarding == p.agentForwarding;
    assert r.keyImport.None?;
  }

  /** A profile whose jump host the drop-down does not offer (a dangling id,
      or its own id) loses it when saved from the dialog unchanged. */
  lemma EditUnchangedDropsUnofferedJumpHost(p: HostProfile, policyItems: seq<Option<string>>, all: seq<HostProfile>, newId: string, importedKey: string)
    requires p.jumpHostId.Some?
    requires forall q :: q in all && q.id != p.id ==> Some(q.id) != p.jumpHostId
    requires OnPrimary(Some(p), FormFor(Some(p), policyItems, all), newId, importedKey).Accepted?
    ensures OnPrimary(Some(p), FormFor(Some(p), policyItems, all), newId, importedKey).profile.jumpHostId.None?
  {
    var choices := PopulateJumpHost(all, Some(p));
    var tag := choices.items[choices.selected].tag;
    SelectedIsOffered(all, p);
    assert FormFor(Some(p), policyItems, all).jumpSelection == Some(tag);
  }

  /** In edit mode the key box is ignored: whatever it holds, the saved
      identity file is the profile's own. */
  lemma EditIgnoresKeyBox(p: HostProfile, form: Form, newId: string, importedKey: string)
    requires OnPrimary(Some(p), form, newId, importedKey).Accepted?
    ensures OnPrimary(Some(p), form, newId, importedKey).profile.identityFile == p.identityFile
    ensures OnPrimary(Some(p), form, newId, importedKey) == OnPrimary(Some(p), form.(key := []), newId, importedKey)
  {
  }
}
