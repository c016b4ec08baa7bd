# WinSsh core, modelled in Dafny

WinSsh is a Windows SSH client. It keeps connection profiles in a JSON file, lets the
user edit them in a dialog, and connects by running `ssh.exe` on a pseudo-console.
The session's output pump watches the output for OpenSSH's interactive prompts and
writes the user's answers back. This project models the deterministic core of that
program as pure functions over immutable data, and proves properties of it:

- `host_profile.dfy` (`HostProfiles`): the `HostProfile` record, its defaults, the
  `user@host` label, and the id lookup every other part uses.
- `command_line.dfy` (`SshCommandBuilder`): `BuildCommandLine` and `Quote`. Each
  conditional append of the source is one segment function, in source order.
- `command_line_reading.dfy` (`CommandLineReading`): a reader for the built command
  line, plus an abstract `Intended` invocation. The round-trip lemma shows that
  reading the built line gives the intended invocation: every option, in the fixed
  order, with the jump host resolved.
- `prompt_scan.dfy` (`PromptScan`): one iteration of the output pump. It covers the
  2500-character rolling buffer, the prompt scan in fixed priority, clearing the
  buffer after a prompt, and the reply written back.
- `session.dfy` (`Session`): the session lifecycle. It covers the start guard and
  what each failed start leaves behind, the input and resize guards, and the ordered
  release trace of `CloseAsync`.
- `profiles_store.dfy` (`ProfilesStore`): load, add, delete and update as
  transformations of the stored list.
- `profile_dialog.dfy` (`ProfileDialog`): validation and normalisation on submit,
  the host-key and jump-host drop-downs, and the form the dialog is opened with.
- `text.dfy` (`Text`) and `wrappers.dfy` (`Wrappers`): the .NET string operations
  the code relies on, and `Option`/`Result`.

Nullable references are `Option`. Native handles are opaque natural numbers, with `0`
standing for `IntPtr.Zero`. Whatever the environment decides is a parameter:

- which kernel call fails;
- the handles it hands out;
- the decoded chunk;
- the prompt subscriber's answer;
- the id of a new profile;
- the path the key importer returns.

### Where the code departs from the intended lifecycle

The model follows the code in each of these cases.

- **Failed start.** A start that fails after the pseudo-console was created keeps
  `_pty`, so the session refuses the next start, until it is closed. A failed start
  is meant to leave the session not started. See `Session.FailedLaunchRefusesRestart`.
- **Attribute list after a failed launch.** A failed launch does not free the
  attribute list. Only a later close frees it.
- **Writing after close.** `CloseAsync` disposes the input stream but keeps the
  reference. A later `WriteInputAsync` therefore does not skip: it writes to a
  disposed stream, which throws. Writing after a close is meant to be a no-op.
  See `Session.WriteAfterCloseThrows`.
- **Starting after close.** `CloseAsync` resets `_pty`, so a closed session may be
  started again. A start is meant to be allowed only from the not-started state.
  See `Session.RestartAfterClose`.
- **Closing twice.** A second close closes the process and thread handles again; see
  "## Findings".
- **Jump-host selection.** When several candidates carry the jump-host id, the
  dialog selects the last of them. The command-line builder uses the first.

## Model

| member | source | states |
|---|---|---|
| HostProfiles.NewProfile | WinSsh/Profiles/HostProfile.cs:8-29 | A new profile is "New Host" at user@example.com on port 22, with a TTY and without agent forwarding. Its policy is "ask", it has no key, jump host or extra arguments, and it opens at 120x30. |
| HostProfiles.UserAndHostSplits | WinSsh/Profiles/HostProfile.cs:11 | The `user@host` label splits back at its first `@` into the user and the host, provided the user name has no `@`. |
| HostProfiles.FirstIndexById | WinSsh/Terminal/SshCommandBuilder.cs:36 | The lookup finds the first profile with the id. Every profile before it has another id, and when nothing is found no profile has the id. |
| SshCommandBuilder.Escape | WinSsh/Terminal/SshCommandBuilder.cs:74 | Escaping never shortens a value. It is empty only for the empty value, and a leading quote gains a backslash. |
| SshCommandBuilder.EscapeConcat | WinSsh/Terminal/SshCommandBuilder.cs:74 | Escaping works character by character: the escape of a concatenation is the concatenation of the escapes. |
| SshCommandBuilder.EscapeChar | WinSsh/Terminal/SshCommandBuilder.cs:74 | A double quote becomes a backslash followed by the quote, and every other character is kept as it is. |
| SshCommandBuilder.UnescapeEscape | WinSsh/Terminal/SshCommandBuilder.cs:74 | Every value, including one ending in a backslash, is recovered from its escape by reading each backslash-quote pair as a quote. |
| SshCommandBuilder.Quote | WinSsh/Terminal/SshCommandBuilder.cs:73-74 | The quoted value starts and ends with a double quote, and what lies between is the escaped value. |
| SshCommandBuilder.QuoteInjective | WinSsh/Terminal/SshCommandBuilder.cs:73-74 | Distinct values quote differently: the value is the unescaped text between the quotes. |
| SshCommandBuilder.BuildCommandLine | WinSsh/Terminal/SshCommandBuilder.cs:9-71 | The line starts with the quoted executable. It ends with ` <extra>` when the extra arguments are not blank, and otherwise with ` user@host`. |
| SshCommandBuilder.UnresolvedJumpHostIsIgnored | WinSsh/Terminal/SshCommandBuilder.cs:34-37 | A blank jump-host id, a missing profile list, or an id no profile carries gives the same line as a profile without a jump host. |
| SshCommandBuilder.FirstJumpHostMatchWins | WinSsh/Terminal/SshCommandBuilder.cs:36 | Only the first profile carrying the jump-host id affects the line. |
| SshCommandBuilder.NewProfileCommandLine | WinSsh/Terminal/SshCommandBuilder.cs:16-68 | A new profile gives exactly `"ssh.exe" -tt -o StrictHostKeyChecking=ask`, then the keep-alive pair, then ` user@example.com`. |
| CommandLineReading.EscapeReadsBack | WinSsh/Terminal/SshCommandBuilder.cs:74 | Reading an escaped value up to its closing quote gives the value and the untouched remainder, for values not ending in a backslash. |
| CommandLineReading.QuoteReadsBack | WinSsh/Terminal/SshCommandBuilder.cs:73-74 | `Quote` is inverted by the reader for every value not ending in a backslash. |
| CommandLineReading.TrailingBackslashBreaksQuote | WinSsh/Terminal/SshCommandBuilder.cs:73-74 | Quoting a lone backslash gives `"\"`, which the reader rejects: it takes the final backslash-quote for an escaped quote, as Windows argument splitting does, and finds no closing quote. |
| CommandLineReading.CommandLineReadsBack | WinSsh/Terminal/SshCommandBuilder.cs:16-68 | Reading the built line gives the intended invocation. Each option is present exactly when the profile asks for it, ` -p <port>` exactly when the port is not 22, the keep-alive pair is present, and the segments come in the fixed order. The jump host is the first profile carrying the id: by `ProxyCommand` with its key unquoted when the key is non-empty, by `-J` otherwise, with `:port` only off port 22. Extra arguments are present only when not blank. |
| CommandLineReading.PortWrittenOnlyOffDefault | WinSsh/Terminal/SshCommandBuilder.cs:19-57 | For `Readable` profiles, the built line names the profile's port exactly when it is not 22, and the jump host's `:port` exactly when that port is not 22. A written port reads back as its value. |
| CommandLineReading.ExplicitDefaultPortIsRead | WinSsh/Terminal/SshCommandBuilder.cs:19 | A written ` -p 22` reads as the port 22, and a line without the option reads as no port, so the two are told apart. |
| PromptScan.Append | WinSsh/Terminal/TerminalSession.cs:191-192 | The buffer holds at most 2500 characters, and they are the last min(2500, length) characters of the old buffer followed by the chunk. |
| PromptScan.AppendComposes | WinSsh/Terminal/TerminalSession.cs:191-192 | Appending two chunks one after the other keeps the same buffer as appending their concatenation. |
| PromptScan.Detect | WinSsh/Terminal/TerminalSession.cs:195-218 | The host-key question fires when it occurs anywhere, ignoring case. Otherwise the passphrase request fires when it occurs anywhere. Otherwise `password:` fires when it ends the buffer once trailing whitespace is trimmed. Otherwise nothing fires. Each case is an if-and-only-if. |
| PromptScan.Reply | WinSsh/Terminal/TerminalSession.cs:197-225 | A host-key answer is written trimmed, followed by CR, exactly when it is not blank. A passphrase or password answer is written untouched, followed by CR, exactly when it is not null, including when it is empty. |
| PromptScan.Step | WinSsh/Terminal/TerminalSession.cs:184-227 | An empty decode emits nothing and keeps the buffer. Otherwise the chunk is emitted and the appended buffer is scanned. A fired prompt clears the buffer whether or not a subscriber exists, once it is handled. Otherwise the appended buffer is kept. The subscriber is asked once with the prompt's message, and its reply is written. The pump ends with the buffer uncleared exactly when a prompt fires and the subscriber's call, or the write of a reply, throws. |
| PromptScan.Iterate | WinSsh/Terminal/TerminalSession.cs:173-188 | The loop stops on cancellation, a failed read or an empty read. Otherwise it performs one step on the decoded chunk. |
| PromptScan.EndedRunIgnoresLaterChunks | WinSsh/Terminal/TerminalSession.cs:176-226 | Once an exception from a prompt has ended the pump, further output changes neither the buffer nor the prompts fired. |
| PromptScan.RunStaysWithinWindow | WinSsh/Terminal/TerminalSession.cs:191-192 | Over any run of chunks the buffer never exceeds 2500 characters. |
| PromptScan.QuietRunKeepsWindow | WinSsh/Terminal/TerminalSession.cs:184-192 | While no prompt fires, the buffer is the last 2500 characters of everything decoded, however the output was split into chunks. |
| PromptScan.FiredPromptDoesNotRetrigger | WinSsh/Terminal/TerminalSession.cs:204-226 | After a prompt fires and is handled without an exception, the next scan sees only the next chunk. |
| PromptScan.HostKeyOutranksPassword | WinSsh/Terminal/TerminalSession.cs:195-227 | A buffer showing both the host-key question and a password prompt fires only the host-key prompt. The buffer is cleared exactly when handling that prompt does not throw. |
| Session.ToInt16 | WinSsh/Terminal/TerminalSession.cs:53 | `(short)x` lies in the 16-bit range, differs from x by a multiple of 65536, and equals x when x fits. |
| Session.ConsoleSize | WinSsh/Terminal/TerminalSession.cs:53 | Each coordinate lies in the 16-bit range and differs from the columns or rows by a multiple of 65536, which makes it their 16-bit truncation. It equals them when they fit. |
| Session.TruncationIsUnique | WinSsh/Terminal/TerminalSession.cs:53 | Only one value in the 16-bit range differs from a given integer by a multiple of 65536, so the range and congruence clauses determine the cast's result. |
| Session.ConsoleSizeWraps | WinSsh/Terminal/TerminalSession.cs:53 | Out-of-range sizes wrap around: -1 columns stay -1, and 70000 rows become 4464. |
| Session.Start | WinSsh/Terminal/TerminalSession.cs:37-110 | A session holding a pseudo-console is refused with no change. A start succeeds exactly when nothing fails, leaves a running session whose objects are all live and whose input stream takes writes, and announces `Connected: <line>`. A failure reports the failing call. A failed pipe leaves the session unchanged. Any later failure keeps both pipe ends, and it keeps the pseudo-console and attribute list exactly when it failed after creating the console. Streams, the cancellation source, the pump and the process information are set only after success. |
| Session.FailedLaunchRefusesRestart | WinSsh/Terminal/TerminalSession.cs:39-56 | After a failure past pseudo-console creation, the next start is refused. |
| Session.WriteInput | WinSsh/Terminal/TerminalSession.cs:112-118 | Input is skipped exactly when there is no input stream. It throws on a disposed stream, and otherwise goes to the stream. |
| Session.Resize | WinSsh/Terminal/TerminalSession.cs:120-124 | A resize is skipped exactly when there is no pseudo-console. Otherwise the console is resized to the truncated size. |
| Session.Close | WinSsh/Terminal/TerminalSession.cs:126-158 | The steps are cancel, await the pump, thread, process, output stream, input stream, output pipe, input pipe, attribute list and pseudo-console, in that order. Each kind of step occurs at most once, and the pseudo-console goes last. Each step is taken exactly when its field is set: the cancellation and the wait for the pump, every native value and every disposal. Afterwards the attribute list is zero and the pseudo-console null, and nothing else changes. |
| Session.PumpAwaitedBeforeRelease | WinSsh/Terminal/TerminalSession.cs:126-158 | Closing a running session takes all ten steps: it cancels and awaits the pump first and disposes the pseudo-console last. |
| Session.CloseBeforeStart | WinSsh/Terminal/TerminalSession.cs:126-158 | Closing a session that never started takes no step and changes nothing. |
| Session.SecondCloseSkipsConsoleAndAttributes | WinSsh/Terminal/TerminalSession.cs:149-157 | A second close frees neither the attribute list nor the pseudo-console. |
| Session.WriteAfterCloseThrows | WinSsh/Terminal/TerminalSession.cs:114-144 | After closing a running session, input is not skipped: it hits the disposed stream. |
| Session.RestartAfterClose | WinSsh/Terminal/TerminalSession.cs:39-157 | After a close, a start with no failure succeeds, and its new input stream takes writes even when it reuses a released handle value. |
| Session.SecondCloseClosesThreadAgain | WinSsh/Terminal/TerminalSession.cs:136-141 | As written, a running session closed twice closes its thread handle in both closes. |
| Session.CloseOnce | WinSsh/Terminal/TerminalSession.cs:126-158 | The intended close takes exactly the steps of the as-written close. It leaves the session as that close does, except that the process information is also zeroed. |
| Session.CloseOnceIsIdempotent | WinSsh/Terminal/TerminalSession.cs:136-157 | With the intended close, a second close releases no native value and does not dispose the pseudo-console. |
| ProfilesStore.Load | WinSsh/Profiles/ProfilesStore.cs:30-37 | A missing file and a `null` list load as empty. Otherwise the stored list is loaded. |
| ProfilesStore.Save | WinSsh/Profiles/ProfilesStore.cs:60-70 | Loading what was saved gives the saved list. |
| ProfilesStore.AddProfile | WinSsh/Profiles/ProfilesStore.cs:39-44 | The list grows by one, the old profiles keep their order in front, and the new profile is last. |
| ProfilesStore.AddKeepsUniqueIds | WinSsh/Profiles/ProfilesStore.cs:39-44 | Adding keeps ids unique if and only if the new id is not already stored. |
| ProfilesStore.RemoveAllById | WinSsh/Profiles/ProfilesStore.cs:49 | A profile survives if and only if it was stored and has another id. |
| ProfilesStore.RemoveAllDistributes | WinSsh/Profiles/ProfilesStore.cs:49 | Removal distributes over concatenation, so survivors keep their relative order. |
| ProfilesStore.RemoveAllIdempotent | WinSsh/Profiles/ProfilesStore.cs:49 | Removing twice is the same as removing once. |
| ProfilesStore.DeleteProfile | WinSsh/Profiles/ProfilesStore.cs:46-58 | No remaining profile has the id, and every other profile remains. The argument's own key file is deleted if and only if it is not blank. |
| ProfilesStore.DeleteUndoesAdd | WinSsh/Profiles/ProfilesStore.cs:39-58 | Deleting a profile just added under a new id restores the list exactly. |
| ProfilesStore.UpdateProfile | WinSsh/Profiles/ProfilesStore.cs:72-79 | The update fails if and only if no profile has the id. Otherwise the length is kept, the new profile is last, and exactly one copy of the first match is traded for it. |
| ProfilesStore.UpdateKeepsIdsUnique | WinSsh/Profiles/ProfilesStore.cs:72-79 | An update keeps stored ids unique. |
| ProfilesStore.UpdateFindsNewProfile | WinSsh/Profiles/ProfilesStore.cs:72-79 | After an update, the id finds the new profile. |
| ProfilesStore.UpdateKeepsOtherLookups | WinSsh/Profiles/ProfilesStore.cs:72-79 | After an update, every other id finds what it found before. |
| ProfileDialog.Candidates | WinSsh/Views/ProfileDialog.xaml.cs:65 | A profile is offered if and only if it is in the list and its id differs from the edited profile's. |
| ProfileDialog.CandidatesDistribute | WinSsh/Views/ProfileDialog.xaml.cs:65 | The filter distributes over concatenation, so offered profiles keep list order. |
| ProfileDialog.PopulateJumpHost | WinSsh/Views/ProfileDialog.xaml.cs:56-86 | "None" comes first, followed by one entry per candidate in list order. The selected entry is one of the entries. It carries an id only when a profile is being edited, and then that id is the profile's jump-host id. |
| ProfileDialog.NeverOfferedToItself | WinSsh/Views/ProfileDialog.xaml.cs:64-72 | No entry offers the edited profile as its own jump host. |
| ProfileDialog.SelectedIsOffered | WinSsh/Views/ProfileDialog.xaml.cs:74-78 | A selected jump host is a profile of the list other than the edited one. |
| ProfileDialog.NoneSelectedOnlyWithoutMatch | WinSsh/Views/ProfileDialog.xaml.cs:74-85 | "None" stays selected only when no other profile of the list carries the edited profile's jump-host id. |
| ProfileDialog.InitialPolicy | WinSsh/Views/ProfileDialog.xaml.cs:40-48 | The selected item's content is the profile's policy, or `accept-new` when the policy is blank. Nothing is selected only when no item matches. |
| ProfileDialog.FormFor | WinSsh/Views/ProfileDialog.xaml.cs:29-51 | For a profile, every box shows its field: the name, host and user, a port text that reads back as the port, the key and extra arguments (empty when null), and both check boxes. For a new profile the boxes are empty and the check boxes unset. The host-key drop-down shows the item `InitialPolicy` picks, and the jump-host drop-down the entry `PopulateJumpHost` selects. |
| ProfileDialog.PortOf | WinSsh/Views/ProfileDialog.xaml.cs:99-103 | A port is accepted only when the trimmed text reads as an integer from 1 to 65535. |
| ProfileDialog.ExtraArgsOf | WinSsh/Views/ProfileDialog.xaml.cs:112 | Extra arguments are stored as null exactly when their box is blank. Otherwise they are stored trimmed and non-empty. |
| ProfileDialog.PolicyOf | WinSsh/Views/ProfileDialog.xaml.cs:117-120 | The stored policy is the selected item's content, or `accept-new` when nothing is selected or the item has no content. |
| ProfileDialog.OnPrimary | WinSsh/Views/ProfileDialog.xaml.cs:88-133 | Submission is rejected if and only if the name, host or user is blank or the port is invalid. When accepted, names are stored trimmed and non-empty, blank extra arguments become null, the check boxes count only when checked, and the policy falls back to `accept-new`. The jump-host tag is stored, and a key is imported only when creating with a non-empty key box. Id and size are kept when editing, or are the new id and 120x30 when creating. |
| ProfileDialog.PortReadsBack | WinSsh/Views/ProfileDialog.xaml.cs:99-103 | The port box the dialog fills from a valid port is accepted as that port. |
| ProfileDialog.PolicySelectedOnOpen | WinSsh/Views/ProfileDialog.xaml.cs:40-48 | A profile whose non-blank policy is one of the items opens with that item selected. |
| ProfileDialog.JumpHostSelectedOnOpen | WinSsh/Views/ProfileDialog.xaml.cs:56-86 | A profile opens with its own jump host selected when another profile of the list carries that id, and with "None" when it has no jump host. |
| ProfileDialog.EditUnchangedKeepsProfile | WinSsh/Views/ProfileDialog.xaml.cs:20-133 | Opening the dialog on a profile it could have saved, then submitting unchanged, saves the same profile and imports nothing. |
| ProfileDialog.EditUnchangedDropsUnofferedJumpHost | WinSsh/Views/ProfileDialog.xaml.cs:75-126 | A jump-host id that no candidate carries is cleared by an unchanged submission. |
| ProfileDialog.EditIgnoresKeyBox | WinSsh/Views/ProfileDialog.xaml.cs:127-131 | In edit mode the key box has no effect, and the identity file stays the profile's own. |
| Text.ContainsIgnoreCase | WinSsh/Terminal/TerminalSession.cs:195 | The case-insensitive substring test holds if and only if the phrase matches at some position. |

## Left out

- **UTF-8 decoding.** The incremental decoder's state is a library's and not visible,
  so the decoded chunk is an input to `PromptScan.Step`.
- **Async and threads.** Tasks, awaiting, cancellation tokens and the background pump
  thread are not modelled. One loop iteration is modelled, and close is a
  sequential trace.
- **Native calls.** The kernel calls behind `ConPtyNative` are outside the model. The
  call that fails is the `Fault` parameter and the handles are the `Fresh` parameter
  of `Session.Start`.
- **Process information after a failed launch.** After a failed `CreateProcessW`,
  the model leaves the process information as it was.
- **JSON and file handling.** The store's JSON serialisation, temporary file and
  file copy are left out, and the file is modelled by the list it holds. Writing
  and reading JSON is assumed to give the list back; that is what
  `ProfilesStore.Save` states.
- **Key files.** Key import, deletion and duplication touch the file system and ACLs.
  They appear only as requests, with the imported path as a parameter.
- **Host-key drop-down items.** They are declared in `ProfileDialog.xaml`, which is
  not part of this model, so they are a parameter. The model assumes the XAML
  selects no item by default.
- **Other UI and glue.** The UI glue, the icon field `Symbol`, `DisposeAsync` and the
  rest of the pages hold no logic that is modelled here.
- Text.IsWhiteSpace: only the ASCII whitespace characters are recognised, and case
  folding is ASCII only. The .NET Unicode tables are not modelled.
- Text.TryParseInt32: reads an optional sign followed by decimal digits. Culture
  settings, thousands separators and surrounding whitespace are not modelled; the
  dialog trims the text before parsing.
- CommandLineReading.CommandLineReadsBack: proved only for profiles whose fields
  contain none of the delimiters the reader splits on (`Readable`). Unquoted values
  make other lines ambiguous. A quoted value ending in a backslash cannot be split
  off either: `Quote` itself is injective (`SshCommandBuilder.QuoteInjective`), but a
  reader that finds the value's end as Windows does takes the final backslash-quote
  for an escaped quote. `CommandLineReading.TrailingBackslashBreaksQuote` exhibits
  one such line.
- CommandLineReading.PortWrittenOnlyOffDefault: a corollary of the round trip, so it
  carries the same `Readable` restriction.
- CommandLineReading.QuoteReadsBack: holds only for values that do not end with a
  backslash, because the reader cannot find where such a value ends.
- SshCommandBuilder.PolicySegment: the host-key policy is a non-null string here. A
  `null` policy, which loading a stored profile can produce, is represented as the
  empty string. The builder treats both as blank, so the line is the same.
- PromptScan.Append: counts Unicode scalar values, whereas `_recent.Length` and
  `_recent[^2500..]` count UTF-16 code units. The window differs on text outside the
  Basic Multilingual Plane (emoji, for one), where .NET counts each character twice
  and may cut a surrogate pair in half.
- PromptScan.Step: an exception thrown by an `OutputText` subscriber, which also
  ends the pump, is not modelled; only the prompt subscriber's and the reply write's
  exceptions are.
- ProfilesStore.DeleteProfile: returns the shrunk list and the key file to delete
  together. The source deletes the key file before saving, so a failed key deletion
  leaves the list unsaved; that ordering is not modelled.
- ProfileDialog.EditUnchangedKeepsProfile: covers only profiles the dialog could
  itself have saved (`SavedByDialog`). Any other profile is normalised on save.
- Session.Close: `Dispose` of the managed streams, pipe ends and pseudo-console is
  idempotent in .NET, so repeated disposals in a second close are recorded but not
  treated as a fault.

## Findings

| source | as written | input that shows it | evidently intended | confidence | as-written member | corrected member |
|---|---|---|---|---|---|---|
| WinSsh/Terminal/TerminalSession.cs:136-141 | `CloseAsync` closes the thread and process handles whenever they are non-zero, but never resets `_pi`. | A session started successfully and then closed twice: the second close calls `CloseHandle` on the same thread and process values again. | Closing twice is a no-op that releases nothing a second time, so `_pi` is reset after its handles are closed. | medium, not executed | Session.SecondCloseClosesThreadAgain | Session.CloseOnce |
