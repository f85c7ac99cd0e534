# ffxi-login-rs, modelled in Dafny

ffxi-login-rs logs several Final Fantasy XI characters in, one after another. It
removes stale hosts-file entries left by an earlier crash. Then it launches one
Windower instance per character (phase 1) and waits for each new "PlayOnline Viewer"
window. With the local redirect proxy running and the hosts-file entry in place, it
then types each character's login into that character's window (phase 2). After every
failed login it cleans up and asks the operator whether to retry or skip.

The model has these modules:

- `Config` (`config.dfy`): regions, their proxy ports and hosts entry, validation of
  the configuration, and the character filter.
- `Hosts` (`hosts.dfy`): the hosts file as a `HostsFile` object whose `contents` the
  methods rewrite. A failed access leaves the file unchanged or partly written. Rust's `str::lines` and `join` are spelled out. Properties proved:
  - after `remove_entries` no line carries the marker;
  - `remove_entries` keeps the unmarked lines in order;
  - `add_entry` followed by `remove_entries` gives the file back;
  - removal is idempotent under a stated condition, and fails to be without it.
- `LoginBin` (`login_bin.dfy`): reading `login_w.bin` and the slot navigation steps.
- `Proxy` (`proxy.dfy`): the HTTP response the redirect proxy serves. It is checked
  against an independent parser of HTTP/1.1 messages (section 5 of RFC 9110 for
  fields, section 8.6 for `Content-Length`). The parser accepts a strict subset of
  that field grammar: a name, a colon and exactly one space before the value. Any
  further whitespace is kept as part of the value and is not trimmed.
- `LauncherSpec` (`launcher_spec.dfy`): the launcher's behaviour as traces of
  abstract effects (`Event`), plus the properties of those traces.
  - Each Win32 call, sleep, process start, proxy start, hosts-file edit and operator
    prompt is one event.
  - What the environment answers is read, in order, from an `Environment` of answer
    sequences: the windows that exist, whether a launch or an edit succeeds, what the
    operator types.
- `Launcher` (`launcher.dfy`): the launcher itself. The class `Session` holds the trace
  and performs the Rust functions call by call, with the same loops.
  - `Session.Valid()` states that every answer recorded in the trace is the
    environment's answer for that call.
  - Each method is proved to extend the trace by exactly the events `LauncherSpec`
    prescribes for it.
- `Wrappers`, `Seqs` and `Text` hold the general-purpose pieces:
  - `Option` and `Result`;
  - filtering, subsequences and repetition;
  - ASCII case folding and whitespace trimming as Rust defines them.

## Model

| member | source | states |
|---|---|---|
| Config.ProxyPort | src/config.rs:29-35 | US listens on 51304, JP on 51300, EU on 51302 (each an if-and-only-if); every port fits in a `u16` |
| Config.ProxyPortInjective | src/config.rs:29-35 | two regions with the same proxy port are the same region |
| Config.HostsEntry | src/config.rs:37-40 | the entry is `127.0.0.1 ` followed by `wh000.pol.com` and contains no line break |
| Config.HostsEntryIndependentOfRegion | src/config.rs:37-40 | every region gets the same hosts entry |
| Config.FirstInvalidSlot | src/config.rs:55-63 | the index where the slot loop stops is the first character whose slot is outside 1..20; none exactly when all slots are valid |
| Config.Validate | src/config.rs:51-68 | Ok exactly when there are characters, all slots are in 1..20 and the stagger delay is positive; each error occurs exactly when its check is the first that fails; `InvalidSlot` names the first offending character and its slot |
| Config.ValidateIgnoresLaunchDelay | src/config.rs:51-68 | the launch delay never changes the verdict of validation |
| Config.FilterCharacters | src/config.rs:70-79 | with no names every character is kept. Otherwise a character is kept exactly when some name matches it, ignoring ASCII case, and then as many times as it occurs in the configuration. The result keeps configuration order and adds nothing |
| Text.EqIgnoreAsciiCaseIsLowercaseEquality | src/config.rs:76 | comparing ignoring ASCII case is the same as comparing the ASCII-lowercased strings |
| LoginBin.ReadLoginBin | src/login_bin.rs:18-43 | success exactly when the file opens and reaches offset 0x6F; the slot is the byte at 0x64 and auto-login is "the byte at 0x6F is non-zero"; a missing file or a short file gives the matching error at the right offset |
| LoginBin.ReadLoginBinReadsTwoBytes | src/login_bin.rs:23-34 | two files of the same length that agree on the slot byte and on whether the auto-login byte is zero read the same |
| LoginBin.WalkRepeat | src/login_bin.rs:48-51 | n moves in one direction change the position by n in that direction |
| LoginBin.NavigationSteps | src/login_bin.rs:46-55 | the step count is the distance between the slots, all Down when moving to a higher slot and all Up when moving to a lower one, and walking the steps from the current slot ends at the target |
| Proxy.AsciiUtf8Length | src/proxy.rs:14 | for ASCII text the UTF-8 octet count equals the character count |
| Proxy.DecimalRoundTrip | src/proxy.rs:13-14 | parsing the decimal rendering of a number gives the number back |
| Proxy.ParseSerialize | src/proxy.rs:12-16 | a message with non-empty field names, once serialised, parses back to the same status line, fields and body |
| Proxy.ResponseIsRedirectMessage | src/proxy.rs:12-16 | whatever request was read, the response written is the serialised redirect message |
| Proxy.StartsWithStatusLine | src/proxy.rs:13 | the response begins with `HTTP/1.1 200 OK` and CRLF |
| Proxy.ResponseFraming | src/proxy.rs:12-16 | the response parses as one message with status line `HTTP/1.1 200 OK` whose body is exactly `PML_BODY` |
| Proxy.ContentLengthIsBodyLength | src/proxy.rs:13-14 | the `Content-Length` field is present and its value parses to the body's octet count, which is its character count |
| Proxy.ContentTypeAndConnection | src/proxy.rs:5-13 | the `Content-Type` field is the PML content type that the body itself declares, and the `Connection` field is `close` |
| Proxy.BodyDeclaresContentType | src/proxy.rs:5 | the PML body declares the same content type that the `Content-Type` field sends |
| Hosts.HostsFile.AddEntry | src/hosts.rs:8-18 | Ok exactly when the access completes. The file then becomes what `AfterAdd` gives for how the access ended |
| Hosts.HostsFile.RemoveEntries | src/hosts.rs:21-31 | Ok exactly when the access completes. The file then becomes what `AfterRemove` gives for how the access ended |
| Hosts.HostsFile.CleanupStale | src/hosts.rs:35-39 | leaves the file as `remove_entries` does, with the error swallowed |
| Hosts.AfterAdd | src/hosts.rs:8-18 | a completed append adds the entry, a space, the marker and a newline. A failed open leaves the file unchanged. A failed `write_all` leaves the old text plus a proper prefix of that line |
| Hosts.AfterRemove | src/hosts.rs:21-31 | a completed rewrite gives the unmarked lines joined by newlines, plus a final newline. A failed read or `File::create` leaves the file unchanged. A failed write after the truncation leaves a proper prefix of the rewritten text, cut at a character boundary |
| Hosts.TruncatedRewriteUnmarked | src/hosts.rs:22-28 | once the read has succeeded and the file has been truncated, no line of it carries the marker, even if the rewrite then fails partway |
| Hosts.EntryLineLines | src/hosts.rs:9 | after a newline, the appended entry line reads back as exactly one line, and that line carries the marker |
| Hosts.LinesHaveNoNewline | src/hosts.rs:24 | no line that `lines()` yields contains a newline |
| Hosts.LinesOfJoined | src/hosts.rs:24-28 | lines that contain no newline, joined by newlines plus a final newline, split back into themselves, each less one trailing CR |
| Hosts.JoinLines | src/hosts.rs:24-28 | a newline-terminated text without CR is its own lines joined by newlines, plus a final newline |
| Hosts.RemoveMarkedLines | src/hosts.rs:22-28 | the lines of the rewritten file are the kept lines (each less one trailing CR), or one empty line when nothing was kept |
| Hosts.RemoveKeepsUnmarkedLines | src/hosts.rs:23-26 | the kept lines are a subsequence of the file's lines; a line is kept exactly when it has no marker; each unmarked line is kept as often as it occurs |
| Hosts.RemoveMarkedIsClean | src/hosts.rs:21-31 | after removal no line carries the marker and the file ends with a newline |
| Hosts.RemoveMarkedIdempotent | src/hosts.rs:21-31 | removing twice equals removing once when no kept line ends in CR |
| Hosts.RemoveNotIdempotentWithDoubleCR | src/hosts.rs:23-28 | `a\r\r\n` becomes `a\r\n` after one removal and `a\n` after a second |
| Hosts.AddThenRemoveRestores | src/hosts.rs:8-31 | on a newline-terminated file without CR or marked lines, adding an entry and then removing entries restores the file |
| Hosts.GluedLastLineLost | src/hosts.rs:8-31 | if the file lacks a final newline, the entry is glued onto its last line and removal deletes that line as well |
| Launcher.FindNewWindow | src/launcher.rs:118-126 | the loop returns the first enumerated window that is neither in the snapshot nor claimed |
| LauncherSpec.FirstNew | src/launcher.rs:118-126 | a found window was enumerated, is not in the snapshot and is not claimed, and every window before it is; none is found exactly when every window is in the snapshot or claimed |
| LauncherSpec.FirstNewAt | src/launcher.rs:119-124 | the first unclaimed window outside the snapshot is the one found |
| Launcher.Session.FindWindows | src/launcher.rs:51 | returns the environment's next enumeration and records it |
| Launcher.Session.StartWindower | src/launcher.rs:108-111 | the process starts as the environment answers, and the start is recorded with its path and profile argument |
| Launcher.Session.StartProxyServer | src/launcher.rs:201-202 | the proxy starts on the port as the environment answers |
| Launcher.Session.AddHostsEntry | src/launcher.rs:205-206 | the outcome recorded is the environment's answer for this edit. The hosts file becomes what `AfterAdd` gives for that outcome |
| Launcher.Session.RemoveHostsEntries | src/launcher.rs:284-285 | the outcome recorded is the environment's answer for this edit. The hosts file becomes what `AfterRemove` gives for that outcome |
| Launcher.Session.CleanupStale | src/launcher.rs:21 | records the stale-entry removal with the environment's answer for it. The hosts file becomes what `AfterRemove` gives for that answer |
| Launcher.Session.AskOperator | src/launcher.rs:181-186 | the answer is the environment's next line or read error, and it is recorded |
| Launcher.Session.PollOnce | src/launcher.rs:116-126 | sleeps 500 ms, enumerates, and returns the first new window of that enumeration |
| Launcher.Session.PollForWindow | src/launcher.rs:113-130 | at most 60 polls, stopping at the first poll that finds a window; the result is what that last poll found |
| LauncherSpec.PollEventsCounts | src/launcher.rs:115-118 | polling enumerates once and sleeps 500 ms once per poll, and does nothing else |
| Launcher.Session.LaunchSingle | src/launcher.rs:99-141 | one process start; no polling if it fails; otherwise polling, then a rename to `PlayOnline Viewer - <name>` exactly when a window was found; the result is that window, `ProcessFailed` or `TimedOut` |
| LauncherSpec.LaunchAttemptBounds | src/launcher.rs:108-130 | one attempt starts one process, enumerates at most 60 times and sleeps at most 30 s while polling |
| LauncherSpec.LaunchAttemptOutcome | src/launcher.rs:132-140 | a time-out happens only after 60 polls and renames nothing; a success ends by renaming the found window |
| Launcher.Session.LaunchWithRetry | src/launcher.rs:75-97 | at most two attempts, a second only after the first failed; the result is the last attempt's window |
| LauncherSpec.RetriedSnoc | src/launcher.rs:82-94 | another attempt after failures only yields that attempt's window, or none |
| LauncherSpec.RetryLaunchCount | src/launcher.rs:82-94 | each attempt starts exactly one process, and a retry does nothing but launch-phase effects |
| LauncherSpec.RetryBounds | src/launcher.rs:82-96 | a retry starts at most two processes, and exactly two when it gives up |
| LauncherSpec.RetryOutcomeIsNew | src/launcher.rs:119-124 | a returned window was in the last enumeration and is neither in the snapshot nor claimed |
| Launcher.Session.PauseUnlessLast | src/launcher.rs:67-69 | the delay is slept after every character but the last |
| LauncherSpec.PacedSnoc | src/launcher.rs:66-69 | one more character's events are followed by the delay unless that character is the last |
| Launcher.Session.Phase1Launch | src/launcher.rs:43-73 | takes the snapshot first, launches every character in order against the windows claimed before it, separates consecutive launches by the launch delay, and returns the characters whose launch found a window |
| LauncherSpec.SuccessesSnoc | src/launcher.rs:56-64 | the next character is appended with its window when its launch succeeded, and skipped otherwise |
| LauncherSpec.ClaimedHandles | src/launcher.rs:56-60 | the windows claimed so far are the windows of the characters launched so far |
| LauncherSpec.SuccessesInOrder | src/launcher.rs:53-72 | the launched characters form a subsequence of the input; each carries the window its own launch found; every successful launch is included |
| LauncherSpec.Phase1Fresh | src/launcher.rs:50-72 | no two launched characters share a window, and no launched window existed before phase 1 |
| LauncherSpec.Phase1OnlyLaunches | src/launcher.rs:43-73 | phase 1 only starts processes, sleeps, enumerates and renames; it never touches the proxy, the hosts file or input |
| Launcher.Session.SendFocus | src/launcher.rs:214-216 | focuses the window, moves the cursor onto it, then waits 500 ms |
| Launcher.Session.SendReset | src/launcher.rs:220-223 | twenty wheel scrolls up, then a 300 ms wait |
| Launcher.Session.SendSlot | src/launcher.rs:226-231 | exactly `slot` DOWN presses held 200 ms each |
| Launcher.Session.SendConfirm | src/launcher.rs:234-251 | four ENTER presses, each followed by 1.5 s |
| Launcher.Session.SendPasswordField | src/launcher.rs:254-259 | UP, RIGHT, RIGHT, ENTER, then 500 ms |
| Launcher.Session.SendPassword | src/launcher.rs:262-269 | types the password, waits, presses ENTER, waits |
| Launcher.Session.SendConnect | src/launcher.rs:272-275 | DOWN, ENTER, then 500 ms |
| Launcher.Session.RunScript | src/launcher.rs:211-275 | sends the whole login script in the source's order |
| LauncherSpec.LoginScriptInputs | src/launcher.rs:218-275 | the script's input is 20 scrolls, `slot` DOWNs, then the confirmation, password-field, password and connect keys |
| LauncherSpec.SlotSelection | src/launcher.rs:218-235 | the first ENTER comes right after exactly `slot` DOWN presses that follow the 20 scrolls, and no ENTER comes earlier |
| LauncherSpec.ScriptEventsOnly | src/launcher.rs:211-275 | the script only focuses, moves the cursor, scrolls, presses keys, types and sleeps |
| Launcher.Session.ScriptedLogin | src/launcher.rs:209-287 | blocks input, runs the script, unblocks input, joins the proxy and removes the hosts entries. The file becomes what `AfterRemove` gives for how the removal ended. A successful removal leaves no marked line |
| Launcher.Session.LoginSingle | src/launcher.rs:195-288 | a proxy failure stops before the hosts file and leaves it unchanged. A failed add stops before input is blocked and leaves the file as `AfterAdd` gives for that failure. Otherwise the file is the old text plus the entry line, after the removal as it ended. Success exactly when the script ran and the removal succeeded, which leaves the hosts file unmarked |
| LauncherSpec.AttemptResources | src/launcher.rs:200-287 | the proxy, hosts-file and input effects of each way a login attempt can end, in order |
| LauncherSpec.CompletedResources | src/launcher.rs:200-287 | a completed attempt's resource effects: proxy start, entry added, input blocked, input unblocked, proxy joined, entries removed |
| LauncherSpec.AttemptAsksNothing | src/launcher.rs:195-288 | a login attempt never prompts the operator |
| Launcher.Session.AfterFailure | src/launcher.rs:177-186 | unblocks input, removes the hosts entries, then asks the operator exactly once. The file becomes what `AfterRemove` gives for the environment's answer, and a successful cleanup leaves no marked line |
| Launcher.Session.LoginRound | src/launcher.rs:172-190 | a success ends the loop with the hosts file unmarked. A failure is followed by cleanup and one answer, and stops exactly when that answer stops. After a failure whose cleanup succeeded, the hosts file has no marked line |
| LauncherSpec.RetryingSnoc | src/launcher.rs:171-192 | after a failed round the loop goes on exactly when the answer retries, and the run is well formed when it stops |
| Launcher.Session.LoginWithRetry | src/launcher.rs:165-193 | every round but a final success failed, and every answer before the last retries. The result is Ok exactly after a success. When the run ends with a success or with a successful cleanup, the hosts file has no marked line |
| LauncherSpec.EmptyLineRetries | src/launcher.rs:187 | Enter alone retries |
| LauncherSpec.StopsExactly | src/launcher.rs:184-189 | for every answer: a read error stops, and a line stops exactly when its trimmed, ASCII-lowercased text is `skip` |
| LauncherSpec.SkipStops | src/launcher.rs:184-189 | `skip` stops, and so does a read error |
| LauncherSpec.PaddedUpperSkipStops | src/launcher.rs:187 | ` SKIP` followed by CRLF stops: the answer is trimmed and compared ignoring ASCII case |
| LauncherSpec.LongerWordRetries | src/launcher.rs:187 | only the whole word stops: `skipped` retries |
| LauncherSpec.CleanupBeforePrompt | src/launcher.rs:174-188 | each prompt comes right after input is unblocked and the hosts entries are removed |
| LauncherSpec.InputAlwaysUnblocked | src/launcher.rs:177-278 | every `block_input(true)` is followed by `block_input(false)` before any other proxy, hosts-file or input effect |
| Launcher.Session.Phase2Login | src/launcher.rs:143-163 | logs in every launched character in order through the retry loop, with the stagger delay between consecutive characters. When the last character's run ends with a successful removal, the hosts file is left with no marked line |
| LauncherSpec.LoginRunsSnoc | src/launcher.rs:146-152 | one more character's login run extends the runs recorded so far |
| LauncherSpec.Phase2Stagger | src/launcher.rs:154-161 | phase 2 sleeps the stagger delay once between each pair of consecutive characters, and ends with the last character's run |
| LauncherSpec.Phase2Safe | src/launcher.rs:143-193 | over all of phase 2, input is never left blocked and every prompt follows the cleanup |
| Launcher.Session.Run | src/launcher.rs:19-41 | removes stale entries first, runs phase 1, and runs phase 2 after a 5 s wait exactly when phase 1 launched someone. With no one launched, the file is what the stale-entry removal left. Otherwise the file ends unmarked when the last character's run ends with a successful removal |
| LauncherSpec.RunOrder | src/launcher.rs:19-30 | the stale-entry cleanup is the first effect; when nobody was launched, nothing after it touches the proxy, the hosts file or input |

## Left out

- The Win32 layer (`src/win32.rs`) is not part of this model. Window enumeration,
  process launch, focus, cursor, scroll, key presses, typing, `block_input` and renames
  are events in the trace, and their outcomes come from the `Environment` parameter.
- Time is not modelled: `thread::sleep` is a `Delay` event carrying its milliseconds.
- Networking is not modelled: `bind_with_reuse`, `accept` and the proxy thread are
  left out. Starting the proxy is an event whose success the environment decides. The
  request bytes are a parameter that the response ignores, and joining the proxy
  thread is an event.
- The proxy thread that is never joined when `add_entry` fails (it keeps listening) is
  not modelled.
- Logging, `println!`, `log::…` and `FileLogger::log_error` are left out because they
  have no effect on behaviour. `src/logging.rs`, `src/main.rs`, `Config::load` (JSON
  parsing) and `run_record_mode` are not part of this model.
- The hosts file is a `HostsFile` object rather than the fixed path `HOSTS_PATH`.
  How each access ends is the caller's argument (`IoOutcome`). The access either
  completes, fails before writing, or fails partway through the write.
- Hosts.AfterAdd: a partial write is counted in characters, not in UTF-8 bytes. The
  entry line is ASCII, so the two counts agree.
- Hosts.AfterRemove: a partial rewrite is cut at a character boundary. The kept lines
  are the user's own text and may hold multi-byte UTF-8 characters. A write that stops
  inside such a character leaves invalid UTF-8, which the next `read_to_string`
  rejects. That state is not represented.
- Launcher.Session.Phase2Login: the hosts file is stated only when the last character's
  run ends with a successful removal. After a failed last cleanup it holds whatever
  that cleanup left, which may still include the entry line.
- Launcher.Session.Run: with someone launched, the hosts file is stated only when the
  last character's run ends with a successful removal, as for `Phase2Login`.
- Launcher.Session.Valid: ties the recorded answers to the environment. The hosts
  file's contents are tied to the trace only by each method's own postcondition, not by
  a class invariant over the whole run.
- Launcher.Session.LoginWithRetry: in the source, end of input on standard input makes
  `read_line` return an empty line. That line retries, so the source loops forever. In
  the model, once the environment's answers are exhausted the read fails, so the loop
  always ends.
- Hosts.RemoveMarkedIdempotent: proved only when no kept line ends in a carriage
  return. `Hosts.RemoveNotIdempotentWithDoubleCR` shows that two removals differ
  otherwise.
- `Character` has a `password` field and `Config` a `windowerProfile` field, because
  `src/launcher.rs` reads them (lines 106 and 262-263). `src/config.rs`
  declares neither, so the model follows the launcher's use of them.
- Window handles are unbounded integers. A launch's delay is slept as whole
  milliseconds; the `u64` seconds times 1000 is not checked for overflow.
