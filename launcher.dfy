/** `src/launcher.rs`: the launcher itself. A `Session` performs the effects of the
    Rust functions one call at a time, recording each in its trace and taking the
    environment's answers in order; every method is proved to leave the trace that
    module `LauncherSpec` describes, where the properties of those traces are proved. */
module Launcher {
  import opened Wrappers
  import Seqs
  import Hosts
  import opened Config
  import opened LauncherSpec

  /** The discovery loop of `launch_single`: the first enumerated window that is neither
      in the snapshot nor already claimed by a launched character. */
  method FindNewWindow(ws: seq<Handle>, existing: seq<Handle>, claimed: seq<Handle>) returns (r: Option<Handle>)
    ensures r == FirstNew(ws, existing, claimed)
  {
    var i := 0;
    while i < |ws|
      invariant i <= |ws|
      invariant forall j :: 0 <= j < i ==> ws[j] in existing || ws[j] in claimed
    {
      var isExisting := ws[i] in existing;
      var isAlreadyLaunched := ws[i] in claimed;
      if !isExisting && !isAlreadyLaunched {
        FirstNewAt(ws, existing, claimed, i);
        return Some(ws[i]);
      }
      i := i + 1;
    }
    return None;
  }

  /** One run of the launcher against an environment, with the hosts file it edits. */
  class Session {
    const env: Environment
    const hosts: Hosts.HostsFile
    var trace: seq<Event>

    /** The recorded answers are the environment's. */
    ghost predicate Valid()
      reads this
    {
      Faithful(env, trace)
    }

    constructor (env: Environment, hosts: Hosts.HostsFile)
      ensures this.env == env && this.hosts == hosts
      ensures trace == [] && Valid()
    {
      this.env := env;
      this.hosts := hosts;
      trace := [];
    }

    // ---- the environment's capabilities ----

    /** An effect that asks nothing: a sleep, a rename, focus, cursor and input calls,
        `block_input`, the proxy join. */
    method Act(e: Event)
      requires Valid() && IsAction(e)
      modifies this
      ensures Valid() && trace == old(trace) + [e]
    {
      Snoc(env, trace, e);
      trace := trace + [e];
    }

    /** `find_windows_by_title_prefix("PlayOnline Viewer")`. */
    method FindWindows() returns (ws: seq<Handle>)
      requires Valid()
      modifies this
      ensures Valid() && ws == WindowsAt(env, Asked(old(trace), Windows))
      ensures trace == old(trace) + [Enumerate(ws)]
    {
      ws := WindowsAt(env, Asked(trace, Windows));
      Snoc(env, trace, Enumerate(ws));
      trace := trace + [Enumerate(ws)];
    }

    /** `launch_process`. */
    method StartWindower(path: string, arg: Option<string>) returns (ok: bool)
      requires Valid()
      modifies this
      ensures Valid() && ok == LaunchOkAt(env, Asked(old(trace), Launch))
      ensures trace == old(trace) + [LaunchProcess(path, arg, ok)]
    {
      ok := LaunchOkAt(env, Asked(trace, Launch));
      Snoc(env, trace, LaunchProcess(path, arg, ok));
      trace := trace + [LaunchProcess(path, arg, ok)];
    }

    /** `proxy::start_proxy`. */
    method StartProxyServer(port: nat) returns (ok: bool)
      requires Valid()
      modifies this
      ensures Valid() && ok == ProxyOkAt(env, Asked(old(trace), Proxy))
      ensures trace == old(trace) + [StartProxy(port, ok)]
    {
      ok := ProxyOkAt(env, Asked(trace, Proxy));
      Snoc(env, trace, StartProxy(port, ok));
      trace := trace + [StartProxy(port, ok)];
    }

    /** `hosts::add_entry`. */
    method AddHostsEntry(entry: string) returns (ok: bool)
      requires Valid()
      modifies this, hosts
      ensures Valid() && ok == HostsOkAt(env, Asked(old(trace), HostsEdit))
      ensures trace == old(trace) + [AddEntry(entry, ok)]
      ensures hosts.contents == Hosts.AfterAdd(old(hosts.contents), entry, HostsIoAt(env, Asked(old(trace), HostsEdit)))
    {
      var r := hosts.AddEntry(entry, HostsIoAt(env, Asked(trace, HostsEdit)));
      ok := r.Ok?;
      Snoc(env, trace, AddEntry(entry, ok));
      trace := trace + [AddEntry(entry, ok)];
    }

    /** `hosts::remove_entries`. */
    method RemoveHostsEntries() returns (ok: bool)
      requires Valid()
      modifies this, hosts
      ensures Valid() && ok == HostsOkAt(env, Asked(old(trace), HostsEdit))
      ensures trace == old(trace) + [RemoveEntries(ok)]
      ensures hosts.contents == Hosts.AfterRemove(old(hosts.contents), HostsIoAt(env, Asked(old(trace), HostsEdit)))
    {
      var r := hosts.RemoveEntries(HostsIoAt(env, Asked(trace, HostsEdit)));
      ok := r.Ok?;
      Snoc(env, trace, RemoveEntries(ok));
      trace := trace + [RemoveEntries(ok)];
    }

    /** `hosts::cleanup_stale`: the removal, with its failure swallowed. */
    method CleanupStale()
      requires Valid()
      modifies this, hosts
      ensures Valid()
      ensures trace == old(trace) + [RemoveEntries(HostsOkAt(env, Asked(old(trace), HostsEdit)))]
      ensures hosts.contents == Hosts.AfterRemove(old(hosts.contents), HostsIoAt(env, Asked(old(trace), HostsEdit)))
    {
      var ok := HostsOkAt(env, Asked(trace, HostsEdit));
      hosts.CleanupStale(HostsIoAt(env, Asked(trace, HostsEdit)));
      Snoc(env, trace, RemoveEntries(ok));
      trace := trace + [RemoveEntries(ok)];
    }

    /** The retry/skip prompt and `read_line` on standard input. */
    method AskOperator() returns (a: Answer)
      requires Valid()
      modifies this
      ensures Valid() && a == AnswerAt(env, Asked(old(trace), Operator))
      ensures trace == old(trace) + [Prompt(a)]
    {
      a := AnswerAt(env, Asked(trace, Operator));
      Snoc(env, trace, Prompt(a));
      trace := trace + [Prompt(a)];
    }

    // ---- phase 1 ----

    /** One iteration of the poll loop of `launch_single`: sleep, enumerate, look for a
        window that is neither in the snapshot nor claimed. */
    method PollOnce(existing: seq<Handle>, claimed: seq<Handle>) returns (found: Option<Handle>, ghost ws: seq<Handle>)
      requires Valid()
      modifies this
      ensures Valid() && found == FirstNew(ws, existing, claimed)
      ensures trace == old(trace) + [Delay(PollIntervalMs), Enumerate(ws)]
    {
      Act(Delay(PollIntervalMs));
      var allWindows := FindWindows();
      ws := allWindows;
      found := FindNewWindow(allWindows, existing, claimed);
    }

    /** The poll loop of `launch_single`: at most 60 polls, stopping at the first that
        finds a new window. */
    method PollForWindow(existing: seq<Handle>, claimed: seq<Handle>)
      returns (newHwnd: Option<Handle>, ghost polls: seq<seq<Handle>>)
      requires Valid()
      modifies this
      ensures Valid() && WellFormedLaunch(LaunchAttempt(true, polls), existing, claimed)
      ensures newHwnd == Found(polls, existing, claimed)
      ensures trace == old(trace) + PollEvents(polls)
    {
      polls := [];
      newHwnd := None;
      var i := 0;
      while i < MaxPolls && newHwnd.None?
        invariant i <= MaxPolls && |polls| == i
        invariant Valid()
        invariant trace == old(trace) + PollEvents(polls)
        invariant newHwnd == Found(polls, existing, claimed)
        invariant forall k :: 0 <= k < |polls| - 1 ==> FirstNew(polls[k], existing, claimed).None?
      {
        ghost var ws;
        newHwnd, ws := PollOnce(existing, claimed);
        FruitlessSnoc(polls, ws, existing, claimed);
        PollEventsSnoc(polls, ws);
        assert (polls + [ws])[..i] == polls;
        polls := polls + [ws];
        i := i + 1;
      }
    }

    /** `launch_single`: start Windower, poll for a new window, rename it. */
    method LaunchSingle(cfg: Config, ch: Character, existing: seq<Handle>, claimed: seq<Handle>)
      returns (r: Result<Handle, LaunchError>, ghost attempt: LaunchAttempt)
      requires Valid()
      modifies this
      ensures Valid() && WellFormedLaunch(attempt, existing, claimed)
      ensures r == LaunchOutcome(attempt, existing, claimed)
      ensures trace == old(trace) + LaunchEvents(cfg, ch, existing, claimed, attempt)
    {
      var ok := StartWindower(cfg.windowerPath, ProfileArg(cfg.windowerProfile));
      if !ok {
        attempt := LaunchAttempt(false, []);
        return Err(ProcessFailed), attempt;
      }
      var newHwnd, polls := PollForWindow(existing, claimed);
      attempt := LaunchAttempt(true, polls);
      if newHwnd.None? {
        return Err(TimedOut), attempt;
      }
      Act(SetWindowTitle(newHwnd.value, WindowTitle(ch.name)));
      r := Ok(newHwnd.value);
    }

    /** `launch_with_retry`: at most two attempts, stopping at the first success. */
    method LaunchWithRetry(cfg: Config, ch: Character, existing: seq<Handle>, claimed: seq<Handle>)
      returns (r: Option<Handle>, ghost attempts: seq<LaunchAttempt>)
      requires Valid()
      modifies this
      ensures Valid() && WellFormedRetry(attempts, existing, claimed)
      ensures r == RetryOutcome(attempts, existing, claimed)
      ensures trace == old(trace) + RetryEvents(cfg, ch, existing, claimed, attempts)
    {
      attempts := [];
      r := None;
      var attempt := 0;
      while attempt < LaunchAttempts && r.None?
        invariant attempt <= LaunchAttempts && |attempts| == attempt
        invariant Valid()
        invariant RetriedSoFar(attempts, existing, claimed)
        invariant r == RetryOutcome(attempts, existing, claimed)
        invariant trace == old(trace) + RetryEvents(cfg, ch, existing, claimed, attempts)
      {
        var res, a := LaunchSingle(cfg, ch, existing, claimed);
        RetryEventsSnoc(cfg, ch, existing, claimed, attempts, a, old(trace));
        RetriedSnoc(attempts, a, existing, claimed);
        attempts := attempts + [a];
        attempt := attempt + 1;
        r := if res.Ok? then Some(res.value) else None;
      }
    }

    /** The pause between consecutive characters: none after the last. */
    method PauseUnlessLast(pause: Event, i: nat, n: nat)
      requires Valid() && IsAction(pause)
      modifies this
      ensures Valid() && trace == old(trace) + if i < n - 1 then [pause] else []
    {
      if i < n - 1 {
        Act(pause);
      }
    }

    /** `phase1_launch`: snapshot the existing windows, then launch each character in
        order, keeping the ones that got a window, with the launch delay between
        consecutive characters. */
    method Phase1Launch(cfg: Config, chars: seq<Character>)
      returns (launched: seq<LaunchedCharacter>, ghost existing: seq<Handle>,
               ghost attemptss: seq<seq<LaunchAttempt>>, ghost outcomes: seq<Option<Handle>>,
               ghost logs: seq<seq<Event>>, ghost t: seq<Event>)
      requires Valid()
      modifies this
      ensures Valid() && Phase1Run(cfg, chars, existing, attemptss, outcomes, logs, t)
      ensures launched == Successes(chars, outcomes)
      ensures trace == old(trace) + t
    {
      launched := [];
      var existingWindows := FindWindows();
      existing := existingWindows;
      attemptss, outcomes, logs := [], [], [];
      var pause := Delay(cfg.launchDelaySeconds * 1000);
      var i := 0;
      while i < |chars|
        invariant i == |outcomes| && Valid()
        invariant LaunchRunsUpTo(cfg, chars, existing, attemptss, outcomes, logs)
        invariant launched == Successes(chars[..i], outcomes)
        invariant trace == old(trace) + [Enumerate(existing)] + Paced(logs, pause, |chars|)
      {
        ghost var before := trace;
        ClaimedHandles(chars[..i], outcomes);
        var found, attempts := LaunchWithRetry(cfg, chars[i], existingWindows, Handles(launched));
        ghost var log := RetryEvents(cfg, chars[i], existing, Handles(launched), attempts);
        LaunchRunsSnoc(cfg, chars, existing, attemptss, outcomes, logs, attempts, found, log);
        SuccessesSnoc(chars, outcomes, found);
        launched := launched + if found.Some? then [LaunchedCharacter(chars[i], found.value)] else [];
        PauseUnlessLast(pause, i, |chars|);
        PacedSnoc(logs, log, pause, |chars|);
        Reassociate(old(trace) + [Enumerate(existing)], Paced(logs, pause, |chars|), log,
                if i < |chars| - 1 then [pause] else []);
        attemptss, outcomes, logs := attemptss + [attempts], outcomes + [found], logs + [log];
        i := i + 1;
      }
      assert chars[..i] == chars;
      PacedDone(logs, pause);
      t := [Enumerate(existing)] + Separated(logs, pause);
    }

    // ---- phase 2 ----

    /** Focus the window, move the cursor onto it, wait. */
    method SendFocus(hwnd: Handle)
      requires Valid()
      modifies this
      ensures Valid() && trace == old(trace) + ScriptFocus(hwnd)
    {
      Act(FocusWindow(hwnd));
      Act(MoveCursorToWindow(hwnd));
      Act(Delay(500));
      Snoc3(old(trace), FocusWindow(hwnd), MoveCursorToWindow(hwnd), Delay(500));
    }

    /** Scroll up twenty times, then wait. */
    method SendReset()
      requires Valid()
      modifies this
      ensures Valid() && trace == old(trace) + ScriptReset()
    {
      var i := 0;
      while i < ResetScrolls
        invariant i <= ResetScrolls && Valid()
        invariant trace == old(trace) + Seqs.Repeat(ScrollUp, i)
      {
        Act(ScrollUp);
        i := i + 1;
      }
      Act(Delay(300));
    }

    /** One DOWN press per slot. */
    method SendSlot(slot: nat)
      requires Valid()
      modifies this
      ensures Valid() && trace == old(trace) + ScriptSlot(slot)
    {
      var i := 0;
      while i < slot
        invariant i <= slot && Valid()
        invariant trace == old(trace) + Seqs.Repeat(PressKey(VkDown, 200), i)
      {
        Act(PressKey(VkDown, 200));
        i := i + 1;
      }
    }

    /** ENTER four times, each followed by a pause. */
    method SendConfirm()
      requires Valid()
      modifies this
      ensures Valid() && trace == old(trace) + ScriptConfirm()
    {
      Act(PressKey(VkReturn, 300));
      Act(Delay(1500));
      Act(PressKey(VkReturn, 300));
      Act(Delay(1500));
      Act(PressKey(VkReturn, 300));
      Act(Delay(1500));
      Act(PressKey(VkReturn, 300));
      Act(Delay(1500));
      Snoc8(old(trace), PressKey(VkReturn, 300), Delay(1500), PressKey(VkReturn, 300), Delay(1500),
            PressKey(VkReturn, 300), Delay(1500), PressKey(VkReturn, 300), Delay(1500));
    }

    /** UP, RIGHT, RIGHT, ENTER, then wait. */
    method SendPasswordField()
      requires Valid()
      modifies this
      ensures Valid() && trace == old(trace) + ScriptPasswordField()
    {
      Act(PressKey(VkUp, 150));
      Act(PressKey(VkRight, 150));
      Act(PressKey(VkRight, 150));
      Act(PressKey(VkReturn, 150));
      Act(Delay(500));
      Snoc5(old(trace), PressKey(VkUp, 150), PressKey(VkRight, 150), PressKey(VkRight, 150),
            PressKey(VkReturn, 150), Delay(500));
    }

    /** Type the password and submit it. */
    method SendPassword(password: string)
      requires Valid()
      modifies this
      ensures Valid() && trace == old(trace) + ScriptPassword(password)
    {
      Act(TypeText(password));
      Act(Delay(300));
      Act(PressKey(VkReturn, 150));
      Act(Delay(500));
      Snoc4(old(trace), TypeText(password), Delay(300), PressKey(VkReturn, 150), Delay(500));
    }

    /** DOWN, ENTER on Connect, then wait. */
    method SendConnect()
      requires Valid()
      modifies this
      ensures Valid() && trace == old(trace) + ScriptConnect()
    {
      Act(PressKey(VkDown, 150));
      Act(PressKey(VkReturn, 150));
      Act(Delay(500));
      Snoc3(old(trace), PressKey(VkDown, 150), PressKey(VkReturn, 150), Delay(500));
    }

    /** The input script of `login_single`, sent with input blocked. */
    method RunScript(lc: LaunchedCharacter)
      requires Valid()
      modifies this
      ensures Valid()
      ensures trace == old(trace) + LoginScript(lc.hwnd, lc.character.slot, lc.character.password)
    {
      ghost var t0 := trace;
      SendFocus(lc.hwnd);
      ghost var t1 := trace;
      SendReset();
      ghost var t2 := trace;
      SendSlot(lc.character.slot);
      ghost var t3 := trace;
      SendConfirm();
      ghost var t4 := trace;
      SendPasswordField();
      ghost var t5 := trace;
      SendPassword(lc.character.password);
      ghost var t6 := trace;
      SendConnect();
      Chain(t0, t1, t2, t3, t4, t5, t6, trace,
            ScriptFocus(lc.hwnd), ScriptReset(), ScriptSlot(lc.character.slot), ScriptConfirm(),
            ScriptPasswordField(), ScriptPassword(lc.character.password), ScriptConnect());
    }

    /** The second half of `login_single`: block input, run the script, unblock input,
        wait for the proxy to finish, remove the hosts entries. `io` is how the removal
        ended. */
    method ScriptedLogin(lc: LaunchedCharacter) returns (removed: bool, ghost io: Hosts.IoOutcome)
      requires Valid()
      modifies this, hosts
      ensures Valid()
      ensures trace == old(trace) + ([BlockInput(true)] + LoginScript(lc.hwnd, lc.character.slot, lc.character.password)
                                     + [BlockInput(false), JoinProxy, RemoveEntries(removed)])
      ensures removed == io.IoOk? && hosts.contents == Hosts.AfterRemove(old(hosts.contents), io)
      ensures removed ==> Hosts.NoMarkedLines(hosts.contents)
    {
      Act(BlockInput(true));
      RunScript(lc);
      Act(BlockInput(false));
      Act(JoinProxy);
      ghost var beforeRemove := hosts.contents;
      io := HostsIoAt(env, Asked(trace, HostsEdit));
      removed := RemoveHostsEntries();
      Hosts.RemoveMarkedIsClean(beforeRemove);
      Wrap(old(trace), BlockInput(true), LoginScript(lc.hwnd, lc.character.slot, lc.character.password),
           BlockInput(false), JoinProxy, RemoveEntries(removed));
    }

    /** `login_single`: start the proxy, add the hosts entry, block input, run the script,
        unblock input, wait for the proxy, remove the hosts entry. `io` is how the last
        edit of the hosts file ended (there is none when the proxy fails). */
    method LoginSingle(cfg: Config, lc: LaunchedCharacter, port: nat)
      returns (r: Result<(), LoginError>, ghost a: Attempt, ghost io: Hosts.IoOutcome)
      requires Valid()
      modifies this, hosts
      ensures Valid() && r == AttemptResult(a)
      ensures trace == old(trace) + AttemptEvents(port, HostsEntry(cfg.region), lc, a)
      ensures a.ProxyFailed? ==> hosts.contents == old(hosts.contents)
      ensures a.AddFailed? ==> !io.IoOk? && hosts.contents == Hosts.AfterAdd(old(hosts.contents), HostsEntry(cfg.region), io)
      ensures a.Completed? ==> a.removeOk == io.IoOk?
      ensures a.Completed? ==> hosts.contents == Hosts.AfterRemove(old(hosts.contents) + Hosts.EntryLine(HostsEntry(cfg.region)), io)
      ensures r.Ok? ==> Hosts.NoMarkedLines(hosts.contents)
    {
      var entry := HostsEntry(cfg.region);
      var proxyOk := StartProxyServer(port);
      if !proxyOk {
        return Err(ProxyStart), ProxyFailed, Hosts.IoOk;
      }
      io := HostsIoAt(env, Asked(trace, HostsEdit));
      var added := AddHostsEntry(entry);
      if !added {
        return Err(HostsAdd), AddFailed, io;
      }
      var removed;
      removed, io := ScriptedLogin(lc);
      a := Completed(removed);
      Bracket(old(trace), StartProxy(port, true), AddEntry(entry, true), BlockInput(true),
              LoginScript(lc.hwnd, lc.character.slot, lc.character.password),
              [BlockInput(false), JoinProxy, RemoveEntries(removed)]);
      r := if removed then Ok(()) else Err(HostsRemove);
    }

    /** What `login_with_retry` does after a failed attempt: unblock input, remove the
        hosts entries and ask the operator whether to retry. */
    method AfterFailure() returns (cleanupOk: bool, input: Answer)
      requires Valid()
      modifies this, hosts
      ensures Valid() && input == AnswerAt(env, Asked(old(trace), Operator))
      ensures cleanupOk == HostsOkAt(env, Asked(old(trace), HostsEdit))
      ensures hosts.contents == Hosts.AfterRemove(old(hosts.contents), HostsIoAt(env, Asked(old(trace), HostsEdit)))
      ensures cleanupOk ==> Hosts.NoMarkedLines(hosts.contents)
      ensures trace == old(trace) + [BlockInput(false), RemoveEntries(cleanupOk), Prompt(input)]
      ensures Asked(trace, Operator) == Asked(old(trace), Operator) + 1
    {
      Act(BlockInput(false));
      AskedSnoc(old(trace), BlockInput(false));
      ghost var io := HostsIoAt(env, Asked(old(trace), HostsEdit));
      assert HostsIoAt(env, Asked(trace, HostsEdit)) == io;
      Hosts.RemoveMarkedIsClean(hosts.contents);
      cleanupOk := RemoveHostsEntries();
      assert cleanupOk == io.IoOk?;
      ghost var mid := trace;
      AskedSnoc(old(trace) + [BlockInput(false)], RemoveEntries(cleanupOk));
      input := AskOperator();
      AskedSnoc(mid, Prompt(input));
      Snoc3(old(trace), BlockInput(false), RemoveEntries(cleanupOk), Prompt(input));
    }

    /** One pass of the retry loop of `login_with_retry`: an attempt, and after a failure
        the cleanup and the operator's answer. */
    method LoginRound(cfg: Config, lc: LaunchedCharacter, port: nat)
      returns (ok: bool, stop: bool, ghost rd: Round)
      requires Valid()
      modifies this, hosts
      ensures Valid()
      ensures ok ==> !stop && Hosts.NoMarkedLines(hosts.contents)
      ensures !ok && rd.cleanupOk ==> Hosts.NoMarkedLines(hosts.contents)
      ensures ok ==> trace == old(trace) + AttemptEvents(port, HostsEntry(cfg.region), lc, Completed(true))
      ensures !ok ==> AttemptResult(rd.attempt).Err? && stop == Stops(rd.answer)
      ensures !ok ==> trace == old(trace) + RoundEvents(port, HostsEntry(cfg.region), lc, rd)
      ensures !ok ==> Asked(old(trace), Operator) < Asked(trace, Operator)
      ensures !ok && !stop ==> Asked(trace, Operator) <= |env.answers|
    {
      var res, a, _ := LoginSingle(cfg, lc, port);
      if res.Ok? {
        assert a == Completed(true);
        return true, false, Round(a, true, ReadError);
      }
      ghost var mid := trace;
      assert mid[..|old(trace)|] == old(trace);
      AskedPrefix(mid, |old(trace)|, Operator);
      var cleanupOk, input := AfterFailure();
      rd := Round(a, cleanupOk, input);
      Append3(old(trace), AttemptEvents(port, HostsEntry(cfg.region), lc, a),
              [BlockInput(false), RemoveEntries(cleanupOk), Prompt(input)]);
      ok, stop := false, Stops(input);
    }

    /** `login_with_retry`: after each failure, unblock input, remove the hosts entries
        and ask the operator; stop on success, on "skip" or on a read error. */
    method LoginWithRetry(cfg: Config, lc: LaunchedCharacter, port: nat)
      returns (r: Result<(), ()>, ghost rounds: seq<Round>)
      requires Valid()
      modifies this, hosts
      ensures Valid() && WellFormedRounds(rounds, r.Ok?)
      ensures trace == old(trace) + LoginRunEvents(port, HostsEntry(cfg.region), lc, rounds, r.Ok?)
      ensures EndsClean(rounds, r.Ok?) ==> Hosts.NoMarkedLines(hosts.contents)
    {
      var entry := HostsEntry(cfg.region);
      rounds := [];
      var ok, stop := false, false;
      while !ok && !stop
        invariant Valid() && !(ok && stop)
        invariant !stop ==> Retrying(rounds)
        invariant stop ==> WellFormedRounds(rounds, false)
        invariant EndsClean(rounds, ok) ==> Hosts.NoMarkedLines(hosts.contents)
        invariant trace == old(trace) + LoginRunEvents(port, entry, lc, rounds, ok)
        decreases if ok || stop then 0 else 1,
                  if Asked(trace, Operator) <= |env.answers| then |env.answers| - Asked(trace, Operator) else 0
      {
        ghost var before := trace;
        ghost var done := RoundsEvents(port, entry, lc, rounds);
        LoginRunEventsFailed(port, entry, lc, rounds);
        ghost var rd;
        ok, stop, rd := LoginRound(cfg, lc, port);
        if ok {
          Append3(old(trace), done, AttemptEvents(port, entry, lc, Completed(true)));
        } else {
          RoundsEventsSnoc(port, entry, lc, rounds, rd, old(trace));
          LoginRunEventsFailed(port, entry, lc, rounds + [rd]);
          RetryingSnoc(rounds, rd);
          rounds := rounds + [rd];
        }
      }
      if ok {
        RetryingSucceeds(rounds);
      }
      r := if ok then Ok(()) else Err(());
    }

    /** `phase2_login`: each launched character in turn, with the stagger delay between
        consecutive characters. */
    method Phase2Login(cfg: Config, launched: seq<LaunchedCharacter>)
      returns (ghost roundss: seq<seq<Round>>, ghost oks: seq<bool>, ghost logs: seq<seq<Event>>,
               ghost t: seq<Event>)
      requires Valid()
      modifies this, hosts
      ensures Valid() && Phase2Run(cfg, launched, roundss, oks, logs, t)
      ensures trace == old(trace) + t
      ensures launched != [] && EndsClean(roundss[|launched| - 1], oks[|launched| - 1])
              ==> Hosts.NoMarkedLines(hosts.contents)
    {
      var port := ProxyPort(cfg.region);
      var pause := Delay(cfg.staggerDelaySeconds * 1000);
      roundss, oks, logs := [], [], [];
      var i := 0;
      while i < |launched|
        invariant i == |oks| && Valid()
        invariant LoginRunsUpTo(cfg, launched, roundss, oks, logs)
        invariant trace == old(trace) + Paced(logs, pause, |launched|)
        invariant 0 < i && EndsClean(roundss[i - 1], oks[i - 1]) ==> Hosts.NoMarkedLines(hosts.contents)
      {
        var result, rounds := LoginWithRetry(cfg, launched[i], port);
        ghost var log := LoginRunEvents(port, HostsEntry(cfg.region), launched[i], rounds, result.Ok?);
        LoginRunsSnoc(cfg, launched, roundss, oks, logs, rounds, result.Ok?, log);
        PauseUnlessLast(pause, i, |launched|);
        PacedSnoc(logs, log, pause, |launched|);
        Reassociate(old(trace), Paced(logs, pause, |launched|), log, if i < |launched| - 1 then [pause] else []);
        roundss, oks, logs := roundss + [rounds], oks + [result.Ok?], logs + [log];
        i := i + 1;
      }
      PacedDone(logs, pause);
      t := Separated(logs, pause);
    }

    /** `run`: clean stale hosts entries, launch everyone, and log in those launched after
        a pause; with no one launched, stop after phase 1. */
    method Run(cfg: Config, chars: seq<Character>)
      returns (launched: seq<LaunchedCharacter>, ghost existing: seq<Handle>,
               ghost attemptss: seq<seq<LaunchAttempt>>, ghost outcomes: seq<Option<Handle>>,
               ghost logs1: seq<seq<Event>>, ghost phase1: seq<Event>,
               ghost roundss: seq<seq<Round>>, ghost oks: seq<bool>, ghost logs2: seq<seq<Event>>,
               ghost phase2: seq<Event>)
      requires Valid()
      modifies this, hosts
      ensures Valid()
      ensures Phase1Run(cfg, chars, existing, attemptss, outcomes, logs1, phase1)
      ensures launched == Successes(chars, outcomes)
      ensures launched != [] ==> Phase2Run(cfg, launched, roundss, oks, logs2, phase2)
      ensures trace == old(trace)
        + RunEvents(HostsOkAt(env, Asked(old(trace), HostsEdit)), phase1, launched, phase2)
      ensures launched == [] ==> hosts.contents == Hosts.AfterRemove(old(hosts.contents), HostsIoAt(env, Asked(old(trace), HostsEdit)))
      ensures launched != [] && EndsClean(roundss[|launched| - 1], oks[|launched| - 1])
              ==> Hosts.NoMarkedLines(hosts.contents)
    {
      CleanupStale();
      launched, existing, attemptss, outcomes, logs1, phase1 := Phase1Launch(cfg, chars);
      roundss, oks, logs2, phase2 := [], [], [], [];
      if launched == [] {
        return;
      }
      Act(Delay(InitialiseMs));
      roundss, oks, logs2, phase2 := Phase2Login(cfg, launched);
    }
  }

  // ---- regrouping the recorded effects ----
  // Proof plumbing: these lemmas only reassociate sequence concatenations, so that each
  // method's trace matches its specification with little work for the solver. They
  // model nothing in the source.

  lemma Snoc3<T>(t: seq<T>, a: T, b: T, c: T)
    ensures t + [a] + [b] + [c] == t + [a, b, c]
  {
  }

  lemma Snoc4<T>(t: seq<T>, a: T, b: T, c: T, d: T)
    ensures t + [a] + [b] + [c] + [d] == t + [a, b, c, d]
  {
  }

  lemma Snoc5<T>(t: seq<T>, a: T, b: T, c: T, d: T, e: T)
    ensures t + [a] + [b] + [c] + [d] + [e] == t + [a, b, c, d, e]
  {
  }

  lemma Snoc8<T>(t: seq<T>, a: T, b: T, c: T, d: T, e: T, f: T, g: T, h: T)
    ensures t + [a] + [b] + [c] + [d] + [e] + [f] + [g] + [h] == t + [a, b, c, d, e, f, g, h]
  {
  }

  lemma Chain<T>(t0: seq<T>, t1: seq<T>, t2: seq<T>, t3: seq<T>, t4: seq<T>, t5: seq<T>, t6: seq<T>, t7: seq<T>,
                 a: seq<T>, b: seq<T>, c: seq<T>, d: seq<T>, e: seq<T>, f: seq<T>, g: seq<T>)
    requires t1 == t0 + a && t2 == t1 + b && t3 == t2 + c && t4 == t3 + d
    requires t5 == t4 + e && t6 == t5 + f && t7 == t6 + g
    ensures t7 == t0 + (a + b + c + d + e + f + g)
  {
  }

  lemma Append3<T>(a: seq<T>, b: seq<T>, c: seq<T>)
    ensures a + b + c == a + (b + c)
  {
  }

  lemma Reassociate<T>(a: seq<T>, b: seq<T>, c: seq<T>, d: seq<T>)
    ensures a + b + c + d == a + (b + c + d)
  {
  }

  lemma Wrap<T>(t: seq<T>, a: T, middle: seq<T>, b: T, c: T, d: T)
    ensures t + [a] + middle + [b] + [c] + [d] == t + ([a] + middle + [b, c, d])
  {
  }

  lemma Bracket<T>(t: seq<T>, a: T, b: T, c: T, middle: seq<T>, tail: seq<T>)
    ensures t + [a] + [b] + ([c] + middle + tail) == t + ([a, b, c] + middle + tail)
  {
  }
}
