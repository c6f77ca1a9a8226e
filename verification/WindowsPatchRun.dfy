/** The run itself (windows_patch_logic.go, windowsPatchRun): its item table, run errors
    and time-limit note, updated step by step while backends answer. */
module WindowsPatchRun {
  import opened Options
  import opened Text
  import opened WindowsPatch
  import opened PatchTrace
  import opened PatchItems
  import opened PatchAnswers
  import opened PatchSelection
  import opened PatchEnvironment
  import Cache = WindowsUpdateCache
  import opened Lists

  const RECHECK_SECONDS := 600
  const RECHECK_EVERY_SECONDS := 60

  /** The time limit is recorded once, when it is noted. */
  ghost predicate LimitValid(runErrors: seq<RunError>, timeLimitNoted: bool) {
    multiset(runErrors)[TimeLimitReached] == if timeLimitNoted then 1 else 0
  }

  datatype RunResult = Rejected | Finished(stage: Stage, rebootRequired: bool, items: seq<Item>)

  /** The requests a run refuses before it does anything. */
  predicate RejectedEarly(req: Request) {
    if req.patchAll then !req.includeUpdates && !req.includeApps
    else WuaIDs(req.targets) == [] && WingetIDs(req.targets) == []
  }

  predicate IsInstalledUpdate(it: Item) {
    it.kind == Wua && (it.status == Installed || it.status == InstalledWithErrors)
  }

  /** An item asks for a restart. */
  predicate ItemAsks(items: seq<Item>) { exists i :: 0 <= i < |items| && items[i].rebootRequired }

  /** A real run that installed an update, of which none asks for a restart, asks the system. */
  predicate SystemIsAsked(items: seq<Item>, dryRun: bool) {
    !dryRun && !ItemAsks(items) && exists i :: 0 <= i < |items| && IsInstalledUpdate(items[i])
  }

  /** A restart is reported exactly when an item asks for one, or the system is asked and
      says so; that is the last thing the run asks. */
  predicate RestartExplained(reboot: bool, items: seq<Item>, dryRun: bool, trace: seq<Event>) {
    && (SystemIsAsked(items, dryRun) ==> trace != [] && trace[|trace| - 1].RebootAsked?)
    && (reboot <==> ItemAsks(items) ||
                    (SystemIsAsked(items, dryRun) && trace != [] && trace[|trace| - 1] == RebootAsked(true)))
  }

  /** Every item is decided. */
  predicate Accounted(items: seq<Item>) {
    forall i :: 0 <= i < |items| ==> items[i].status != Pending
  }

  predicate HasSkip(items: seq<Item>, message: Message) {
    exists i :: 0 <= i < |items| && items[i].status == Skipped && items[i].message == message
  }

  /** "Completed" means that nothing failed and nothing was cut short; a stop that
      skipped an item shows as cancelled, and the time limit, noted once, is a failure. */
  predicate StageSound(stage: Stage, items: seq<Item>, runErrors: seq<RunError>, dryRun: bool) {
    && (stage == Completed || stage == DryRunCompleted ==>
          runErrors == [] && (forall i :: 0 <= i < |items| ==> !IsBad(items[i])) &&
          !HasSkip(items, StoppedByUser) && !HasSkip(items, TimeLimit))
    && (stage == Completed ==> !dryRun) && (stage == DryRunCompleted ==> dryRun)
    && (HasSkip(items, StoppedByUser) ==> stage == Cancelled)
    && (HasSkip(items, TimeLimit) ==> stage == StageFailed || stage == Cancelled)
    && multiset(runErrors)[TimeLimitReached] <= 1
  }

  /** App upgrades follow the queue: the targets, or the apps of a listing. */
  ghost predicate FollowQueue(upgraded: seq<string>, trace: seq<Event>, req: Request) {
    || upgraded == []
    || (!req.patchAll && IsSubsequence(upgraded, WingetIDs(req.targets)))
    || (req.patchAll && exists j :: 0 <= j < |trace| && trace[j].AppsListed? &&
                                    IsSubsequence(upgraded, AppIDs(trace[j].apps)))
  }

  class PatchRun {
    const req: Request
    const env: Environment
    const cache: Cache.UpdateCache
    var items: seq<Item>
    var byKey: map<ItemKey, nat>
    var runErrors: seq<RunError>
    var timeLimitNoted: bool
    ghost var upgraded: seq<string>

    ghost predicate Valid()
      reads this, env
    {
      && TableValid(items, byKey)
      && LimitValid(runErrors, timeLimitNoted)
      && AllSound(items, env.stopFlag, timeLimitNoted, env.trace)
      && Safe(env.trace, req)
      && (InterruptSeen(env.trace) ==> env.stopFlag || env.runExpired)
      && UpgradeIDs(env.trace) == upgraded
    }

    constructor (req: Request, env: Environment, cache: Cache.UpdateCache)
      requires env.trace == []
      ensures Valid() && items == [] && runErrors == [] && upgraded == []
      ensures this.req == req && this.env == env && this.cache == cache
    {
      this.req, this.env, this.cache := req, env, cache;
      items, byKey, runErrors, timeLimitNoted, upgraded := [], map[], [], false, [];
    }

    /** A backend call that broke no rule leaves the run valid. */
    twostate lemma CallKeepsValid(e: Event)
      requires old(Valid()) && unchanged(this) && env.Passed() && !e.Checked? && !e.AppUpgraded?
      requires env.trace == old(env.trace) + [e] && Safe(env.trace, req)
      ensures Valid()
    {
      SafeStaysInterrupted(old(env.trace));
      AppendKeepsInterrupt(old(env.trace), e);
      UpgradeIDsAppend(old(env.trace), e);
      AllSoundLater(items, old(env.stopFlag), timeLimitNoted, old(env.trace),
                    env.stopFlag, timeLimitNoted, env.trace);
    }

    lemma SafeStaysInterrupted(trace: seq<Event>)
      requires Safe(trace, req)
      ensures StaysInterrupted(trace)
    {
    }

    twostate lemma QuietCall(e: Event)
      requires old(Valid()) && unchanged(this) && env.Passed()
      requires env.trace == old(env.trace) + [e] && Quiet(e) && !e.Checked?
      ensures Valid()
    {
      AppendQuiet(old(env.trace), e, req);
      CallKeepsValid(e);
    }

    twostate lemma TimePassed()
      requires old(Valid()) && unchanged(this) && env.Passed() && env.trace == old(env.trace)
      ensures Valid()
    {
      AllSoundLater(items, old(env.stopFlag), timeLimitNoted, old(env.trace),
                    env.stopFlag, timeLimitNoted, env.trace);
    }

    /** Adds an item, or overwrites the one with its key. */
    method Upsert(it: Item) returns (h: nat)
      requires Valid() && Sound(it, env.stopFlag, timeLimitNoted, env.trace)
      modifies this`items, this`byKey
      ensures Valid() && h < |items| && byKey.Keys == old(byKey.Keys) + {KeyOf(it)}
      ensures Upserted(old(items), items, it, h) && TableValid(items, byKey)
      ensures h < |old(items)| <==> KeyOf(it) in old(byKey)
    {
      hide Safe, Sound, LimitValid, AllSound;
      var key := KeyOf(it);
      if key in byKey {
        h := byKey[key];
        var merged := Merged(it, items[h]);
        assert Sound(merged, env.stopFlag, timeLimitNoted, env.trace) by { SameVerdict(it, merged); }
        TablePut(items, byKey, h, merged);
        AllSoundPut(items, h, merged, env.stopFlag, timeLimitNoted, env.trace);
        items := items[h := merged];
        return;
      }
      h := |items|;
      TableAppend(items, byKey, it);
      AllSoundPut(items, h, it, env.stopFlag, timeLimitNoted, env.trace);
      byKey := byKey[key := h];
      items := items + [it];
    }

    lemma SameVerdict(it: Item, x: Item)
      requires Sound(it, env.stopFlag, timeLimitNoted, env.trace)
      requires KeyOf(x) == KeyOf(it) && x.status == it.status && x.message == it.message
      ensures Sound(x, env.stopFlag, timeLimitNoted, env.trace)
    {
    }

    /** Overwrites an entry with one of the same key. */
    method Put(h: nat, it: Item)
      requires Valid() && h < |items| && KeyOf(it) == KeyOf(items[h])
      requires Sound(it, env.stopFlag, timeLimitNoted, env.trace)
      modifies this`items
      ensures Valid() && items == old(items)[h := it]
    {
      hide Safe, Sound, LimitValid, AllSound, TableValid;
      TablePut(items, byKey, h, it);
      AllSoundPut(items, h, it, env.stopFlag, timeLimitNoted, env.trace);
      items := items[h := it];
    }

    method Finish(h: nat, status: Status, message: Message)
      requires Valid() && h < |items|
      requires Sound(items[h].(status := status, message := message, completed := true),
                     env.stopFlag, timeLimitNoted, env.trace)
      modifies this`items
      ensures Valid()
      ensures items == old(items)[h := old(items)[h].(status := status, message := message, completed := true)]
    {
      Put(h, items[h].(status := status, message := message, completed := true));
    }

    /** The reason not to go on, if there is one. The check is part of the trace. */
    method InterruptReason() returns (reason: Option<Message>)
      requires Valid()
      modifies this`runErrors, this`timeLimitNoted, env
      ensures Valid() && env.Passed() && env.trace == old(env.trace) + [Checked(reason)]
      ensures reason in {None, Some(StoppedByUser), Some(TimeLimit)}
      ensures reason == Some(StoppedByUser) ==> env.stopFlag
      ensures reason == Some(TimeLimit) ==> timeLimitNoted && env.runExpired
      ensures old(env.stopFlag) ==> reason == Some(StoppedByUser)
      ensures old(env.runExpired) ==> reason != None
      ensures old(timeLimitNoted) ==> timeLimitNoted
    {
      hide TableValid, AllSound, Safe, InterruptSeen, StaysInterrupted, UpgradeIDs;
      var stopped := env.Stopped();
      var expired := false;
      if stopped {
        reason := Some(StoppedByUser);
      } else {
        expired := env.Expired();
        reason := if expired then Some(TimeLimit) else None;
      }
      env.trace := env.trace + [Checked(reason)];
      SafeStaysInterrupted(old(env.trace));
      AppendKeepsInterrupt(old(env.trace), Checked(reason));
      UpgradeIDsAppend(old(env.trace), Checked(reason));
      AppendQuiet(old(env.trace), Checked(reason), req);
      if expired && !timeLimitNoted {
        timeLimitNoted := true;
        runErrors := runErrors + [TimeLimitReached];
      }
      AllSoundLater(items, old(env.stopFlag), old(timeLimitNoted), old(env.trace),
                    env.stopFlag, timeLimitNoted, env.trace);
    }

    // ----- one install

    /** Asks for the update's status until it is known, the time is up or the run stops. */
    method AskStatus(id: string) returns (found: bool, res: OpResult)
      requires Valid()
      modifies env
      ensures Valid() && env.Passed() && old(env.trace) <= env.trace
      ensures forall m :: |old(env.trace)| <= m < |env.trace| ==> env.trace[m].StatusCall? && env.trace[m].id == id
      ensures |old(env.trace)| < |env.trace|
      ensures found ==> Settled(res) && env.trace[|env.trace| - 1] == StatusCall(id, StatusAnswer(res, false))
      ensures !found ==> forall m :: |old(env.trace)| <= m < |env.trace| ==> !Resolves(env.trace[m], id)
    {
      hide Valid, Safe;
      found, res := false, *;
      var now := env.Now();
      TimePassed();
      var deadline := now + RECHECK_SECONDS;
      while true
        invariant Valid() && env.Passed() && old(env.trace) <= env.trace
        invariant forall m :: |old(env.trace)| <= m < |env.trace| ==>
                    env.trace[m].StatusCall? && env.trace[m].id == id && !Resolves(env.trace[m], id)
        decreases deadline - env.clock
      {
        label Call:
        var st := env.Status(id);
        QuietCall@Call(StatusCall(id, st));
        if !st.failed && st.result.found && (st.result.alreadyInstalled || st.result.pendingReboot) {
          return true, st.result;
        }
        var more := PauseBefore(deadline);
        if !more {
          return false, st.result;
        }
      }
    }

    /** Waits for the next question, unless it would come too late or the run stops. */
    method PauseBefore(deadline: int) returns (more: bool)
      requires Valid()
      modifies env
      ensures Valid() && env.Passed() && env.trace == old(env.trace)
      ensures more ==> old(env.clock) < env.clock && old(env.clock) < deadline
    {
      hide Valid;
      var now := env.Now();
      TimePassed();
      if now + RECHECK_EVERY_SECONDS >= deadline {
        return false;
      }
      label Sleep:
      more := env.Wait(RECHECK_EVERY_SECONDS);
      TimePassed@Sleep();
    }

    /** recheckAfterTimeout: whether Windows finished an install that timed out. If that
        cannot be found out, the item fails. */
    method RecheckAfterTimeout(h: nat, id: string) returns (found: bool)
      requires Valid() && h < |items| && items[h].kind == Wua && items[h].id == ToLower(id)
      requires env.trace != [] && env.trace[|env.trace| - 1] == InstallCall(id, TimedOut)
      modifies this`items, env
      ensures Valid() && env.Passed() && old(env.trace) <= env.trace
      ensures forall m :: |old(env.trace)| <= m < |env.trace| ==> env.trace[m].StatusCall? && env.trace[m].id == id
      ensures InstallShown(items[h], env.trace, |old(env.trace)| - 1)
      ensures |old(env.trace)| < |env.trace|
      ensures found <==> exists m :: |old(env.trace)| <= m < |env.trace| && Resolves(env.trace[m], id)
      ensures OnlyAt(old(items), items, h) && items[h].status != Pending
      ensures items[h].started == old(items)[h].started
      ensures !found ==> items[h].status == Failed
      ensures items[h].hresult == old(items)[h].hresult
      ensures found ==> items[h].status == Installed ||
                        (items[h].status == InstalledPendingReboot && items[h].rebootRequired)
    {
      hide Valid, Evident, Explains, ToLower, InstallShown, Settled;
      ghost var key, called := KeyOf(items[h]), |env.trace| - 1;
      TimeoutExplains(key, id);
      var res;
      found, res := AskStatus(id);
      assert env.trace[called] == InstallCall(id, TimedOut);
      if found {
        SettledResolves(id, res);
        FinishFound(h, id, res);
        RecheckShows(items[h], env.trace, called, id, res);
      } else {
        EvidentLater(key, Failed, Detail, old(env.trace), env.trace);
        Finish(h, Failed, Detail);
        TimeoutShows(items[h], env.trace, called, id);
      }
    }

    /** The item of an install that Windows finished after all. */
    method FinishFound(h: nat, id: string, res: OpResult)
      requires Valid() && h < |items| && KeyOf(items[h]) == (Wua, ToLower(id)) && Settled(res)
      requires env.trace != [] && env.trace[|env.trace| - 1] == StatusCall(id, StatusAnswer(res, false))
      modifies this`items
      ensures Valid() && OnlyAt(old(items), items, h)
      ensures items[h].status == if res.alreadyInstalled then Installed else InstalledPendingReboot
      ensures !res.alreadyInstalled ==> items[h].rebootRequired
      ensures items[h].started == old(items)[h].started && items[h].hresult == old(items)[h].hresult
    {
      hide Valid, Evident, Explains, ToLower, Settled;
      StatusExplains(KeyOf(items[h]), id, res);
      if res.alreadyInstalled {
        Finish(h, Installed, Detail);
      } else {
        Put(h, items[h].(rebootRequired := true, status := InstalledPendingReboot,
                         message := Detail, completed := true));
      }
    }

    lemma SettledResolves(id: string, res: OpResult)
      requires Settled(res) && env.trace != []
      requires env.trace[|env.trace| - 1] == StatusCall(id, StatusAnswer(res, false))
      ensures Resolves(env.trace[|env.trace| - 1], id)
    {
    }

    lemma TimeoutExplains(key: ItemKey, id: string)
      requires key == (Wua, ToLower(id))
      requires env.trace != [] && env.trace[|env.trace| - 1] == InstallCall(id, TimedOut)
      ensures Evident(key, Failed, Detail, env.trace)
    {
      ExplainedAt(|env.trace| - 1, key, Failed, Detail, env.trace);
    }

    lemma StatusExplains(key: ItemKey, id: string, res: OpResult)
      requires key == (Wua, ToLower(id)) && Settled(res)
      requires env.trace != [] && env.trace[|env.trace| - 1] == StatusCall(id, StatusAnswer(res, false))
      ensures Evident(key, if res.alreadyInstalled then Installed else InstalledPendingReboot, Detail, env.trace)
    {
      ExplainedAt(|env.trace| - 1, key, if res.alreadyInstalled then Installed else InstalledPendingReboot, Detail,
                  env.trace);
    }

    /** The item after an install step that did not time out. */
    method ApplyInstallResult(h: nat, id: string, a: InstallAnswer)
      requires Valid() && h < |items| && items[h].kind == Wua && items[h].id == ToLower(id)
      requires !a.TimedOut? && env.trace != [] && env.trace[|env.trace| - 1] == InstallCall(id, a)
      modifies this`items
      ensures Valid() && OnlyAt(old(items), items, h)
      ensures items[h].started == old(items)[h].started && items[h].status != Pending
      ensures AnswerGives(a, items[h].status)
      ensures items[h].status == InstalledPendingReboot ==> items[h].rebootRequired
      ensures IsInstallBlocked(items[h].hresult) ==>
                IsInstallBlocked(old(items)[h].hresult) || CarriesBlocked(a)
      ensures a.Done? && WasTried(a.result) ==>
                items[h].rebootRequired == a.result.rebootRequired &&
                items[h].resultCode == Some(a.result.resultCode) &&
                items[h].hresult == NormaliseHResult(a.result.hresult)
      ensures FailsBlocked(a) ==> items[h].status == Failed && IsInstallBlocked(items[h].hresult)
    {
      hide Valid, Evident, IsInstallBlocked, NormaliseHResult, ToLower, Explains, AnswerGives, InstallStatus,
           FailsBlocked, CarriesBlocked;
      var it := ItemAfter(items[h], a);
      InstallStepExplained(it, id, a, it.status, it.message);
      Put(h, it);
    }

    /** The fields an answer sets, on a copy of the item. */
    method ItemAfter(it: Item, a: InstallAnswer) returns (x: Item)
      requires !a.TimedOut?
      ensures KeyOf(x) == KeyOf(it) && x.started == it.started && x.status != Pending && x.message != NoMessage
      ensures AnswerGives(a, x.status) && x.message !in {StoppedByUser, TimeLimit}
      ensures x.status == InstalledPendingReboot ==> x.rebootRequired
      ensures IsInstallBlocked(x.hresult) ==> IsInstallBlocked(it.hresult) || CarriesBlocked(a)
      ensures a.Done? && WasTried(a.result) ==>
                x.rebootRequired == a.result.rebootRequired && x.resultCode == Some(a.result.resultCode) &&
                x.hresult == NormaliseHResult(a.result.hresult)
      ensures FailsBlocked(a) ==> x.status == Failed && IsInstallBlocked(x.hresult)
    {
      hide IsInstallBlocked, NormaliseHResult, AnswerGives, FailsBlocked, CarriesBlocked;
      AnswerSays(a);
      StatusIsGiven(a, if a.Done? then InstallStatus(a.result) else Failed);
      x := it.(completed := true, message := Detail);
      match a {
        case Errored(err) =>
          if err.ScriptError? {
            BlockedNormalised(err.hresult);
            x := x.(hresult := NormaliseHResult(err.hresult));
          }
          x := x.(status := Failed);
        case Done(res) =>
          if !res.found {
            x := x.(status := NotApplicable, message := NoLongerOffered);
          } else if res.alreadyInstalled {
            x := x.(status := AlreadyInstalled);
          } else if res.pendingReboot {
            x := x.(status := InstalledPendingReboot, rebootRequired := true, message := PendingRestart);
          } else {
            BlockedNormalised(res.hresult);
            x := x.(status := ResultStatus(res.resultCode), resultCode := Some(res.resultCode),
                    hresult := NormaliseHResult(res.hresult), rebootRequired := res.rebootRequired);
          }
      }
    }

    /** What the answer says in the terms of the item's fields. */
    lemma AnswerSays(a: InstallAnswer)
      ensures FailsBlocked(a) && a.Done? ==> InstallStatus(a.result) == Failed && IsInstallBlocked(a.result.hresult)
      ensures FailsBlocked(a) && a.Done? ==> WasTried(a.result)
      ensures a.Done? && WasTried(a.result) && IsInstallBlocked(a.result.hresult) ==> CarriesBlocked(a)
      ensures a.Errored? && a.err.ScriptError? ==>
                FailsBlocked(a) == CarriesBlocked(a) == IsInstallBlocked(a.err.hresult)
      ensures a.Errored? && !a.err.ScriptError? ==> !FailsBlocked(a)
      ensures a.Done? ==> InstallStatus(a.result) != Pending
    {
      if a.Done? {
        SaysBlockedIs(a.result.hresult);
      } else if a.Errored? && a.err.ScriptError? {
        SaysBlockedIs(a.err.hresult);
      }
      hide SaysBlocked, IsInstallBlocked;
    }

    lemma InstallStepExplained(it: Item, id: string, a: InstallAnswer, status: Status, message: Message)
      requires it.kind == Wua && it.id == ToLower(id) && AnswerGives(a, status)
      requires env.trace != [] && env.trace[|env.trace| - 1] == InstallCall(id, a)
      ensures Evident(KeyOf(it), status, message, env.trace)
    {
      hide AnswerGives;
      ExplainedAt(|env.trace| - 1, KeyOf(it), status, message, env.trace);
    }

    lemma {:induction false} BlockedNormalised(h: string)
      ensures IsInstallBlocked(NormaliseHResult(h)) == IsInstallBlocked(h)
    {
      hide NormaliseHResult;
      NormalisedHResult(h);
    }

    /** Marks the item as started and calls the install. */
    method CallInstall(h: nat, id: string) returns (a: InstallAnswer)
      requires Valid() && MayInstall(env.trace, id, req) && h < |items|
      modifies this`items, env
      ensures Valid() && env.Passed() && env.trace == old(env.trace) + [InstallCall(id, a)]
      ensures items == old(items)[h := old(items)[h].(started := true)]
    {
      hide Valid, MayInstall, Safe, Sound;
      StartedSound(h);
      Put(h, items[h].(started := true));
      ValidIsSafe();
      label Call:
      a := env.Install(id);
      AppendInstall(old(env.trace), id, a, req);
      CallKeepsValid@Call(InstallCall(id, a));
    }

    /** One install: the step, its result or recheck, and what blocks the rest. */
    method InstallOne(h: nat, id: string) returns (blocked: Option<Message>)
      requires Valid() && MayInstall(env.trace, id, req)
      requires h < |items| && items[h].kind == Wua && items[h].id == ToLower(id)
      requires CodeShown(items[h], env.trace)
      modifies this`items, env
      ensures Valid() && env.Passed() && CodeShown(items[h], env.trace)
      ensures old(env.trace) < env.trace && env.trace[|old(env.trace)|].InstallCall?
      ensures env.trace[|old(env.trace)|].id == id
      ensures forall m :: |old(env.trace)| < m < |env.trace| ==> env.trace[m].StatusCall? && env.trace[m].id == id
      ensures InstallShown(items[h], env.trace, |old(env.trace)|)
      ensures OnlyAt(old(items), items, h) && items[h].status != Pending && items[h].started
      ensures blocked == None ==> NothingBlocks(env.trace)
      ensures blocked != None ==> BlockExplained(blocked.value, env.trace)
      ensures blocked == Some(RestartFirst) ==> items[h].status == Failed && IsInstallBlocked(items[h].hresult)
      ensures blocked == Some(StillInstalling) ==>
                env.trace[|old(env.trace)|].install.TimedOut? && items[h].status == Failed
    {
      hide Valid, MayInstall, FailsBlocked, Resolves, NothingBlocks, IsInstallBlocked, InstallStatus,
           CarriesBlocked, BlockExplained;
      ghost var before := items[h];
      var a := CallInstall(h, id);
      CodeShownLater(before, old(env.trace), env.trace);
      var found := false;
      if a.TimedOut? {
        found := RecheckAfterTimeout(h, id);
      } else {
        ApplyInstallResult(h, id, a);
      }
      blocked := None;
      assert env.trace[|old(env.trace)|] == InstallCall(id, a);
      CodeShownLater(before, old(env.trace), env.trace);
      AnswerIsShown(|old(env.trace)|, a, env.trace);
      if a.TimedOut? && !found {
        blocked := Some(StillInstalling);
      }
      if items[h].status == Failed && IsInstallBlocked(items[h].hresult) {
        blocked := Some(RestartFirst);
      }
      if blocked == None {
        MayInstallNothingBlocks(old(env.trace), id);
        TimedOutIsNoFailure(a);
        GrownNothingBlocks(old(env.trace), id, a, env.trace);
      }
    }

    lemma AnswerIsShown(k: nat, a: InstallAnswer, trace: seq<Event>)
      requires k < |trace| && trace[k].InstallCall? && trace[k].install == a
      ensures CarriesBlocked(a) ==> BlockExplained(RestartFirst, trace)
      ensures a.TimedOut? ==> BlockExplained(StillInstalling, trace)
    {
      hide CarriesBlocked;
    }

    lemma StartedSound(h: nat)
      requires Valid() && h < |items|
      ensures Sound(items[h].(started := true), env.stopFlag, timeLimitNoted, env.trace)
    {
      hide Evident, Safe, TableValid;
      assert Sound(items[h], env.stopFlag, timeLimitNoted, env.trace);
    }

    lemma MayInstallNothingBlocks(trace: seq<Event>, id: string)
      requires MayInstall(trace, id, req)
      ensures NothingBlocks(trace)
    {
    }

    lemma TimedOutIsNoFailure(a: InstallAnswer)
      ensures a.TimedOut? ==> !FailsBlocked(a)
    {
    }

    lemma ValidIsSafe()
      requires Valid()
      ensures Safe(env.trace, req)
    {
    }

    // ----- the install loop

    /** What holds before the i-th turn: the installs so far follow the plan, the marks are
        right, and it is known why the rest is blocked, if it is. */
    ghost predicate Turn(ids: seq<string>, results: map<string, OpResult>, i: nat, blocked: Option<Message>)
      requires i <= |ids|
      reads this, env
    {
      && !req.dryRun && Prepared(env.trace, req, ids, results)
      && IsSubsequence(InstallIDs(env.trace), ids[..i]) && AttemptsKnown(items, env.trace)
      && BlockKnown(blocked, env.trace)
    }

    /** The check that a turn starts with leaves everything known as it was. */
    method CheckTurn(ghost ids: seq<string>, ghost results: map<string, OpResult>, ghost i: nat,
                     ghost blocked: Option<Message>) returns (reason: Option<Message>)
      requires Valid() && i <= |ids| && Turn(ids, results, i, blocked)
      modifies this`runErrors, this`timeLimitNoted, env
      ensures Valid() && env.Passed() && env.trace == old(env.trace) + [Checked(reason)]
      ensures reason == Some(StoppedByUser) ==> env.stopFlag
      ensures reason == Some(TimeLimit) ==> timeLimitNoted
      ensures reason in {None, Some(StoppedByUser), Some(TimeLimit)}
      ensures Turn(ids, results, i, blocked)
    {
      hide Valid, Prepared, IsSubsequence, InstallIDs, BlockKnown, AttemptsKnown;
      ghost var before := env.trace;
      reason := InterruptReason();
      PreparedLater(before, env.trace, req, ids, results);
      InstallIDsLater(before, env.trace);
      AttemptsStayKnown(items, before, env.trace);
      BlockKnownAppend(blocked, before, Checked(reason));
    }

    /** The update of the turn is skipped. */
    method SkipUpdate(h: nat, message: Message, ghost ids: seq<string>, ghost results: map<string, OpResult>,
                      ghost i: nat, ghost blocked: Option<Message>)
      requires Valid() && i < |ids| && Turn(ids, results, i, blocked)
      requires h < |items| && KeyOf(items[h]) == (Wua, ToLower(ids[i])) && CodeShown(items[h], env.trace)
      requires Evident(KeyOf(items[h]), Skipped, message, env.trace)
      requires message == StoppedByUser ==> env.stopFlag
      requires message == TimeLimit ==> timeLimitNoted
      modifies this`items
      ensures Valid() && Turn(ids, results, i + 1, blocked)
      ensures OnlyAt(old(items), items, h) && items[h].status == Skipped && CodeShown(items[h], env.trace)
    {
      hide Valid, Prepared, IsSubsequence, InstallIDs, BlockKnown, CodeShown, Evident;
      ghost var item := items[h];
      Finish(h, Skipped, message);
      SameCode(item, items[h]);
      SameStarted(old(items), items, h, env.trace, env.trace);
      PreparedFor(ids, results);
      SkippedStayShown(old(items), items, h, ids, i, env.trace);
      assert ids[..i + 1] == ids[..i] + [ids[i]];
      SubsequenceGrows(InstallIDs(env.trace), ids[..i], [ids[i]]);
    }

    /** The update of the turn is installed. */
    method InstallNext(h: nat, id: string, ghost ids: seq<string>, ghost results: map<string, OpResult>,
                       ghost i: nat) returns (blocked: Option<Message>)
      requires Valid() && i < |ids| && id == ids[i] && Turn(ids, results, i, None)
      requires DownloadAllows(results, id) && env.trace != [] && env.trace[|env.trace| - 1] == Checked(None)
      requires h < |items| && items[h].kind == Wua && items[h].id == ToLower(id)
      requires CodeShown(items[h], env.trace)
      modifies this`items, env
      ensures Valid() && env.Passed() && Turn(ids, results, i + 1, blocked)
      ensures old(env.trace) <= env.trace
      ensures OnlyAt(old(items), items, h) && items[h].status != Pending && CodeShown(items[h], env.trace)
    {
      hide Valid, Prepared, IsSubsequence, InstallIDs, BlockExplained, CodeShown, DownloadAllows, MayInstall,
           NothingBlocks;
      ghost var checked := env.trace;
      PreparedMayInstall(checked, req, ids, results, i);
      blocked := InstallOne(h, id);
      InstalledOne(checked, env.trace, ids, i);
      PreparedLater(checked, env.trace, req, ids, results);
      PreparedFor(ids, results);
      assert forall j :: 0 <= j < |checked| ==> env.trace[j] == checked[j];
      InstalledIsShown(old(items), items, h, ids, i, checked, env.trace);
      assert StartedUpdate(items[h]) && env.trace[|checked|].InstallCall?;
    }

    lemma InstalledOne(trace: seq<Event>, later: seq<Event>, ids: seq<string>, i: nat)
      requires trace < later && later[|trace|].InstallCall?
      requires forall m :: |trace| < m < |later| ==> later[m].StatusCall?
      requires i < |ids| && later[|trace|].id == ids[i] && IsSubsequence(InstallIDs(trace), ids[..i])
      ensures IsSubsequence(InstallIDs(later), ids[..i + 1])
    {
      hide IsSubsequence, InstallIDs;
      var called := later[..|trace| + 1];
      assert called == trace + [later[|trace|]];
      InstallIDsAppend(trace, later[|trace|]);
      InstallIDsLater(called, later);
      SubsequenceTakes(InstallIDs(trace), ids[..i], ids[i], []);
      assert ids[..i] + [ids[i]] + [] == ids[..i + 1];
    }

    /** One turn of the install loop: skip the update, or install it. */
    method InstallOrSkip(h: nat, ghost ids: seq<string>, ghost results: map<string, OpResult>, ghost i: nat,
                         id: string, blocked: Option<Message>) returns (blocked': Option<Message>)
      requires Valid() && i < |ids| && id == ids[i] && Turn(ids, results, i, blocked)
      requires h < |items| && items[h].kind == Wua && items[h].id == ToLower(id)
      requires DownloadAllows(results, id) && CodeShown(items[h], env.trace)
      modifies this`items, this`runErrors, this`timeLimitNoted, env
      ensures Valid() && env.Passed() && Turn(ids, results, i + 1, blocked')
      ensures old(env.trace) <= env.trace
      ensures OnlyAt(old(items), items, h) && items[h].status != Pending && CodeShown(items[h], env.trace)
    {
      hide Valid, Turn, Evident, CodeShown, DownloadAllows;
      ghost var before, item := env.trace, items[h];
      var reason := CheckTurn(ids, results, i, blocked);
      CodeShownLater(item, before, env.trace);
      blocked' := blocked;
      if reason != None {
        InterruptExplained(items[h], reason.value);
        SkipUpdate(h, reason.value, ids, results, i, blocked);
      } else if blocked != None {
        BlockedTurn(ids, results, i, blocked.value, items[h]);
        SkipUpdate(h, blocked.value, ids, results, i, blocked);
      } else {
        blocked' := InstallNext(h, id, ids, results, i);
      }
    }

    lemma BlockedTurn(ids: seq<string>, results: map<string, OpResult>, i: nat, message: Message, it: Item)
      requires i <= |ids| && Turn(ids, results, i, Some(message)) && it.kind == Wua
      ensures Evident(KeyOf(it), Skipped, message, env.trace)
      ensures message == StillInstalling || message == RestartFirst
    {
      hide Evident, BlockExplained;
      BlockedIsExplained(it, message, env.trace);
    }

    lemma SameCode(it: Item, x: Item)
      requires CodeShown(it, env.trace) && x.hresult == it.hresult
      ensures CodeShown(x, env.trace)
    {
    }

    /** Without an install, and with the marks kept, the marks stay right. */
    lemma SameStarted(before: seq<Item>, after: seq<Item>, h: nat, trace: seq<Event>, later: seq<Event>)
      requires AttemptsMarked(before, trace) && OnlyAt(before, after, h)
      requires after[h].started == before[h].started
      requires trace <= later && forall m :: |trace| <= m < |later| ==> !later[m].InstallCall?
      ensures AttemptsMarked(after, later)
    {
      assert forall i :: 0 <= i < |before| ==> (StartedUpdate(before[i]) <==> StartedUpdate(after[i]));
      assert NoInstallIn(trace) <==> NoInstallIn(later) by {
        assert forall m :: 0 <= m < |trace| ==> later[m] == trace[m];
      }
    }

    /** The install loop: each queued update is installed or skipped, in order. */
    method InstallAll(install: seq<Update>, queued: seq<Option<nat>>, ghost results: map<string, OpResult>)
      requires Valid() && !req.dryRun && Prepared(env.trace, req, IDs(install), results)
      requires |queued| == |install| && NoInstallIn(env.trace) && AttemptsKnown(items, env.trace)
      requires QueuedFor(items, install, queued) && CodesShown(items, queued, env.trace)
      requires forall i :: 0 <= i < |queued| && queued[i] != None ==> DownloadAllows(results, install[i].id)
      requires PendingQueued(items, Wua, queued, 0)
      modifies this`items, this`runErrors, this`timeLimitNoted, env
      ensures Valid() && env.Passed() && NonePending(items, Wua)
      ensures KeepsOthers(old(items), items, Wua) && |items| == |old(items)|
      ensures AttemptsKnown(items, env.trace) && old(env.trace) <= env.trace
    {
      hide Valid, Turn, DownloadAllows, AttemptsKnown, CodesShown, CodeShown, PendingQueued, QueuedFor,
           KeepsOthers, NonePending;
      var blocked := None;
      ghost var ids := IDs(install);
      FirstTurn(ids, results);
      KeepsOthersRefl(items);
      for i := 0 to |install|
        invariant Valid() && env.Passed() && Turn(ids, results, i, blocked)
        invariant PendingQueued(items, Wua, queued, i) && QueuedFor(items, install, queued)
        invariant KeepsOthers(old(items), items, Wua) && |items| == |old(items)|
        invariant old(env.trace) <= env.trace && CodesShown(items, queued, env.trace)
      {
        ghost var before, trace := items, env.trace;
        if queued[i] == None {
          SkippedTurn(ids, results, i, blocked);
          SkippedOne(items, queued, i);
          continue;
        }
        var h := queued[i].value;
        QueuedAt(items, install, queued, i);
        ShownAt(items, queued, i, env.trace);
        blocked := InstallOrSkip(h, ids, results, i, install[i].id, blocked);
        CodesShownNext(before, items, queued, h, trace, env.trace);
        FinishedOne(before, items, Wua, queued, i, h);
        OneChanged(old(items), before, items, install, queued, h);
      }
      TurnsAreMarked(ids, results, blocked);
      NoneQueued(items, Wua, queued);
    }

    lemma QueuedAt(items: seq<Item>, install: seq<Update>, queued: seq<Option<nat>>, i: nat)
      requires QueuedFor(items, install, queued) && i < |queued| && queued[i] != None
      ensures queued[i].value < |items| && KeyOf(items[queued[i].value]) == (Wua, ToLower(install[i].id))
    {
    }

    lemma PreparedFor(ids: seq<string>, results: map<string, OpResult>)
      requires Prepared(env.trace, req, ids, results)
      ensures forall j :: 0 <= j < |env.trace| && env.trace[j].Downloaded? ==> env.trace[j].ids == ids
    {
    }

    lemma FirstTurn(ids: seq<string>, results: map<string, OpResult>)
      requires !req.dryRun && Prepared(env.trace, req, ids, results)
      requires NoInstallIn(env.trace) && AttemptsKnown(items, env.trace)
      ensures Turn(ids, results, 0, None)
    {
      hide Prepared, AttemptsKnown;
      NoInstallIDs(env.trace);
      NoInstallNoBlock(env.trace);
      EmptyIsSubsequence(ids[..0]);
    }

    lemma SkippedTurn(ids: seq<string>, results: map<string, OpResult>, i: nat, blocked: Option<Message>)
      requires i < |ids| && Turn(ids, results, i, blocked)
      ensures Turn(ids, results, i + 1, blocked)
    {
      hide Prepared, AttemptsKnown, BlockKnown, IsSubsequence;
      assert ids[..i + 1] == ids[..i] + [ids[i]];
      SubsequenceGrows(InstallIDs(env.trace), ids[..i], [ids[i]]);
    }

    lemma TurnsAreMarked(ids: seq<string>, results: map<string, OpResult>, blocked: Option<Message>)
      requires Turn(ids, results, |ids|, blocked)
      ensures AttemptsKnown(items, env.trace)
    {
    }

    lemma ShownAt(items: seq<Item>, queued: seq<Option<nat>>, i: nat, trace: seq<Event>)
      requires CodesShown(items, queued, trace) && i < |queued| && queued[i] != None && queued[i].value < |items|
      ensures CodeShown(items[queued[i].value], trace)
    {
    }

    lemma SkippedOne(items: seq<Item>, queued: seq<Option<nat>>, i: nat)
      requires PendingQueued(items, Wua, queued, i) && i < |queued| && queued[i] == None
      ensures PendingQueued(items, Wua, queued, i + 1)
    {
      forall x | 0 <= x < |items| && items[x].kind == Wua && items[x].status == Pending
        ensures exists j :: i + 1 <= j < |queued| && queued[j] == Some(x)
      {
        var j :| i <= j < |queued| && queued[j] == Some(x);
        assert j != i;
      }
    }

    // ----- the queue

    /** Records the items the scan decided. */
    method RecordDecided(decided: seq<Item>, ghost ids: seq<string>)
      requires Valid() && NoneStarted(items) && DecidedSound(decided, env.trace)
      requires PendingLeft(items, Wua, ids, [], [])
      modifies this`items, this`byKey
      ensures Valid() && NoneStarted(items) && KeepsOthers(old(items), items, Wua)
      ensures PendingLeft(items, Wua, ids, DecidedIDs(decided), [])
      ensures byKey.Keys == old(byKey.Keys) + KeysFor(Wua, DecidedIDs(decided))
    {
      hide Valid, Sound, PendingLeft, KeepsOthers, NoneStarted, Upserted, TableValid, DecidedSound;
      KeepsOthersRefl(items);
      NoKeys();
      for k := 0 to |decided|
        invariant Valid() && NoneStarted(items) && KeepsOthers(old(items), items, Wua)
        invariant PendingLeft(items, Wua, ids, DecidedIDs(decided[..k]), [])
        invariant byKey.Keys == old(byKey.Keys) + KeysFor(Wua, DecidedIDs(decided[..k]))
      {
        ghost var before := items;
        DecidedIsSound(decided, k, env.stopFlag, timeLimitNoted, env.trace);
        var it := decided[k].(completed := true);
        var h := Upsert(it);
        RecordedOne(old(items), before, items, byKey, it, h, ids, DecidedIDs(decided[..k]), []);
        DecidedIDsStep(decided, k);
      }
      assert decided[..|decided|] == decided;
    }

    lemma NoKeys()
      ensures KeysFor(Wua, []) == KeysFor(Winget, []) == {}
    {
    }

    /** What one upsert keeps and does. */
    lemma RecordedOne(first: seq<Item>, before: seq<Item>, after: seq<Item>, byKey: map<ItemKey, nat>, it: Item,
                      h: nat, ids: seq<string>, done: seq<string>, queued: seq<Option<nat>>)
      requires KeepsOthers(first, before, it.kind) && PendingLeft(before, it.kind, ids, done, queued)
      requires Upserted(before, after, it, h) && TableValid(after, byKey) && !it.started
      ensures KeepsOthers(first, after, it.kind)
      ensures NoneStarted(before) ==> NoneStarted(after)
      ensures it.status != Pending ==> PendingLeft(after, it.kind, ids, done + [it.id], queued)
      ensures PendingLeft(after, it.kind, ids, done + [it.id], queued + [Some(h)])
      ensures KeysFor(it.kind, done + [it.id]) == KeysFor(it.kind, done) + {KeyOf(it)}
    {
      hide PendingLeft, KeepsOthers, NoneStarted, Upserted, TableValid;
      UpsertLeaves(before, after, byKey, it, h, ids, done, queued);
      UpsertKeepsOthers(before, after, it, h);
      KeepsOthersTransitive(first, before, after, it.kind);
      KeysForAppend(it.kind, done, it.id);
    }

    lemma KeepsOthersRefl(items: seq<Item>)
      ensures KeepsOthers(items, items, Wua) && KeepsOthers(items, items, Winget)
    {
    }

    /** Queues the k-th update to install. */
    method QueueNext(install: seq<Update>, k: nat, queued: seq<Option<nat>>, ghost first: seq<Item>,
                     ghost ids: seq<string>, ghost done: seq<string>) returns (h: nat)
      requires Valid() && NoneStarted(items) && KeepsOthers(first, items, Wua) && k < |install|
      requires |queued| == k && QueuedFor(items, install[..k], queued) && NoCodes(items, queued)
      requires PendingLeft(items, Wua, ids, done, if req.dryRun then [] else queued)
      requires WouldInstallAll(install, env.trace)
      modifies this`items, this`byKey
      ensures Valid() && NoneStarted(items) && KeepsOthers(first, items, Wua)
      ensures QueuedFor(items, install[..k + 1], queued + [Some(h)]) && NoCodes(items, queued + [Some(h)])
      ensures PendingLeft(items, Wua, ids, done + [ToLower(install[k].id)],
                          if req.dryRun then [] else queued + [Some(h)])
      ensures byKey.Keys == old(byKey.Keys) + {(Wua, ToLower(install[k].id))}
    {
      hide Valid, Sound, PendingLeft, KeepsOthers, NoneStarted, QueuedFor, Upserted, TableValid, WuaItem,
           WouldInstallAll, NoCodes, ToLower;
      ghost var before := items;
      var it := QueueItem(install[k], req.dryRun);
      QueueItemSound(install, k, it);
      h := Upsert(it);
      RecordedOne(first, before, items, byKey, it, h, ids, done, if req.dryRun then [] else queued);
      QueuedBound(before, install[..k], queued);
      UpsertKeepsNoCodes(before, items, it, h, queued);
      UpsertQueues(before, items, it, h, install, k, queued);
    }

    /** Queues the updates to install; a dry run only records that it would. */
    method QueueInstalls(install: seq<Update>, ghost ids: seq<string>, ghost first: seq<string>)
      returns (queued: seq<Option<nat>>)
      requires Valid() && NoneStarted(items) && PendingLeft(items, Wua, ids, first, [])
      requires WouldInstallAll(install, env.trace)
      modifies this`items, this`byKey
      ensures Valid() && NoneStarted(items) && KeepsOthers(old(items), items, Wua)
      ensures QueuedFor(items, install, queued) && forall i :: 0 <= i < |queued| ==> queued[i] != None
      ensures NoCodes(items, queued)
      ensures PendingLeft(items, Wua, ids, first + LowerIDs(install), if req.dryRun then [] else queued)
      ensures byKey.Keys == old(byKey.Keys) + KeysFor(Wua, LowerIDs(install))
    {
      hide Valid, PendingLeft, KeepsOthers, NoneStarted, QueuedFor, WouldInstallAll, NoCodes, ToLower;
      queued := [];
      KeepsOthersRefl(items);
      QueuedForNone(items);
      NoCodesQueued(items);
      NoKeys();
      assert first + LowerIDs(install[..0]) == first;
      for k := 0 to |install|
        invariant Valid() && NoneStarted(items) && KeepsOthers(old(items), items, Wua)
        invariant |queued| == k && QueuedFor(items, install[..k], queued) && NoCodes(items, queued)
        invariant forall i :: 0 <= i < k ==> queued[i] != None
        invariant PendingLeft(items, Wua, ids, first + LowerIDs(install[..k]), if req.dryRun then [] else queued)
        invariant byKey.Keys == old(byKey.Keys) + KeysFor(Wua, LowerIDs(install[..k]))
      {
        ghost var done := first + LowerIDs(install[..k]);
        var h := QueueNext(install, k, queued, old(items), ids, done);
        LowerIDsStep(install, k);
        KeysForAppend(Wua, LowerIDs(install[..k]), ToLower(install[k].id));
        assert done + [ToLower(install[k].id)] == first + LowerIDs(install[..k + 1]);
        queued := queued + [Some(h)];
      }
      assert install[..|install|] == install;
    }

    /** The item of an update to install, or of one a dry run would install. */
    function QueueItem(u: Update, dryRun: bool): (it: Item)
      ensures KeyOf(it) == (Wua, ToLower(u.id)) && !it.started && it.hresult == ""
      ensures it.status == (if dryRun then WouldInstall else Pending) && it.completed == dryRun
    {
      if dryRun then WuaItem(u, WouldInstall, Detail).(completed := true) else WuaItem(u, Pending, NoMessage)
    }

    lemma NoCodesQueued(items: seq<Item>)
      ensures NoCodes(items, [])
    {
    }

    lemma QueuedBound(items: seq<Item>, install: seq<Update>, queued: seq<Option<nat>>)
      requires QueuedFor(items, install, queued)
      ensures forall i :: 0 <= i < |queued| && queued[i] != None ==> queued[i].value < |items|
    {
    }

    lemma QueueItemSound(install: seq<Update>, k: nat, it: Item)
      requires WouldInstallAll(install, env.trace) && k < |install| && it == QueueItem(install[k], req.dryRun)
      ensures Sound(it, env.stopFlag, timeLimitNoted, env.trace)
    {
    }

    /** Fails the updates whose download failed and takes them off the queue. */
    method DropFailedDownloads(install: seq<Update>, queued: seq<Option<nat>>, results: map<string, OpResult>)
      returns (left: seq<Option<nat>>)
      requires Valid() && NoneStarted(items) && QueuedFor(items, install, queued)
      requires PendingQueued(items, Wua, queued, 0) && NoCodes(items, queued)
      requires env.trace != [] && env.trace[|env.trace| - 1].Downloaded? &&
               env.trace[|env.trace| - 1].download.results == results
      modifies this`items
      ensures Valid() && NoneStarted(items) && QueuedFor(items, install, left)
      ensures PendingQueued(items, Wua, left, 0) && NoCodes(items, left)
      ensures forall i :: 0 <= i < |left| && left[i] != None ==> DownloadAllows(results, install[i].id)
      ensures KeepsOthers(old(items), items, Wua) && |items| == |old(items)|
    {
      hide Valid, KeepsOthers, NoneStarted, PendingQueued, QueuedFor, Evident, NoCodes, GoodHaveNoCodes;
      left := queued;
      KeepsOthersRefl(items);
      QueueLength(items, install, queued);
      NoCodesAtFirst(items, install, queued, results);
      for i := 0 to |install|
        invariant Valid() && NoneStarted(items) && QueuedFor(items, install, left)
        invariant PendingQueued(items, Wua, left, 0) && |left| == |install|
        invariant GoodHaveNoCodes(items, install, left, results)
        invariant forall k :: 0 <= k < i && left[k] != None ==> DownloadAllows(results, install[k].id)
        invariant KeepsOthers(old(items), items, Wua) && |items| == |old(items)|
      {
        var key := ToLower(install[i].id);
        if left[i] != None && key in results && results[key].resultCode != 2 && results[key].resultCode != 3 {
          var h := left[i].value;
          ghost var before := items;
          QueuedItem(items, install, left, i);
          DownloadExplained(|env.trace| - 1, items[h], install[i].id, env.trace);
          Put(h, items[h].(hresult := NormaliseHResult(results[key].hresult), completed := true,
                           resultCode := Some(results[key].resultCode), status := Failed, message := Detail));
          DroppedOne(before, items, left, i, h);
          FailedDownloadKeepsOthers(before, items, install, left, results, i, h);
          OnlyAtKeeps(before, items, h);
          OnlyAtKeepsQueue(before, items, h, install, left);
          KeepsOthersTransitive(old(items), before, items, Wua);
          DroppedQueue(items, install, left, i);
          left := left[i := None];
        }
      }
      GoodOnesLeft(items, install, left, results);
    }

    lemma NoCodesAtFirst(items: seq<Item>, install: seq<Update>, queued: seq<Option<nat>>,
                         results: map<string, OpResult>)
      requires NoCodes(items, queued) && |install| == |queued|
      ensures GoodHaveNoCodes(items, install, queued, results)
    {
      hide DownloadAllows;
    }

    lemma GoodOnesLeft(items: seq<Item>, install: seq<Update>, left: seq<Option<nat>>,
                       results: map<string, OpResult>)
      requires |install| == |left| && GoodHaveNoCodes(items, install, left, results)
      requires forall i :: 0 <= i < |left| && left[i] != None ==> DownloadAllows(results, install[i].id)
      ensures NoCodes(items, left)
    {
      hide DownloadAllows;
    }

    lemma QueueLength(items: seq<Item>, install: seq<Update>, queued: seq<Option<nat>>)
      requires QueuedFor(items, install, queued)
      ensures |queued| == |install|
    {
    }

    lemma QueuedItem(items: seq<Item>, install: seq<Update>, queued: seq<Option<nat>>, i: nat)
      requires QueuedFor(items, install, queued) && i < |queued| && queued[i] != None
      ensures |queued| == |install| && queued[i].value < |items|
      ensures items[queued[i].value].kind == Wua && items[queued[i].value].id == ToLower(install[i].id)
    {
    }

    lemma DroppedQueue(items: seq<Item>, install: seq<Update>, queued: seq<Option<nat>>, i: nat)
      requires QueuedFor(items, install, queued) && i < |queued|
      ensures QueuedFor(items, install, queued[i := None])
    {
    }

    /** Ends every queued update the same way. */
    method FinishAll(install: seq<Update>, queued: seq<Option<nat>>, status: Status, message: Message)
      requires Valid() && NoneStarted(items) && QueuedFor(items, install, queued)
      requires forall i :: 0 <= i < |queued| ==> queued[i] != None
      requires PendingQueued(items, Wua, queued, 0) && (status == Skipped || status == Failed)
      requires ExplainsUpdates(status, message, env.trace)
      requires status == Skipped && message == StoppedByUser ==> env.stopFlag
      requires status == Skipped && message == TimeLimit ==> timeLimitNoted
      modifies this`items
      ensures Valid() && NoneStarted(items) && NonePending(items, Wua)
      ensures KeepsOthers(old(items), items, Wua) && |items| == |old(items)|
      ensures EndedAs(items, queued, |queued|, status, message)
    {
      hide Valid, KeepsOthers, NoneStarted, PendingQueued, QueuedFor, Evident, ExplainsUpdates, EndedAs;
      NoneEnded(items, queued, status, message);
      KeepsOthersRefl(items);
      QueueLength(items, install, queued);
      for i := 0 to |queued|
        invariant Valid() && NoneStarted(items) && QueuedFor(items, install, queued)
        invariant PendingQueued(items, Wua, queued, i) && EndedAs(items, queued, i, status, message)
        invariant KeepsOthers(old(items), items, Wua) && |items| == |old(items)|
      {
        var h := queued[i].value;
        ghost var before := items;
        QueuedItem(items, install, queued, i);
        UpdateExplained(items[h], status, message, env.trace);
        Finish(h, status, message);
        EndedNext(before, items, queued, i, h, status, message);
        FinishedOne(before, items, Wua, queued, i, h);
        OnlyAtKeeps(before, items, h);
        OnlyAtKeepsQueue(before, items, h, install, queued);
        KeepsOthersTransitive(old(items), before, items, Wua);
      }
      QueueDone(items, queued);
    }

    lemma NoneEnded(items: seq<Item>, queued: seq<Option<nat>>, status: Status, message: Message)
      ensures EndedAs(items, queued, 0, status, message) && IDsEnded(items, [], status, message)
    {
    }

    lemma QueueDone(items: seq<Item>, queued: seq<Option<nat>>)
      requires PendingQueued(items, Wua, queued, |queued|)
      ensures NonePending(items, Wua)
    {
    }

    /** Gives every target of the run the same status. */
    method FailWUATargets(ids: seq<string>, status: Status, message: Message)
      requires Valid() && NoneStarted(items) && PendingHaveIDs(items, Wua, Lowered(ids))
      requires (status == Skipped || status == Failed) && ExplainsUpdates(status, message, env.trace)
      requires status == Skipped && message == StoppedByUser ==> env.stopFlag
      requires status == Skipped && message == TimeLimit ==> timeLimitNoted
      modifies this`items, this`byKey
      ensures Valid() && NoneStarted(items) && NonePending(items, Wua)
      ensures KeepsOthers(old(items), items, Wua)
      ensures byKey.Keys == old(byKey.Keys) + KeysFor(Wua, Lowered(ids))
      ensures IDsEnded(items, Lowered(ids), status, message)
    {
      hide Valid, PendingLeft, KeepsOthers, NoneStarted, Upserted, TableValid, Evident, ExplainsUpdates, IDsEnded;
      KeepsOthersRefl(items);
      NoneEnded(items, [], status, message);
      NoKeys();
      ghost var all := Lowered(ids);
      AllLeft(items, all);
      assert all[..0] == [];
      for k := 0 to |ids|
        invariant Valid() && NoneStarted(items) && KeepsOthers(old(items), items, Wua)
        invariant PendingLeft(items, Wua, all, all[..k], []) && IDsEnded(items, all[..k], status, message)
        invariant byKey.Keys == old(byKey.Keys) + KeysFor(Wua, all[..k])
      {
        ghost var before := items;
        var it := NewItem(Wua, ToLower(ids[k]), status, message);
        UpdateExplained(it, status, message, env.trace);
        var h := Upsert(it);
        RecordedOne(old(items), before, items, byKey, it, h, all, all[..k], []);
        IDEnded(before, items, byKey, it, h, all[..k]);
        assert all[..k + 1] == all[..k] + [it.id];
      }
      assert all[..|ids|] == all;
      LeftIsQueued(items, Wua, all, all, []);
    }

    lemma AllLeft(items: seq<Item>, ids: seq<string>)
      requires PendingHaveIDs(items, Wua, ids)
      ensures PendingLeft(items, Wua, ids, [], [])
    {
    }

    // ----- the Windows Update phase

    /** The search failed: the targets fail, or are skipped when the run was interrupted. */
    method SearchFails(ids: seq<string>)
      requires Valid() && NoneStarted(items) && NoInstallIn(env.trace)
      requires PendingHaveIDs(items, Wua, Lowered(ids)) && (req.patchAll ==> NonePending(items, Wua))
      requires env.trace != [] && env.trace[|env.trace| - 1].Scanned? &&
               env.trace[|env.trace| - 1].scanned.err != None
      modifies this, env
      ensures upgraded == old(upgraded)
      ensures Valid() && env.Passed() && NonePending(items, Wua)
      ensures KeepsOthers(old(items), items, Wua) && AttemptsKnown(items, env.trace)
      ensures !req.patchAll ==> byKey.Keys == old(byKey.Keys) + KeysFor(Wua, Lowered(ids))
      ensures |env.trace| == |old(env.trace)| + 1 && env.trace[|old(env.trace)|].Checked?
      ensures var reason := env.trace[|old(env.trace)|].reason;
              if reason != None then IDsEnded(items, Lowered(ids), Skipped, reason.value)
              else if req.patchAll then SearchFailed in runErrors
              else IDsEnded(items, Lowered(ids), Failed, Detail)
    {
      hide KeepsOthers, NoneStarted, AttemptsKnown, Safe, TableValid, AllSound, PendingHaveIDs, NonePending,
           ExplainsUpdates, IDsEnded;
      KeepsOthersRefl(items);
      ghost var scanned := |env.trace| - 1;
      var reason := InterruptReason();
      if reason != None {
        PhaseExplained(scanned + 1, env.trace, Skipped, reason.value);
        FailWUATargets(ids, Skipped, reason.value);
      } else if req.patchAll {
        runErrors := runErrors + [SearchFailed];
      } else {
        PhaseExplained(scanned, env.trace, Failed, Detail);
        FailWUATargets(ids, Failed, Detail);
      }
      NoneStartedMarked(items, env.trace);
    }

    /** Records a successful search: decided updates first, then the ones to install. */
    method QueueSelection(a: ScanAnswer, ids: seq<string>)
      returns (install: seq<Update>, queued: seq<Option<nat>>)
      requires Valid() && NoneStarted(items)
      requires env.trace != [] && env.trace[|env.trace| - 1] == Scanned(a) && a.err == None
      requires PendingHaveIDs(items, Wua, Lowered(ids)) && (req.patchAll ==> NonePending(items, Wua))
      modifies this`items, this`byKey
      ensures Valid() && NoneStarted(items) && KeepsOthers(old(items), items, Wua)
      ensures install == Selection(a.scan, req.patchAll, ids).0
      ensures QueuedFor(items, install, queued) && forall i :: 0 <= i < |queued| ==> queued[i] != None
      ensures PendingQueued(items, Wua, queued, 0) && NoCodes(items, queued)
      ensures req.dryRun || install == [] ==> NonePending(items, Wua)
      ensures !req.patchAll ==> byKey.Keys == old(byKey.Keys) + KeysFor(Wua, Lowered(ids))
    {
      hide Valid, KeepsOthers, NoneStarted, Selection, QueuedFor, DecidedSound, PendingQueued, WouldInstallAll,
           NoCodes;
      var decided;
      install, decided := SelectWUAUpdates(a.scan, req.patchAll, ids);
      SelectionIsBacked(a, req.patchAll, ids, env.trace);
      ghost var all := if req.patchAll then [] else Lowered(ids);
      if !req.patchAll {
        SelectionCoversTargets(a.scan, ids);
      }
      ghost var first := items;
      RecordDecided(decided, all);
      ghost var middle := items;
      queued := QueueInstalls(install, all, DecidedIDs(decided));
      KeepsOthersTransitive(first, middle, items, Wua);
      var dry := req.dryRun || install == [];
      QueueLength(items, install, queued);
      LeftIsQueued(items, Wua, all, DecidedIDs(decided) + LowerIDs(install), if req.dryRun then [] else queued);
      EmptyQueue(items, queued, dry);
      if !req.patchAll {
        SameKeys(ids, DecidedIDs(decided), LowerIDs(install));
      }
    }

    lemma EmptyQueue(items: seq<Item>, queued: seq<Option<nat>>, dry: bool)
      requires PendingQueued(items, Wua, if req.dryRun then [] else queued, 0)
      requires dry ==> req.dryRun || queued == []
      ensures dry ==> NonePending(items, Wua)
      ensures PendingQueued(items, Wua, queued, 0)
    {
    }

    lemma SameKeys(ids: seq<string>, decided: seq<string>, install: seq<string>)
      requires forall x :: x in Lowered(ids) <==> x in install || x in decided
      ensures KeysFor(Wua, Lowered(ids)) == KeysFor(Wua, decided) + KeysFor(Wua, install)
    {
    }

    /** Downloads everything at once, then installs one by one. */
    method DownloadAndInstall(ghost a: ScanAnswer, install: seq<Update>, queued: seq<Option<nat>>)
      requires Valid() && NoneStarted(items) && !req.dryRun
      requires QueuedFor(items, install, queued) && forall i :: 0 <= i < |queued| ==> queued[i] != None
      requires PendingQueued(items, Wua, queued, 0) && NoCodes(items, queued)
      requires NoInstallIn(env.trace) && NoDownloadIn(env.trace)
      requires forall j :: 0 <= j < |env.trace| && env.trace[j].Scanned? ==> env.trace[j].scanned == a
      requires SomeScan(env.trace)
      requires IDs(install) == Plan(a.scan, req)
      modifies this`items, this`runErrors, this`timeLimitNoted, env
      ensures Valid() && env.Passed() && NonePending(items, Wua)
      ensures KeepsOthers(old(items), items, Wua) && AttemptsKnown(items, env.trace)
      ensures |old(env.trace)| < |env.trace| && env.trace[|old(env.trace)|].Downloaded?
      ensures env.trace[|old(env.trace)|].download.err != None ==>
                |env.trace| == |old(env.trace)| + 2 && env.trace[|old(env.trace)| + 1].Checked? &&
                match env.trace[|old(env.trace)| + 1].reason
                case None => EndedAs(items, queued, |queued|, Failed, Detail)
                case Some(reason) => EndedAs(items, queued, |queued|, Skipped, reason)
    {
      hide Valid, KeepsOthers, NoneStarted, AttemptsKnown, Safe, Plan, PendingQueued, QueuedFor, NonePending,
           ExplainsUpdates, EndedAs, NoCodes, CodesShown;
      ghost var before := env.trace;
      var ids := IDs(install);
      ValidIsSafe();
      var dl, timedOut := env.Download(ids);
      AppendDownload(before, ids, dl, req);
      CallKeepsValid(Downloaded(ids, dl));
      if dl.err != None {
        var reason := InterruptReason();
        if reason != None {
          PhaseExplained(|before| + 1, env.trace, Skipped, reason.value);
          FinishAll(install, queued, Skipped, reason.value);
        } else {
          PhaseExplained(|before|, env.trace, Failed, Detail);
          FinishAll(install, queued, Failed, Detail);
        }
        NoneStartedMarked(items, env.trace);
        return;
      }
      ghost var first := items;
      var left := DropFailedDownloads(install, queued, dl.results);
      ghost var middle := items;
      NoneStartedMarked(items, env.trace);
      assert dl == DownloadAnswer(dl.results, None);
      DownloadPrepares(before, ids, dl, a);
      QueueLength(items, install, left);
      NoCodesAreShown(items, left, env.trace);
      InstallAll(install, left, dl.results);
      KeepsOthersTransitive(first, middle, items, Wua);
    }

    lemma DownloadPrepares(before: seq<Event>, ids: seq<string>, dl: DownloadAnswer, a: ScanAnswer)
      requires NoDownloadIn(before) && dl == DownloadAnswer(dl.results, None) && ids == Plan(a.scan, req)
      requires SomeScan(before)
      requires forall j :: 0 <= j < |before| && before[j].Scanned? ==> before[j].scanned == a
      ensures Prepared(before + [Downloaded(ids, dl)], req, ids, dl.results)
    {
      hide Plan, SomeScan;
      var t := before + [Downloaded(ids, dl)];
      SomeScanLater(before, t);
      assert t[|before|].Downloaded?;
      assert forall m :: 0 <= m < |before| ==> t[m] == before[m];
    }

    /** What the phase does before it records its outcome. */
    method SearchAndInstall(ids: seq<string>)
      requires Valid() && NoneStarted(items) && ids == WuaIDs(req.targets)
      requires NoScanIn(env.trace) && NoInstallIn(env.trace) && NoDownloadIn(env.trace)
      requires PendingHaveIDs(items, Wua, Lowered(ids)) && (req.patchAll ==> NonePending(items, Wua))
      modifies this, env
      ensures upgraded == old(upgraded)
      ensures Valid() && env.Passed() && NonePending(items, Wua)
      ensures KeepsOthers(old(items), items, Wua) && AttemptsKnown(items, env.trace)
      ensures !req.patchAll ==> byKey.Keys == old(byKey.Keys) + KeysFor(Wua, Lowered(ids))
    {
      hide Valid, KeepsOthers, NoneStarted, AttemptsKnown, Safe, Selection, PendingQueued, QueuedFor,
           NonePending, PendingHaveIDs, WuaIDs, NoCodes;
      ghost var before := env.trace;
      ValidIsSafe();
      var a, timedOut := env.Scan();
      AppendScan(before, a, req);
      CallKeepsValid(Scanned(a));
      assert env.trace[|before|].Scanned?;
      if a.err != None {
        SearchFails(ids);
        return;
      }
      var install, queued := QueueSelection(a, ids);
      NoneStartedMarked(items, env.trace);
      if req.dryRun || |install| == 0 {
        return;
      }
      ghost var middle := items;
      DownloadAndInstall(a, install, queued);
      KeepsOthersTransitive(old(items), middle, items, Wua);
    }

    /** recordWUAOutcome: notes what waits for a restart and, when an install was started,
        makes the next report search afresh. A dry run records nothing. */
    method RecordWUAOutcome()
      requires Valid() && AttemptsKnown(items, env.trace)
      modifies cache
      ensures cache.State() == AfterRun(old(cache.State()), req, items, env.trace)
    {
      hide Valid, RestartIDs;
      if req.dryRun {
        return;
      }
      NoRestarts(items[..0]);
      var attempted := false;
      for i := 0 to |items|
        invariant attempted <==> exists k :: 0 <= k < i && StartedUpdate(items[k])
        invariant cache.State() == Cache.Recorded(old(cache.State()), RestartIDs(items[..i]), false)
      {
        RestartIDsStep(items, i);
        var it := items[i];
        if it.kind != Wua {
          continue;
        }
        if it.started {
          attempted := true;
        }
        var installed := it.status == Installed || it.status == InstalledWithErrors;
        if (installed && it.rebootRequired) || it.status == InstalledPendingReboot {
          cache.NoteRestartPending(it.id);
        }
      }
      assert items[..|items|] == items;
      if attempted {
        cache.Invalidate();
      }
    }

    lemma NoRestarts(items: seq<Item>)
      requires items == []
      ensures RestartIDs(items) == {}
    {
    }

    lemma RestartIDsStep(items: seq<Item>, i: nat)
      requires i < |items|
      ensures RestartIDs(items[..i + 1]) ==
              RestartIDs(items[..i]) + if WaitsForRestart(items[i]) then {ToLower(items[i].id)} else {}
    {
      hide WaitsForRestart;
      var a, b := items[..i], items[..i + 1];
      assert forall k :: 0 <= k < i ==> b[k] == a[k];
      assert b[i] == items[i];
    }

    method RunWUAPhase(ids: seq<string>)
      requires Valid() && NoneStarted(items) && ids == WuaIDs(req.targets)
      requires NoScanIn(env.trace) && NoInstallIn(env.trace) && NoDownloadIn(env.trace)
      requires PendingHaveIDs(items, Wua, Lowered(ids)) && (req.patchAll ==> NonePending(items, Wua))
      modifies this, env, cache
      ensures upgraded == old(upgraded)
      ensures Valid() && env.Passed() && NonePending(items, Wua) && KeepsOthers(old(items), items, Wua)
      ensures !req.patchAll ==> byKey.Keys == old(byKey.Keys) + KeysFor(Wua, Lowered(ids))
      ensures cache.State() == AfterRun(old(cache.State()), req, items, env.trace)
      ensures AnswersShown(items, env.trace)
    {
      hide Valid, KeepsOthers, NoneStarted, AttemptsMarked, AnswersShown, Safe, NonePending, PendingHaveIDs, WuaIDs;
      SearchAndInstall(ids);
      RecordWUAOutcome();
    }

    // ----- the winget phase

    method ReadRenames() returns (entries: seq<string>)
      requires Valid()
      modifies env
      ensures Valid() && env.Passed() && env.trace == old(env.trace) + [RenamesRead(entries)]
    {
      hide Valid, Safe;
      entries := env.PendingFileRenames();
      QuietCall(RenamesRead(entries));
    }

    method CallWinget(id: string) returns (exit: Option<int>)
      requires Valid() && !req.dryRun && MayUpgrade(env.trace, id)
      modifies this`upgraded, env
      ensures Valid() && env.Passed() && env.trace == old(env.trace) + [AppUpgraded(id, exit)]
      ensures upgraded == old(upgraded) + [id]
    {
      hide AllSound, TableValid, LimitValid, Safe, InterruptSeen;
      exit := env.UpgradeApp(id);
      ghost var e := AppUpgraded(id, exit);
      AppendAppUpgrade(old(env.trace), id, exit, req);
      SafeStaysInterrupted(old(env.trace));
      AppendKeepsInterrupt(old(env.trace), e);
      UpgradeIDsAppend(old(env.trace), e);
      AllSoundLater(items, old(env.stopFlag), timeLimitNoted, old(env.trace),
                    env.stopFlag, timeLimitNoted, env.trace);
      upgraded := upgraded + [id];
    }

    /** The upgrade command between two looks at the pending file renames: an app that
        left new ones behind needs a restart. */
    method CallUpgrade(id: string) returns (exit: Option<int>, oc: WingetOutcome)
      requires Valid() && !req.dryRun && ReadyToUpgrade(env.trace, id)
      modifies this`upgraded, env
      ensures upgraded == old(upgraded) + [id]
      ensures Valid() && env.Passed() && old(env.trace) <= env.trace
      ensures forall m :: |old(env.trace)| <= m < |env.trace| ==> NoUpdateEvent(env.trace[m])
      ensures var events := env.trace[|old(env.trace)|..];
              && |events| >= 2 && events[0].RenamesRead? && events[1] == AppUpgraded(id, exit)
              && (forall m :: 2 <= m < |events| ==> events[m].RenamesRead?)
              && (exit != None ==>
                    ExitGives(exit, oc.status) && (oc.status == Skipped ==> oc.message == Pinned) &&
                    RestartAfter(events, exit.value, oc.rebootRequired))
    {
      hide Valid, ClassifyUpgradeExit, NewRenames, ReadyToUpgrade;
      ghost var before := env.trace;
      var renamesBefore := ReadRenames();
      assert env.trace[..|before|] == before;
      exit := CallWinget(id);
      assert env.trace[|before|..] == [RenamesRead(renamesBefore), AppUpgraded(id, exit)];
      oc := ClassifyUpgradeExit(if exit == None then 1 else exit.value);
      ExitIsGiven(if exit == None then 1 else exit.value);
      if exit != None && oc.status == Installed {
        var renamesAfter := ReadRenames();
        assert env.trace[|before|..] ==
               [RenamesRead(renamesBefore), AppUpgraded(id, exit), RenamesRead(renamesAfter)];
        var grown := NewPendingRenames(renamesBefore, renamesAfter);
        if grown {
          oc := WingetOutcome(Installed, true, Detail);
        }
      }
    }

    /** Upgrades one app and classifies how that ended. */
    method UpgradeOne(h: nat)
      requires Valid() && !req.dryRun && h < |items| && items[h].kind == Winget
      requires ReadyToUpgrade(env.trace, items[h].id)
      modifies this`items, this`upgraded, env
      ensures upgraded == old(upgraded) + [old(items)[h].id]
      ensures Valid() && env.Passed() && OnlyAt(old(items), items, h) && items[h].status != Pending
      ensures old(env.trace) <= env.trace
      ensures OwnUpgrade(items[h], env.trace, |old(env.trace)|)
      ensures forall m :: |old(env.trace)| <= m < |env.trace| ==> NoUpdateEvent(env.trace[m])
      ensures UpgradeShown(env.trace[|old(env.trace)|..], items[h])
    {
      hide Valid, Evident, ExitGives, ReadyToUpgrade, RestartAfter;
      ghost var before := |env.trace|;
      var exit, oc := CallUpgrade(items[h].id);
      assert env.trace[before..][1] == env.trace[before + 1];
      if exit == None {
        NoExitFails();
        ExplainedAt(before + 1, KeyOf(items[h]), Failed, Detail, env.trace);
        Finish(h, Failed, Detail);
        return;
      }
      var it := items[h].(exitCode := exit, rebootRequired := oc.rebootRequired, status := oc.status,
                          message := oc.message, completed := true);
      ExplainedAt(before + 1, KeyOf(it), it.status, it.message, env.trace);
      ExitDecides(exit.value, oc.status);
      Put(h, it);
    }

    /** What winget's answer about an app makes of it. */
    method ActOnState(h: nat, state: UpgradeState)
      requires Valid() && h < |items| && items[h].kind == Winget
      requires env.trace != [] && env.trace[|env.trace| - 1] == AppChecked(items[h].id, State(state))
      requires state == Available ==> ReadyToUpgrade(env.trace, items[h].id)
      modifies this`items, this`upgraded, env
      ensures upgraded == old(upgraded) || upgraded == old(upgraded) + [old(items)[h].id]
      ensures Valid() && env.Passed() && OnlyAt(old(items), items, h) && items[h].status != Pending
      ensures old(env.trace) <= env.trace
      ensures OwnUpgrade(items[h], env.trace, |old(env.trace)|)
      ensures forall m :: |old(env.trace)| <= m < |env.trace| ==> NoUpdateEvent(env.trace[m])
    {
      hide Valid, Evident, ReadyToUpgrade, UpgradeShown;
      match state {
        case PinnedApp =>
          CheckExplained(items[h], state, Skipped, Pinned);
          Finish(h, Skipped, Pinned);
        case NoUpgrade =>
          CheckExplained(items[h], state, NotApplicable, Detail);
          Finish(h, NotApplicable, Detail);
        case NotInstalled =>
          CheckExplained(items[h], state, NotApplicable, Detail);
          Finish(h, NotApplicable, Detail);
        case Available =>
          if req.dryRun {
            CheckExplained(items[h], state, WouldInstall, Detail);
            Finish(h, WouldInstall, Detail);
          } else {
            UpgradeOne(h);
          }
      }
    }

    lemma CheckExplained(it: Item, state: UpgradeState, status: Status, message: Message)
      requires it.kind == Winget && env.trace != []
      requires env.trace[|env.trace| - 1] == AppChecked(it.id, State(state))
      requires CheckExplains(State(state), status, message)
      ensures Evident(KeyOf(it), status, message, env.trace)
    {
      ExplainedAt(|env.trace| - 1, KeyOf(it), status, message, env.trace);
    }

    /** Skips the item when the run is interrupted. */
    method SkipIfInterrupted(h: nat) returns (skipped: bool)
      requires Valid() && h < |items| && items[h].kind == Winget
      modifies this`items, this`runErrors, this`timeLimitNoted, env
      ensures Valid() && env.Passed() && |items| == |old(items)|
      ensures env.trace == old(env.trace) + [Checked(if skipped then Some(items[h].message) else None)]
      ensures skipped ==> OnlyAt(old(items), items, h) && items[h].status == Skipped
      ensures !skipped ==> items == old(items)
    {
      hide Valid, Evident, Explains;
      var reason := InterruptReason();
      skipped := reason != None;
      if skipped {
        InterruptExplained(items[h], reason.value);
        Finish(h, Skipped, reason.value);
      }
    }

    /** The check of an app failed: skipped when the run was interrupted, else failed. */
    method CheckFails(h: nat, err: CheckError)
      requires Valid() && h < |items| && items[h].kind == Winget
      requires env.trace != [] && env.trace[|env.trace| - 1] == AppChecked(items[h].id, CheckFailed(err))
      modifies this`items, this`runErrors, this`timeLimitNoted, env
      ensures Valid() && env.Passed() && OnlyAt(old(items), items, h) && items[h].status != Pending
      ensures old(env.trace) <= env.trace
      ensures forall m :: |old(env.trace)| <= m < |env.trace| ==> !env.trace[m].AppUpgraded?
      ensures forall m :: |old(env.trace)| <= m < |env.trace| ==> NoUpdateEvent(env.trace[m])
    {
      hide Valid, Evident, Explains;
      ghost var checked := |env.trace| - 1;
      var skipped := SkipIfInterrupted(h);
      if skipped {
        return;
      }
      CheckFailureExplained(checked, items[h], err);
      var it := items[h].(status := Failed, message := Detail, completed := true);
      Put(h, if err.ExitError? then it.(exitCode := Some(err.code)) else it);
    }

    lemma InterruptExplained(it: Item, reason: Message)
      requires env.trace != [] && env.trace[|env.trace| - 1] == Checked(Some(reason))
      ensures Evident(KeyOf(it), Skipped, reason, env.trace)
    {
      ExplainedAt(|env.trace| - 1, KeyOf(it), Skipped, reason, env.trace);
    }

    lemma CheckFailureExplained(k: nat, it: Item, err: CheckError)
      requires k < |env.trace| && env.trace[k] == AppChecked(it.id, CheckFailed(err)) && it.kind == Winget
      ensures Evident(KeyOf(it), Failed, Detail, env.trace)
    {
      ExplainedAt(k, KeyOf(it), Failed, Detail, env.trace);
    }

    /** One app of the queue: skipped, found up to date, failed, or upgraded. */
    method HandleApp(h: nat, store: set<string>)
      requires Valid() && h < |items| && items[h].kind == Winget && StoreKnown(store, env.trace)
      modifies this`items, this`runErrors, this`timeLimitNoted, this`upgraded, env
      ensures upgraded == old(upgraded) || upgraded == old(upgraded) + [old(items)[h].id]
      ensures Valid() && env.Passed() && OnlyAt(old(items), items, h) && items[h].status != Pending
      ensures old(env.trace) <= env.trace
      ensures OwnUpgrade(items[h], env.trace, |old(env.trace)|)
      ensures forall m :: |old(env.trace)| <= m < |env.trace| ==> NoUpdateEvent(env.trace[m])
    {
      hide Valid, Evident, Explains, StoreKnown, ToLower;
      StoreKnownLater(store, env.trace);
      var skipped := SkipIfInterrupted(h);
      if skipped {
        return;
      }
      if ToLower(items[h].id) in store {
        StoreExplained(items[h], store, env.trace);
        Finish(h, Skipped, StoreApp);
        return;
      }
      CheckAndAct(h, store);
    }

    /** Asks winget about one app, which is no Store app, and acts on the answer. */
    method CheckAndAct(h: nat, ghost store: set<string>)
      requires Valid() && h < |items| && items[h].kind == Winget && StoreKnown(store, env.trace)
      requires ToLower(items[h].id) !in store && env.trace != [] && env.trace[|env.trace| - 1] == Checked(None)
      modifies this`items, this`runErrors, this`timeLimitNoted, this`upgraded, env
      ensures upgraded == old(upgraded) || upgraded == old(upgraded) + [old(items)[h].id]
      ensures Valid() && env.Passed() && OnlyAt(old(items), items, h) && items[h].status != Pending
      ensures old(env.trace) <= env.trace
      ensures OwnUpgrade(items[h], env.trace, |old(env.trace)|)
      ensures forall m :: |old(env.trace)| <= m < |env.trace| ==> NoUpdateEvent(env.trace[m])
    {
      hide Valid, StoreKnown, ToLower, Sound;
      StartedSound(h);
      Put(h, items[h].(started := true));
      label Call:
      ghost var before := env.trace;
      var a := env.CheckApp(items[h].id);
      QuietCall@Call(AppChecked(items[h].id, a));
      NowReady(store, before, items[h].id, a);
      if a.CheckFailed? {
        CheckFails(h, a.err);
      } else {
        ActOnState(h, a.state);
      }
    }

    lemma NowReady(store: set<string>, trace: seq<Event>, id: string, a: UpgradeAnswer)
      requires StoreKnown(store, trace) && ToLower(id) !in store
      requires trace != [] && trace[|trace| - 1] == Checked(None)
      ensures a == State(Available) ==> ReadyToUpgrade(trace + [AppChecked(id, a)], id)
    {
      var k :| 0 <= k < |trace| && trace[k] == StoreListed(store);
      var t := trace + [AppChecked(id, a)];
      assert t[k].StoreListed? && t[k].store == store;
    }

    /** The Store's apps are what was listed. */
    ghost predicate StoreKnown(store: set<string>, trace: seq<Event>) {
      exists k :: 0 <= k < |trace| && trace[k] == StoreListed(store)
    }

    lemma StoreKnownLater(store: set<string>, trace: seq<Event>)
      requires StoreKnown(store, trace)
      ensures forall later: seq<Event> :: trace <= later ==> StoreKnown(store, later)
    {
      forall later: seq<Event> | trace <= later ensures StoreKnown(store, later) {
        if k :| 0 <= k < |trace| && trace[k] == StoreListed(store) {
          assert later[k] == StoreListed(store);
        }
      }
    }

    lemma StoreExplained(it: Item, store: set<string>, trace: seq<Event>)
      requires it.kind == Winget && StoreKnown(store, trace) && ToLower(it.id) in store
      ensures Evident(KeyOf(it), Skipped, StoreApp, trace)
    {
      var k :| 0 <= k < |trace| && trace[k] == StoreListed(store);
      ExplainedAt(k, KeyOf(it), Skipped, StoreApp, trace);
    }

    /** No winget: the targets fail. */
    method WingetMissing(ids: seq<string>)
      requires Valid() && PendingHaveIDs(items, Winget, ids)
      requires env.trace != [] && env.trace[|env.trace| - 1] == WingetResolved(false)
      modifies this`items, this`byKey
      ensures Valid() && NonePending(items, Winget) && KeepsOthers(old(items), items, Winget)
      ensures (forall x :: x in ids ==> (Winget, x) in old(byKey)) ==> byKey.Keys == old(byKey.Keys)
    {
      hide Valid, PendingLeft, KeepsOthers, Upserted, TableValid, Evident;
      KeepsOthersRefl(items);
      NonePendingDone(items, ids);
      assert ids[..0] == [];
      for k := 0 to |ids|
        invariant Valid() && KeepsOthers(old(items), items, Winget)
        invariant PendingLeft(items, Winget, ids, ids[..k], [])
        invariant (forall x :: x in ids ==> (Winget, x) in old(byKey)) ==> byKey.Keys == old(byKey.Keys)
      {
        ghost var before := items;
        var it := NewItem(Winget, ids[k], Failed, Detail).(completed := true);
        ExplainedAt(|env.trace| - 1, KeyOf(it), Failed, Detail, env.trace);
        var h := Upsert(it);
        RecordedOne(old(items), before, items, byKey, it, h, ids, ids[..k], []);
        assert ids[..k + 1] == ids[..k] + [it.id];
      }
      assert ids[..|ids|] == ids;
      LeftIsQueued(items, Winget, ids, ids, []);
    }

    lemma NonePendingDone(items: seq<Item>, ids: seq<string>)
      requires PendingHaveIDs(items, Winget, ids)
      ensures PendingLeft(items, Winget, ids, [], [])
    {
    }

    /** Queues every app winget can upgrade, each ID once, letter case aside. */
    method QueueApps() returns (queued: seq<Option<nat>>)
      requires Valid() && NonePending(items, Winget)
      modifies this`items, this`byKey, env
      ensures Valid() && env.Passed() && |env.trace| == |old(env.trace)| + 1
      ensures old(env.trace) <= env.trace && env.trace[|old(env.trace)|].AppsListed?
      ensures KeepsOthers(old(items), items, Winget) && PendingQueued(items, Winget, queued, 0)
      ensures AppsQueued(items, queued) && QueuedAre(items, queued, AppIDs(env.trace[|old(env.trace)|].apps))
    {
      hide Valid, PendingLeft, KeepsOthers, Upserted, TableValid, IsWingetId, AppsQueued, QueuedAre, Explains;
      var apps := env.UpdatableApps();
      QuietCall(AppsListed(apps));
      var seen: set<string> := {};
      queued := [];
      KeepsOthersRefl(items);
      NoAppsQueued(items);
      ghost var done: seq<string> := [];
      for k := 0 to |apps|
        invariant Valid() && env.Passed() && env.trace == old(env.trace) + [AppsListed(apps)]
        invariant KeepsOthers(old(items), items, Winget) && AppsQueued(items, queued)
        invariant QueuedAre(items, queued, AppIDs(apps[..k])) && seen == FoldedIDs(AppIDs(apps[..k]))
        invariant PendingLeft(items, Winget, [], done, queued)
      {
        var p := apps[k];
        assert apps[..k + 1][..k] == apps[..k];
        FoldedAppend(AppIDs(apps[..k]), p.id);
        if !p.needsUpdate || p.id == "" || !IsWingetId(p.id) || ToLower(p.id) in seen {
          continue;
        }
        seen := seen + {ToLower(p.id)};
        ghost var before := items;
        var it := NewItem(Winget, p.id, Pending, NoMessage).(title := p.name);
        var h := Upsert(it);
        RecordedOne(old(items), before, items, byKey, it, h, [], done, queued);
        AppQueued(before, items, it, h, queued, AppIDs(apps[..k]));
        done := done + [it.id];
        queued := queued + [Some(h)];
      }
      assert apps[..|apps|] == apps;
      LeftIsQueued(items, Winget, [], done, queued);
    }

    /** The queued entries are the apps with these IDs, in order. */
    ghost predicate QueuedAre(items: seq<Item>, queued: seq<Option<nat>>, ids: seq<string>) {
      |queued| == |ids| &&
      forall k :: 0 <= k < |ids| ==>
        queued[k] != None && queued[k].value < |items| && items[queued[k].value].id == ids[k]
    }

    lemma NoAppsQueued(items: seq<Item>)
      requires NonePending(items, Winget)
      ensures AppsQueued(items, []) && QueuedAre(items, [], []) && PendingLeft(items, Winget, [], [], [])
      ensures AppIDs([]) == []
    {
    }

    lemma AppQueued(before: seq<Item>, after: seq<Item>, it: Item, h: nat, queued: seq<Option<nat>>,
                    ids: seq<string>)
      requires AppsQueued(before, queued) && QueuedAre(before, queued, ids)
      requires Upserted(before, after, it, h) && it.kind == Winget
      ensures AppsQueued(after, queued + [Some(h)]) && QueuedAre(after, queued + [Some(h)], ids + [it.id])
    {
    }

    /** Queues the requested apps, which the run recorded when it began. */
    method QueueTargets(ids: seq<string>) returns (queued: seq<Option<nat>>)
      requires Valid() && PendingHaveIDs(items, Winget, ids)
      requires forall x :: x in ids ==> (Winget, x) in byKey
      ensures PendingQueued(items, Winget, queued, 0) && AppsQueued(items, queued)
      ensures QueuedAre(items, queued, ids)
    {
      hide AllSound, Safe, LimitValid;
      queued := [];
      for k := 0 to |ids|
        invariant |queued| == k
        invariant forall j :: 0 <= j < k ==> queued[j] == Some(byKey[(Winget, ids[j])])
      {
        assert ids[k] in ids;
        queued := queued + [Some(byKey[(Winget, ids[k])])];
      }
      forall i | 0 <= i < |items| && items[i].kind == Winget && items[i].status == Pending
        ensures exists j :: 0 <= j < |queued| && queued[j] == Some(i)
      {
        var j :| 0 <= j < |ids| && ids[j] == items[i].id;
        assert byKey[KeyOf(items[i])] == i && queued[j] == Some(i);
      }
    }

    method QueuedIDs(queued: seq<Option<nat>>) returns (ids: seq<string>)
      requires AppsQueued(items, queued)
      ensures |ids| == |queued| && forall k :: 0 <= k < |ids| ==> ids[k] == items[queued[k].value].id
    {
      ids := [];
      for k := 0 to |queued|
        invariant |ids| == k && forall j :: 0 <= j < k ==> ids[j] == items[queued[j].value].id
      {
        ids := ids + [items[queued[k].value].id];
      }
    }

    method RunWingetPhase(ids: seq<string>)
      requires Valid() && PendingHaveIDs(items, Winget, ids) && (req.patchAll ==> NonePending(items, Winget))
      requires !req.patchAll ==> forall x :: x in ids ==> (Winget, x) in byKey
      requires ids == WingetIDs(req.targets) && upgraded == []
      modifies this, env
      ensures Valid() && env.Passed() && NonePending(items, Winget)
      ensures KeepsOthers(old(items), items, Winget) && old(env.trace) <= env.trace
      ensures forall m :: |old(env.trace)| <= m < |env.trace| ==> NoUpdateEvent(env.trace[m])
      ensures !req.patchAll ==> byKey.Keys == old(byKey.Keys)
      ensures FollowQueue(upgraded, env.trace, req) && UpgradesKnown(items, env.trace, req)
    {
      hide Valid, KeepsOthers, AppsQueued, UpgradesShown, UpgradesKnown, UpgradeIDs, WingetIDs, PendingQueued,
           PendingHaveIDs, NonePending, QueuedAre, StoreKnown, FollowQueue, IsSubsequence, AppIDs;
      var ok := env.ResolveWinget();
      QuietCall(WingetResolved(ok));
      KeepsOthersRefl(items);
      NoUpgradesFollow(env.trace, req);
      TraceShowsUpgrades();
      if !ok {
        WingetMissing(ids);
        NoUpgradesKnown(items);
        return;
      }
      ghost var first, listed := items, |env.trace|;
      var queued;
      ghost var order;
      queued, order := QueueForWinget(ids);
      ghost var middle, before := items, env.trace;
      var store := AskStore(queued);
      UpgradeAll(queued, store, order);
      KeepsOthersTransitive(first, middle, items, Winget);
      assert req.patchAll ==> env.trace[listed] == before[listed];
      UpgradesFollow(upgraded, env.trace, req, order, listed);
      ShownAreKnown(items, env.trace, req, order, listed);
    }

    lemma NoUpgradesKnown(items: seq<Item>)
      requires UpgradeIDs(env.trace) == []
      ensures UpgradesKnown(items, env.trace, req)
    {
      NoUpgradeIn(env.trace);
    }

    /** The apps to upgrade: those winget lists, or the requested ones. */
    method QueueForWinget(ids: seq<string>) returns (queued: seq<Option<nat>>, ghost order: seq<string>)
      requires Valid() && PendingHaveIDs(items, Winget, ids) && (req.patchAll ==> NonePending(items, Winget))
      requires !req.patchAll ==> forall x :: x in ids ==> (Winget, x) in byKey
      modifies this`items, this`byKey, env
      ensures Valid() && env.Passed() && old(env.trace) <= env.trace
      ensures PendingQueued(items, Winget, queued, 0) && AppsQueued(items, queued)
      ensures KeepsOthers(old(items), items, Winget) && QueuedAre(items, queued, order)
      ensures forall m :: |old(env.trace)| <= m < |env.trace| ==> NoUpdateEvent(env.trace[m])
      ensures !req.patchAll ==> byKey == old(byKey) && order == ids
      ensures req.patchAll ==> |old(env.trace)| < |env.trace| && env.trace[|old(env.trace)|].AppsListed? &&
                               order == AppIDs(env.trace[|old(env.trace)|].apps)
    {
      hide Valid, KeepsOthers, AppsQueued, PendingQueued, PendingHaveIDs, NonePending, QueuedAre, AppIDs;
      KeepsOthersRefl(items);
      if req.patchAll {
        queued := QueueApps();
        order := AppIDs(env.trace[|old(env.trace)|].apps);
      } else {
        queued := QueueTargets(ids);
        order := ids;
      }
    }

    /** The queued apps that the Store keeps up to date. */
    method AskStore(queued: seq<Option<nat>>) returns (store: set<string>)
      requires Valid() && AppsQueued(items, queued)
      modifies env
      ensures Valid() && env.Passed() && old(env.trace) <= env.trace
      ensures queued != [] ==> StoreKnown(store, env.trace)
      ensures forall m :: |old(env.trace)| <= m < |env.trace| ==> NoUpdateEvent(env.trace[m])
    {
      hide Valid, AppsQueued, Explains;
      store := {};
      if |queued| > 0 {
        var apps := QueuedIDs(queued);
        store := env.StoreApps(apps);
        QuietCall(StoreListed(store));
        assert env.trace[|env.trace| - 1] == StoreListed(store);
      }
    }

    lemma NoUpgradesFollow(trace: seq<Event>, r: Request)
      ensures FollowQueue([], trace, r)
    {
    }

    lemma UpgradesFollow(ids: seq<string>, trace: seq<Event>, r: Request, order: seq<string>, listed: nat)
      requires IsSubsequence(ids, order)
      requires if r.patchAll
               then listed < |trace| && trace[listed].AppsListed? && order == AppIDs(trace[listed].apps)
               else order == WingetIDs(r.targets)
      ensures FollowQueue(ids, trace, r)
    {
      hide IsSubsequence, AppIDs, WingetIDs;
    }

    /** The winget loop: one app after the other. */
    method UpgradeAll(queued: seq<Option<nat>>, store: set<string>, ghost order: seq<string>)
      requires Valid() && AppsQueued(items, queued) && PendingQueued(items, Winget, queued, 0)
      requires queued != [] ==> StoreKnown(store, env.trace)
      requires QueuedAre(items, queued, order) && upgraded == []
      modifies this`items, this`runErrors, this`timeLimitNoted, this`upgraded, env
      ensures Valid() && env.Passed() && NonePending(items, Winget)
      ensures KeepsOthers(old(items), items, Winget) && old(env.trace) <= env.trace
      ensures forall m :: |old(env.trace)| <= m < |env.trace| ==> NoUpdateEvent(env.trace[m])
      ensures IsSubsequence(upgraded, order) && UpgradesShown(items, env.trace, order)
    {
      hide Valid, KeepsOthers, PendingQueued, StoreKnown, IsSubsequence, UpgradesShown, OwnUpgrade;
      KeepsOthersRefl(items);
      if queued != [] {
        StoreKnownLater(store, env.trace);
      }
      EmptyIsSubsequence(order[..0]);
      TraceShowsUpgrades();
      NoneUpgraded(items, order);
      for k := 0 to |queued|
        invariant Valid() && env.Passed() && AppsQueued(items, queued) && QueuedAre(items, queued, order)
        invariant PendingQueued(items, Winget, queued, k) && IsSubsequence(upgraded, order[..k])
        invariant KeepsOthers(old(items), items, Winget) && old(env.trace) <= env.trace
        invariant forall m :: |old(env.trace)| <= m < |env.trace| ==> NoUpdateEvent(env.trace[m])
        invariant UpgradesShown(items, env.trace, order)
      {
        ghost var before, done, trace := items, upgraded, env.trace;
        var h := queued[k].value;
        TraceShowsUpgrades();
        HandleApp(h, store);
        UpgradedIsShown(before, items, h, order, k, trace, env.trace);
        OneMoreUpgrade(done, upgraded, order, k);
        FinishedOne(before, items, Winget, queued, k, h);
        OnlyAtKeeps(before, items, h);
        KeepsOthersTransitive(old(items), before, items, Winget);
      }
      assert order[..|queued|] == order;
      AppsDone(items, queued);
    }

    lemma NoneUpgraded(items: seq<Item>, order: seq<string>)
      requires UpgradeIDs(env.trace) == []
      ensures UpgradesShown(items, env.trace, order)
    {
      NoUpgradeIn(env.trace);
    }

    lemma OneMoreUpgrade(done: seq<string>, now: seq<string>, order: seq<string>, k: nat)
      requires k < |order| && IsSubsequence(done, order[..k]) && (now == done || now == done + [order[k]])
      ensures IsSubsequence(now, order[..k + 1])
    {
      hide IsSubsequence;
      assert order[..k + 1] == order[..k] + [order[k]];
      SubsequenceGrows(done, order[..k], [order[k]]);
      SubsequenceTakes(done, order[..k], order[k], []);
      assert order[..k] + [order[k]] + [] == order[..k + 1];
    }

    lemma AppsDone(items: seq<Item>, queued: seq<Option<nat>>)
      requires PendingQueued(items, Winget, queued, |queued|)
      ensures NonePending(items, Winget)
    {
    }

    // ----- the whole run

    /** Records one target as pending. */
    method RecordTarget(kind: Kind, id: string)
      requires Valid() && AllPending(items) && NoneStarted(items)
      requires kind == Winget || (kind == Wua && ToLower(id) == id)
      modifies this`items, this`byKey
      ensures Valid() && AllPending(items) && NoneStarted(items)
      ensures byKey.Keys == old(byKey.Keys) + {(kind, id)}
    {
      hide Valid, Explains;
      var it := NewItem(kind, id, Pending, NoMessage);
      var h := Upsert(it);
    }

    /** Records the targets of one kind. */
    method RecordKind(kind: Kind, ids: seq<string>)
      requires Valid() && AllPending(items) && NoneStarted(items)
      requires kind == Winget || (kind == Wua && Lowered(ids) == ids)
      modifies this`items, this`byKey
      ensures Valid() && AllPending(items) && NoneStarted(items)
      ensures byKey.Keys == old(byKey.Keys) + KeysFor(kind, ids)
    {
      NoKeys();
      hide Valid, KeysFor, AllPending, NoneStarted;
      assert ids[..0] == [];
      for k := 0 to |ids|
        invariant Valid() && AllPending(items) && NoneStarted(items)
        invariant byKey.Keys == old(byKey.Keys) + KeysFor(kind, ids[..k])
      {
        assert kind == Wua ==> Lowered(ids)[k] == ids[k];
        RecordTarget(kind, ids[k]);
        assert ids[..k + 1] == ids[..k] + [ids[k]];
        KeysForAppend(kind, ids[..k], ids[k]);
      }
      assert ids[..|ids|] == ids;
    }

    /** Records every target as pending, so each is accounted for whatever happens. */
    method RecordTargets(wuaIDs: seq<string>, wingetIDs: seq<string>)
      requires Valid() && items == []
      modifies this`items, this`byKey
      ensures Valid() && NoneStarted(items)
      ensures PendingHaveIDs(items, Wua, Lowered(wuaIDs)) && PendingHaveIDs(items, Winget, wingetIDs)
      ensures byKey.Keys == KeysFor(Wua, Lowered(wuaIDs)) + KeysFor(Winget, wingetIDs)
      ensures RestartIDs(items) == {}
    {
      EmptyTable();
      hide Valid, KeysFor, RestartIDs, PendingHaveIDs;
      LoweredTwice(wuaIDs);
      RecordKind(Wua, Lowered(wuaIDs));
      RecordKind(Winget, wingetIDs);
      RecordedIDs(Lowered(wuaIDs), wingetIDs);
    }

    lemma LoweredTwice(ids: seq<string>)
      ensures Lowered(Lowered(ids)) == Lowered(ids)
    {
      forall k | 0 <= k < |ids| ensures ToLower(ToLower(ids[k])) == ToLower(ids[k]) {
        ToLowerIdempotent(ids[k]);
      }
    }

    lemma RecordedIDs(all: seq<string>, wingetIDs: seq<string>)
      requires Valid() && AllPending(items) && byKey.Keys == KeysFor(Wua, all) + KeysFor(Winget, wingetIDs)
      ensures PendingHaveIDs(items, Wua, all) && PendingHaveIDs(items, Winget, wingetIDs)
      ensures RestartIDs(items) == {}
    {
      hide AllSound, Safe, LimitValid;
      assert forall i :: 0 <= i < |items| ==> KeyOf(items[i]) in byKey.Keys;
    }

    lemma EmptyTable()
      requires Valid() && items == []
      ensures byKey.Keys == {}
    {
    }

    /** The two phases, each only when the request has something for it. */
    method UpdatesThenApps(wuaIDs: seq<string>, wingetIDs: seq<string>)
      requires Valid() && NoneStarted(items) && env.trace == []
      requires wuaIDs == WuaIDs(req.targets)
      requires PendingHaveIDs(items, Wua, Lowered(wuaIDs)) && PendingHaveIDs(items, Winget, wingetIDs)
      requires req.patchAll ==> items == []
      requires !req.patchAll ==> byKey.Keys == KeysFor(Wua, Lowered(wuaIDs)) + KeysFor(Winget, wingetIDs)
      requires RestartIDs(items) == {}
      requires wingetIDs == WingetIDs(req.targets) && upgraded == []
      modifies this, env, cache
      ensures FollowQueue(upgraded, env.trace, req)
      ensures AnswersShown(items, env.trace) && UpgradesKnown(items, env.trace, req)
      ensures Valid() && NonePending(items, Wua) && NonePending(items, Winget)
      ensures !req.patchAll ==> byKey.Keys == old(byKey.Keys)
      ensures cache.State() == AfterRun(old(cache.State()), req, items, env.trace)
    {
      hide Valid, Safe, KeepsOthers, PendingHaveIDs, NonePending, NoneStarted, WuaIDs, WingetIDs, RestartIDs,
           FollowQueue, AnswersShown, UpgradesKnown;
      KeepsOthersRefl(items);
      NoInstallsShown(items, env.trace);
      ghost var first := items;
      NoItemsNonePending(items);
      if (req.patchAll && req.includeUpdates) || |wuaIDs| > 0 {
        RunWUAPhase(wuaIDs);
      } else {
        NoIDsNonePending(items, Wua, Lowered(wuaIDs));
      }
      ghost var middle, installed := items, env.trace;
      AppsKept(first, items, wingetIDs);
      if (req.patchAll && req.includeApps) || |wingetIDs| > 0 {
        RunWingetPhase(wingetIDs);
      } else {
        NoIDsNonePending(items, Winget, wingetIDs);
        KeepsOthersRefl(items);
        NoUpgradesFollow(env.trace, req);
        TraceShowsUpgrades();
        NoUpgradesKnown(items);
      }
      UpdatesKept(middle, items, installed, env.trace);
    }

    lemma NoItemsNonePending(items: seq<Item>)
      ensures items == [] ==> NonePending(items, Wua) && NonePending(items, Winget)
    {
    }

    lemma NoIDsNonePending(items: seq<Item>, kind: Kind, ids: seq<string>)
      requires PendingHaveIDs(items, kind, ids) && |ids| == 0
      ensures NonePending(items, kind)
    {
    }

    /** The Windows Update phase leaves the apps alone. */
    lemma AppsKept(before: seq<Item>, after: seq<Item>, ids: seq<string>)
      requires KeepsOthers(before, after, Wua) && PendingHaveIDs(before, Winget, ids)
      ensures PendingHaveIDs(after, Winget, ids)
      ensures NonePending(before, Winget) ==> NonePending(after, Winget)
    {
    }

    /** The winget phase leaves the updates alone. */
    lemma UpdatesKept(before: seq<Item>, after: seq<Item>, trace: seq<Event>, later: seq<Event>)
      requires KeepsOthers(before, after, Winget) && NonePending(before, Wua) && trace <= later
      requires forall m :: |trace| <= m < |later| ==> NoUpdateEvent(later[m])
      ensures NonePending(after, Wua) && RestartIDs(after) == RestartIDs(before)
      ensures NoInstallIn(later) == NoInstallIn(trace)
      ensures AnswersShown(before, trace) ==> AnswersShown(after, later)
    {
      if AnswersShown(before, trace) {
        AnswersStayShown(before, after, trace, later);
      }
      hide AnswersShown;
      assert forall m :: 0 <= m < |trace| ==> later[m] == trace[m];
      assert forall i :: 0 <= i < |before| ==> (WaitsForRestart(before[i]) <==> WaitsForRestart(after[i]));
      forall x ensures x in RestartIDs(before) <==> x in RestartIDs(after) {
        if i :| 0 <= i < |before| && WaitsForRestart(before[i]) && ToLower(before[i].id) == x {
          assert WaitsForRestart(after[i]) && after[i].id == before[i].id;
        }
        if i :| 0 <= i < |after| && WaitsForRestart(after[i]) && ToLower(after[i].id) == x {
          assert i < |before| && WaitsForRestart(before[i]);
        }
      }
    }

    /** The result: the items, whether a restart is needed, and the stage. */
    method Conclude() returns (result: RunResult)
      requires Valid() && NonePending(items, Wua) && NonePending(items, Winget)
      modifies env
      ensures Valid() && (env.trace == old(env.trace) || exists b :: env.trace == old(env.trace) + [RebootAsked(b)])
      ensures result.Finished? && result.items == items && Accounted(items)
      ensures StageSound(result.stage, items, runErrors, req.dryRun)
      ensures result.stage == Cancelled <==> env.stopFlag
      ensures RestartExplained(result.rebootRequired, items, req.dryRun, env.trace)
    {
      hide Valid, Safe;
      var reboot, installedUpdate := false, false;
      for k := 0 to |items|
        invariant reboot <==> exists i :: 0 <= i < k && items[i].rebootRequired
        invariant installedUpdate <==> exists i :: 0 <= i < k && IsInstalledUpdate(items[i])
      {
        reboot := reboot || items[k].rebootRequired;
        if items[k].kind == Wua && (items[k].status == Installed || items[k].status == InstalledWithErrors) {
          installedUpdate := true;
        }
      }
      if !req.dryRun && !reboot && installedUpdate {
        reboot := env.RebootRequired();
        QuietCall(RebootAsked(reboot));
      }
      label Asked:
      var stopped := env.Stopped();
      TimePassed@Asked();
      var stage := FinalWindowsStage(items, runErrors, stopped, req.dryRun);
      ValidMakesStageSound(stage);
      AllAccounted();
      result := Finished(stage, reboot, items);
    }

    lemma ValidMakesStageSound(stage: Stage)
      requires Valid()
      requires stage == Cancelled <==> env.stopFlag
      requires stage == StageFailed <==>
                 !env.stopFlag && (runErrors != [] || exists i :: 0 <= i < |items| && IsBad(items[i]))
      requires (stage == DryRunCompleted ==> req.dryRun) && (stage == Completed ==> !req.dryRun)
      ensures StageSound(stage, items, runErrors, req.dryRun)
    {
      hide Safe, TableValid, Evident, IsBad;
      if HasSkip(items, StoppedByUser) {
        var i :| 0 <= i < |items| && items[i].status == Skipped && items[i].message == StoppedByUser;
        assert Sound(items[i], env.stopFlag, timeLimitNoted, env.trace);
      }
      if HasSkip(items, TimeLimit) {
        var i :| 0 <= i < |items| && items[i].status == Skipped && items[i].message == TimeLimit;
        assert Sound(items[i], env.stopFlag, timeLimitNoted, env.trace);
        assert runErrors != [];
      }
    }

    lemma AllAccounted()
      requires Valid() && NonePending(items, Wua) && NonePending(items, Winget)
      ensures Accounted(items)
    {
      hide Safe, TableValid, Evident;
      forall i | 0 <= i < |items| ensures items[i].status != Pending {
        assert Sound(items[i], env.stopFlag, timeLimitNoted, env.trace);
      }
    }

    lemma NothingYet(wuaIDs: seq<string>, wingetIDs: seq<string>)
      requires items == []
      ensures NoneStarted(items) && RestartIDs(items) == {}
      ensures PendingHaveIDs(items, Wua, Lowered(wuaIDs)) && PendingHaveIDs(items, Winget, wingetIDs)
    {
    }

    /** A run that passed its early checks: every item ends decided, every rule on traces
        is kept, and the stage says what happened. */
    method Run() returns (result: RunResult)
      requires Valid() && items == [] && runErrors == [] && env.trace == [] && upgraded == []
      modifies this, env, cache
      ensures Valid()
      ensures result.Rejected? <==> RejectedEarly(req)
      ensures result.Rejected? ==> items == [] && env.trace == [] && cache.State() == old(cache.State())
      ensures result.Finished? ==> result.items == items && Accounted(items)
      ensures result.Finished? && !req.patchAll ==>
                byKey.Keys == KeysFor(Wua, Lowered(WuaIDs(req.targets))) + KeysFor(Winget, WingetIDs(req.targets))
      ensures result.Finished? ==> StageSound(result.stage, items, runErrors, req.dryRun)
      ensures result.Finished? ==> (result.stage == Cancelled <==> env.stopFlag)
      ensures result.Finished? ==> RestartExplained(result.rebootRequired, items, req.dryRun, env.trace)
      ensures result.Finished? ==> cache.State() == AfterRun(old(cache.State()), req, items, env.trace)
      ensures result.Finished? ==> FollowQueue(UpgradeIDs(env.trace), env.trace, req)
      ensures result.Finished? ==> AnswersShown(items, env.trace) && UpgradesKnown(items, env.trace, req)
      ensures result.Finished? && result.stage == Completed ==>
                InstallsWentWell(env.trace) && UpgradesWentWell(env.trace, req)
      ensures result.Finished? && !req.dryRun ==>
                RestartsKnown(old(cache.restartPending), cache.restartPending, env.trace)
    {
      hide Valid, Safe, KeepsOthers, PendingHaveIDs, NonePending, NoneStarted, WuaIDs, WingetIDs;
      if req.patchAll && !req.includeUpdates && !req.includeApps {
        return Rejected;
      }
      var wuaIDs, wingetIDs := WuaIDs(req.targets), WingetIDs(req.targets);
      if !req.patchAll && |wuaIDs| + |wingetIDs| == 0 {
        return Rejected;
      }
      NothingYet(wuaIDs, wingetIDs);
      if !req.patchAll {
        RecordTargets(wuaIDs, wingetIDs);
      }
      UpdatesThenApps(wuaIDs, wingetIDs);
      ghost var before := env.trace;
      result := Conclude();
      AskingKeeps(before, old(cache.State()));
      TraceShowsUpgrades();
      RestartsAreShown();
      if result.stage == Completed {
        NoneBadWentWell(items, env.trace, req);
      }
    }

    /** Asking for a restart changes nothing that is known of the trace. */
    lemma {:induction false} AskingKeeps(before: seq<Event>, state: Cache.CacheState)
      requires env.trace == before || exists b :: env.trace == before + [RebootAsked(b)]
      requires AnswersShown(items, before) && UpgradesKnown(items, before, req)
      requires FollowQueue(upgraded, before, req)
      ensures AnswersShown(items, env.trace) && UpgradesKnown(items, env.trace, req)
      ensures FollowQueue(upgraded, env.trace, req)
      ensures AfterRun(state, req, items, env.trace) == AfterRun(state, req, items, before)
    {
      if env.trace != before {
        var b :| env.trace == before + [RebootAsked(b)];
        AnswersStayShown(items, items, before, env.trace);
        KnownStayKnown(items, before, RebootAsked(b), req);
        hide AnswersShown, UpgradesKnown, RestartIDs, AppIDs, WingetIDs, IsSubsequence;
        assert forall k :: 0 <= k < |before| ==> env.trace[k] == before[k];
      }
    }

    lemma RestartsAreShown()
      requires Valid() && AnswersShown(items, env.trace)
      ensures forall pending: set<string> :: RestartsKnown(pending, pending + RestartIDs(items), env.trace)
    {
      hide AnswersShown, Evident, Safe, RestartIDs, RestartsKnown;
      assert forall i :: 0 <= i < |items| && items[i].kind == Wua ==> ToLower(items[i].id) == items[i].id by {
        assert forall i :: 0 <= i < |items| ==> Sound(items[i], env.stopFlag, timeLimitNoted, env.trace);
      }
      forall pending: set<string> ensures RestartsKnown(pending, pending + RestartIDs(items), env.trace) {
        ShownRestarts(items, byKey, env.trace, pending);
      }
    }

    lemma TraceShowsUpgrades()
      requires Valid()
      ensures UpgradeIDs(env.trace) == upgraded
    {
    }
  }

  // ----- requests and their runs

  function ItemKeys(items: seq<Item>): (r: seq<ItemKey>)
    ensures |r| == |items| && forall i :: 0 <= i < |r| ==> r[i] == KeyOf(items[i])
  {
    seq(|items|, i requires 0 <= i < |items| => KeyOf(items[i]))
  }

  function RequestedKeys(targets: seq<Target>): (r: seq<ItemKey>)
    ensures |r| == |targets| && forall i :: 0 <= i < |r| ==> r[i] == (targets[i].kind, targets[i].id)
  {
    seq(|targets|, i requires 0 <= i < |targets| => (targets[i].kind, targets[i].id))
  }

  lemma {:induction false} TargetIDs(targets: seq<Target>, kind: Kind, id: string)
    requires forall i :: 0 <= i < |targets| ==> ValidTarget(targets[i]) && Normalised(targets[i]) == targets[i]
    ensures (kind, id) in RequestedKeys(targets) <==>
            (kind, id) in KeysFor(Wua, Lowered(WuaIDs(targets))) + KeysFor(Winget, WingetIDs(targets))
  {
    if targets != [] {
      hide IsGuid, IsWingetId;
      var init, t := targets[..|targets| - 1], targets[|targets| - 1];
      TargetIDs(init, kind, id);
      assert RequestedKeys(targets) == RequestedKeys(init) + [(t.kind, t.id)];
      assert ValidTarget(t);
      match t.kind {
        case Wua =>
          assert Lowered(WuaIDs(targets)) == Lowered(WuaIDs(init)) + [ToLower(t.id)];
          assert WingetIDs(targets) == WingetIDs(init);
          KeysForAppend(Wua, Lowered(WuaIDs(init)), ToLower(t.id));
          assert ToLower(t.id) == t.id by { NormalisedWua(t); }
        case Winget =>
          assert WuaIDs(targets) == WuaIDs(init);
          KeysForAppend(Winget, WingetIDs(init), t.id);
        case Unknown(_) =>
      }
    }
  }

  lemma NormalisedWua(t: Target)
    requires t.kind == Wua && Normalised(t) == t
    ensures ToLower(t.id) == t.id
  {
  }

  /** The items of a targeted run are the requested targets, one each. */
  lemma {:induction false} ItemsAreTargets(items: seq<Item>, byKey: map<ItemKey, nat>, targets: seq<Target>)
    requires TableValid(items, byKey) && Deduplicated(targets)
    requires byKey.Keys == KeysFor(Wua, Lowered(WuaIDs(targets))) + KeysFor(Winget, WingetIDs(targets))
    ensures multiset(ItemKeys(items)) == multiset(RequestedKeys(targets)) && |items| == |targets|
  {
    hide ValidTarget, KeysFor, WuaIDs, WingetIDs;
    var keys, wanted := ItemKeys(items), RequestedKeys(targets);
    TableHasNoDuplicates(items, byKey);
    forall x ensures x in keys <==> x in byKey.Keys {
      if x in byKey.Keys {
        assert keys[byKey[x]] == x;
      }
    }
    hide TableValid;
    forall i, j | 0 <= i < j < |wanted| ensures wanted[i] != wanted[j] {
      assert TargetKey(targets[i]) != TargetKey(targets[j]);
    }
    forall x ensures x in keys <==> x in wanted {
      TargetIDs(targets, x.0, x.1);
    }
    SameMembersSameCounts(keys, wanted);
  }

  lemma {:induction false} WuaTargetsDistinct(targets: seq<Target>)
    requires Deduplicated(targets)
    ensures Distinct(Lowered(WuaIDs(targets)))
    ensures forall x :: x in Lowered(WuaIDs(targets)) ==>
              exists i :: 0 <= i < |targets| && TargetKey(targets[i]) == (Wua, x)
  {
    hide ValidTarget, Normalised;
    if targets != [] {
      var init, t := targets[..|targets| - 1], targets[|targets| - 1];
      WuaTargetsDistinct(init);
      forall x | x in Lowered(WuaIDs(init))
        ensures exists i :: 0 <= i < |targets| && TargetKey(targets[i]) == (Wua, x)
      {
        var i :| 0 <= i < |init| && TargetKey(init[i]) == (Wua, x);
        assert TargetKey(targets[i]) == (Wua, x);
      }
      if t.kind == Wua {
        assert Lowered(WuaIDs(targets)) == Lowered(WuaIDs(init)) + [ToLower(t.id)];
        assert TargetKey(targets[|targets| - 1]) == (Wua, ToLower(t.id));
        forall x | x in Lowered(WuaIDs(init)) ensures x != ToLower(t.id) {
          var i :| 0 <= i < |init| && TargetKey(init[i]) == (Wua, x);
          assert TargetKey(targets[i]) != TargetKey(targets[|targets| - 1]);
        }
      }
    }
  }

  /** Each update is planned once: distinct targets, or a search that offers it once. */
  ghost predicate PlannedOnce(trace: seq<Event>, req: Request) {
    if req.patchAll then forall j :: 0 <= j < |trace| && trace[j].Scanned? ==> OfferedOnce(trace[j].scanned.scan)
    else Deduplicated(req.targets)
  }

  lemma {:induction false} PlanDistinct(trace: seq<Event>, req: Request, j: nat)
    requires PlannedOnce(trace, req) && j < |trace| && trace[j].Scanned?
    ensures Distinct(Lowered(Plan(trace[j].scanned.scan, req)))
  {
    hide Deduplicated, Plan, Distinct, WuaIDs, OfferedOnce;
    if req.patchAll {
      PatchAllPlanIsDistinctExactly(trace[j].scanned.scan, req);
    } else {
      WuaTargetsDistinct(req.targets);
      PlanIsDistinct(trace[j].scanned.scan, req);
    }
  }

  /** When nothing is planned twice, every install of a completed run went well. */
  lemma {:induction false} AllWentWell(trace: seq<Event>, req: Request)
    requires Safe(trace, req) && PlannedOnce(trace, req) && InstallsWentWell(trace)
    ensures forall k :: 0 <= k < |trace| && trace[k].InstallCall? ==> WentWell(trace, k)
  {
    hide Plan, IsSubsequence, ChecksFirst, HonoursBlocks, Distinct, PlannedOnce, HonoursApps, StaysInterrupted,
         InstallsWentWell, WentWell, DownloadAllows;
    forall k | 0 <= k < |trace| && trace[k].InstallCall? ensures WentWell(trace, k) {
      var j :| 0 <= j < k && trace[j].Downloaded? && trace[k].id in trace[j].ids;
      var i :| 0 <= i < |trace| && trace[i].Scanned?;
      assert trace[j].ids == Plan(trace[i].scanned.scan, req);
      PlanDistinct(trace, req, i);
      PlannedOnceWentWell(trace, k);
    }
  }

  /** Then each update is installed at most once, letter case aside. */
  lemma {:induction false} InstallsAtMostOnce(trace: seq<Event>, req: Request)
    requires Safe(trace, req) && PlannedOnce(trace, req)
    ensures Distinct(Lowered(InstallIDs(trace)))
  {
    hide Deduplicated, Plan, IsSubsequence, ChecksFirst, HonoursBlocks, HonoursDownloads, Distinct, WuaIDs,
         OfferedOnce, HonoursApps, StaysInterrupted;
    if NoInstallIn(trace) {
      NoInstallIDs(trace);
      EmptyIsDistinct();
    } else {
      var j :| 0 <= j < |trace| && trace[j].Scanned?;
      var plan := Plan(trace[j].scanned.scan, req);
      PlanDistinct(trace, req, j);
      LoweredSubsequence(InstallIDs(trace), plan);
      SubsequenceDistinct(Lowered(InstallIDs(trace)), Lowered(plan));
    }
  }

  lemma EmptyIsDistinct()
    ensures Distinct([]) && Lowered([]) == []
  {
  }

  lemma {:induction false} WingetTargetsDistinct(targets: seq<Target>)
    requires Deduplicated(targets)
    ensures Distinct(Lowered(WingetIDs(targets)))
    ensures forall x :: x in Lowered(WingetIDs(targets)) ==>
              exists i :: 0 <= i < |targets| && TargetKey(targets[i]) == (Winget, x)
  {
    hide ValidTarget, Normalised;
    if targets != [] {
      var init, t := targets[..|targets| - 1], targets[|targets| - 1];
      WingetTargetsDistinct(init);
      forall x | x in Lowered(WingetIDs(init))
        ensures exists i :: 0 <= i < |targets| && TargetKey(targets[i]) == (Winget, x)
      {
        var i :| 0 <= i < |init| && TargetKey(init[i]) == (Winget, x);
        assert TargetKey(targets[i]) == (Winget, x);
      }
      if t.kind == Winget {
        assert Lowered(WingetIDs(targets)) == Lowered(WingetIDs(init)) + [ToLower(t.id)];
        assert TargetKey(targets[|targets| - 1]) == (Winget, ToLower(t.id));
        forall x | x in Lowered(WingetIDs(init)) ensures x != ToLower(t.id) {
          var i :| 0 <= i < |init| && TargetKey(init[i]) == (Winget, x);
          assert TargetKey(targets[i]) != TargetKey(targets[|targets| - 1]);
        }
      }
    }
  }

  /** Each app is upgraded at most once, letter case aside: whatever the listing of a run
      of everything repeats, and for deduplicated targets. */
  lemma {:induction false} UpgradesAtMostOnce(trace: seq<Event>, req: Request)
    requires FollowQueue(UpgradeIDs(trace), trace, req) && (req.patchAll || Deduplicated(req.targets))
    ensures Distinct(Lowered(UpgradeIDs(trace)))
  {
    hide Deduplicated, IsSubsequence, Distinct, WingetIDs, AppIDs, UpgradeIDs;
    EmptyIsDistinct();
    if UpgradeIDs(trace) != [] {
      var queue: seq<string>;
      if req.patchAll {
        var j :| 0 <= j < |trace| && trace[j].AppsListed? &&
                 IsSubsequence(UpgradeIDs(trace), AppIDs(trace[j].apps));
        queue := AppIDs(trace[j].apps);
        AppIDsDistinct(trace[j].apps);
      } else {
        queue := WingetIDs(req.targets);
        WingetTargetsDistinct(req.targets);
      }
      LoweredSubsequence(UpgradeIDs(trace), queue);
      SubsequenceDistinct(Lowered(UpgradeIDs(trace)), Lowered(queue));
    }
  }

  lemma AppIDsDistinct(apps: seq<App>)
    ensures Distinct(Lowered(AppIDs(apps)))
  {
    AppIDsCoverOnce(apps);
  }

  // ----- an update that is offered twice

  /** An update planned twice fails, which blocks the rest: its second turn is skipped. */
  function RepeatedTrace(a: ScanAnswer, id: string): seq<Event> {
    [Scanned(a), Downloaded([id, id], DownloadAnswer(map[], None)), Checked(None),
     InstallCall(id, Done(OpResult(true, false, false, 4, "0x80240016", false))), Checked(None)]
  }

  function RepeatedItem(id: string): Item {
    NewItem(Wua, ToLower(id), Skipped, RestartFirst)
      .(resultCode := Some(4), hresult := "0x80240016", started := true, completed := true)
  }

  /** The second turn overwrites the failure, so a completed run may hide it: the rules
      allow the run, its one item is sound, and the stage is completed. */
  lemma {:induction false} RepeatedHidesFailure(a: ScanAnswer, req: Request, id: string)
    requires req.patchAll && !req.dryRun && a.err == None && Plan(a.scan, req) == [id, id]
    ensures var trace, items := RepeatedTrace(a, id), [RepeatedItem(id)];
            && Safe(trace, req) && AllSound(items, false, false, trace) && StageSound(Completed, items, [], false)
            && AnswersShown(items, trace) && !WentWell(trace, 3) && !PlannedOnce(trace, req)
  {
    hide Plan, Safe, AllSound, AnswersShown, PlannedOnce;
    RepeatedIsSafe(a, req, id);
    RepeatedIsSound(a, id);
    RepeatedIsNotOnce(a, req, id);
  }

  lemma {:induction false} RepeatedIsNotOnce(a: ScanAnswer, req: Request, id: string)
    requires Plan(a.scan, req) == [id, id]
    ensures AnswersShown([RepeatedItem(id)], RepeatedTrace(a, id)) && !PlannedOnce(RepeatedTrace(a, id), req)
  {
    var trace := RepeatedTrace(a, id);
    hide Plan, PlannedOnce, SomeShows, ToLower;
    assert Lowered([id, id])[0] == Lowered([id, id])[1] == ToLower(id);
    assert trace[0].Scanned?;
    if PlannedOnce(trace, req) {
      PlanDistinct(trace, req, 0);
      assert false;
    }
  }

  lemma BlockedSpelling()
    ensures SaysBlocked("0x80240016")
  {
    var h := "0x80240016";
    TrimmedIsTrimmed(h);
    assert ToLower(h) == h;
  }

  lemma RepeatedIsSound(a: ScanAnswer, id: string)
    ensures AllSound([RepeatedItem(id)], false, false, RepeatedTrace(a, id))
  {
    var trace, it := RepeatedTrace(a, id), RepeatedItem(id);
    BlockedSpelling();
    hide SaysBlocked;
    ExplainedAt(3, KeyOf(it), it.status, it.message, trace);
  }

  lemma {:induction false} RepeatedIsSafe(a: ScanAnswer, req: Request, id: string)
    requires req.patchAll && !req.dryRun && a.err == None && Plan(a.scan, req) == [id, id]
    ensures Safe(RepeatedTrace(a, id), req)
  {
    var t := RepeatedTrace(a, id);
    NothingIsSafe(req);
    hide Plan, Safe, MayInstall;
    assert t[..0] == [] && t[..1] == t[..0] + [t[0]] && t[..2] == t[..1] + [t[1]] && t[..3] == t[..2] + [t[2]];
    assert t[..4] == t[..3] + [t[3]] && t == t[..4] + [t[4]];
    AppendScan(t[..0], a, req);
    AppendDownload(t[..1], [id, id], t[1].download, req);
    AppendQuiet(t[..2], t[2], req);
    RepeatedMayInstall(a, req, id);
    AppendInstall(t[..3], id, t[3].install, req);
    AppendQuiet(t[..4], t[4], req);
  }

  lemma NothingIsSafe(req: Request)
    ensures Safe([], req)
  {
  }

  lemma {:induction false} RepeatedMayInstall(a: ScanAnswer, req: Request, id: string)
    requires !req.dryRun && Plan(a.scan, req) == [id, id]
    ensures MayInstall(RepeatedTrace(a, id)[..3], id, req)
  {
    RepeatedStart(a, id);
    FirstMayInstall(RepeatedTrace(a, id)[..3], a, req, id);
  }

  lemma {:induction false} FirstMayInstall(t: seq<Event>, a: ScanAnswer, req: Request, id: string)
    requires !req.dryRun && Plan(a.scan, req) == [id, id]
    requires t == [Scanned(a), Downloaded([id, id], DownloadAnswer(map[], None)), Checked(None)]
    ensures MayInstall(t, id, req)
  {
    hide Plan, IsSubsequence, InstallIDs, NothingBlocks, ToLower;
    assert t[0].Scanned? && t[1].Downloaded? && id in t[1].ids;
    NoInstallNoBlock(t);
    NoInstallIDs(t);
    EmptyIsSubsequence([id]);
    SubsequenceTakes([], [id], id, []);
    assert [] + [id] == [id] && [id] + [id] + [] == [id, id];
  }

  lemma RepeatedStart(a: ScanAnswer, id: string)
    ensures RepeatedTrace(a, id)[..3] ==
            [Scanned(a), Downloaded([id, id], DownloadAnswer(map[], None)), Checked(None)]
  {
  }

  // ----- a run as steps of the cache protocol

  function InstallSteps(trace: seq<Event>): (r: seq<Cache.Step>)
    ensures |r| == |InstallIDs(trace)| && forall k :: 0 <= k < |r| ==> r[k] == Cache.StartInstall
  {
    seq(|InstallIDs(trace)|, k => Cache.StartInstall)
  }

  /** A note for each item that waits for a restart. */
  function NoteSteps(items: seq<Item>): seq<Cache.Step> {
    if items == [] then []
    else
      NoteSteps(items[..|items| - 1]) +
      if WaitsForRestart(items[|items| - 1]) then [Cache.Note(items[|items| - 1].id)] else []
  }

  lemma {:induction false} NoteStepsAre(items: seq<Item>)
    ensures forall k :: 0 <= k < |NoteSteps(items)| ==> NoteSteps(items)[k].Note?
    ensures Cache.NotesIn(NoteSteps(items)) == RestartIDs(items)
  {
    if items != [] {
      hide WaitsForRestart;
      var init, it := items[..|items| - 1], items[|items| - 1];
      NoteStepsAre(init);
      RestartIDsInit(items);
      Cache.NotesAppend(NoteSteps(init), Cache.Note(it.id));
      assert NoteSteps(init) + [] == NoteSteps(init);
    }
  }

  lemma RestartIDsInit(items: seq<Item>)
    requires items != []
    ensures RestartIDs(items) ==
            RestartIDs(items[..|items| - 1]) +
            if WaitsForRestart(items[|items| - 1]) then {ToLower(items[|items| - 1].id)} else {}
  {
    hide WaitsForRestart;
    var init := items[..|items| - 1];
    assert forall k :: 0 <= k < |init| ==> init[k] == items[k];
  }

  lemma {:induction false} InstallsShow(trace: seq<Event>)
    ensures InstallIDs(trace) == [] <==> NoInstallIn(trace)
  {
    if trace != [] {
      InstallsShow(trace[..|trace| - 1]);
    }
  }

  lemma NotesAfterInstalls(installs: seq<Cache.Step>, notes: seq<Cache.Step>)
    requires forall k :: 0 <= k < |installs| ==> installs[k] == Cache.StartInstall
    requires forall k :: 0 <= k < |notes| ==> notes[k].Note?
    ensures Cache.WithinRun(installs + notes) && Cache.NotesIn(installs + notes) == Cache.NotesIn(notes)
    ensures Cache.StartsInstall(installs + notes) <==> installs != []
  {
    var t := installs + notes;
    assert forall k :: 0 <= k < |notes| ==> t[|installs| + k] == notes[k];
    forall x ensures x in Cache.NotesIn(t) <==> x in Cache.NotesIn(notes) {
      if k :| 0 <= k < |t| && t[k].Note? && ToLower(t[k].id) == x {
        assert notes[k - |installs|] == t[k];
      }
      if k :| 0 <= k < |notes| && notes[k].Note? && ToLower(notes[k].id) == x {
        assert t[|installs| + k].Note?;
      }
    }
    if installs != [] {
      assert t[0] == Cache.StartInstall;
    }
  }

  /** A run in the protocol: it installs, notes what waits for a restart, and records; a
      dry run records nothing. */
  function RunSteps(req: Request, items: seq<Item>, trace: seq<Event>): seq<Cache.Step> {
    [Cache.BeginRun] + InstallSteps(trace) + (if req.dryRun then [] else NoteSteps(items)) +
    [Cache.RecordOutcome, Cache.EndRun]
  }

  /** The cache state a run ends with. */
  ghost function AfterRun(state: Cache.CacheState, req: Request, items: seq<Item>, trace: seq<Event>)
    : Cache.CacheState
  {
    if req.dryRun then state else Cache.Recorded(state, RestartIDs(items), !NoInstallIn(trace))
  }

  /** The steps of a run in the protocol lead to the cache state that the run itself ends
      with: the two models of a run agree, for dry runs too. */
  lemma {:induction false} RunIsProtocol(before: seq<Cache.Step>, req: Request, items: seq<Item>,
                                         trace: seq<Event>)
    requires Cache.CanRun(before) && Cache.StateAfter(before).holder == Cache.Free
    requires req.dryRun ==> ChangesNothing(trace)
    ensures var steps := before + RunSteps(req, items, trace);
            Cache.CanRun(steps) &&
            Cache.StateAfter(steps) ==
            Cache.Protocol(AfterRun(Cache.StateAfter(before).cache, req, items, trace), Cache.Free)
  {
    hide Cache.CanRun, Cache.StateAfter, Cache.NotesIn, Cache.StartsInstall, Cache.WithinRun, InstallIDs;
    var notes := if req.dryRun then [] else NoteSteps(items);
    var within := InstallSteps(trace) + notes;
    NoteStepsAre(items);
    NoNotes();
    InstallsShow(trace);
    NotesAfterInstalls(InstallSteps(trace), notes);
    Cache.RunAmountsToRecorded(before, within);
    assert before + RunSteps(req, items, trace) ==
           before + [Cache.BeginRun] + within + [Cache.RecordOutcome] + [Cache.EndRun];
  }

  lemma AgreesWithProtocol(first: Cache.CacheState, last: Cache.CacheState, req: Request, items: seq<Item>,
                           trace: seq<Event>)
    requires Safe(trace, req) && last == AfterRun(first, req, items, trace)
    ensures forall before | Cache.CanRun(before) && Cache.StateAfter(before) == Cache.Protocol(first, Cache.Free) ::
              var steps := before + RunSteps(req, items, trace);
              Cache.CanRun(steps) && Cache.StateAfter(steps) == Cache.Protocol(last, Cache.Free)
  {
    hide Cache.CanRun, Cache.StateAfter, RunSteps, AfterRun;
    forall before | Cache.CanRun(before) && Cache.StateAfter(before) == Cache.Protocol(first, Cache.Free)
      ensures var steps := before + RunSteps(req, items, trace);
              Cache.CanRun(steps) && Cache.StateAfter(steps) == Cache.Protocol(last, Cache.Free)
    {
      RunIsProtocol(before, req, items, trace);
    }
  }

  lemma NoNotes()
    ensures Cache.NotesIn([]) == {}
  {
  }

  /** RunWindowsPatch: a new run on a fresh environment. With deduplicated targets, the
      items are the targets, one each. No update is installed twice, unless a run of
      everything is offered it twice, and no app is upgraded twice. */
  method RunWindowsPatch(req: Request, env: Environment, cache: Cache.UpdateCache)
    returns (run: PatchRun, result: RunResult)
    requires env.trace == []
    modifies env, cache
    ensures fresh(run) && run.req == req && run.env == env && run.Valid() && Safe(env.trace, req)
    ensures result.Finished? ==>
              result.items == run.items && Accounted(run.items) &&
              StageSound(result.stage, run.items, run.runErrors, req.dryRun) &&
              AnswersShown(run.items, env.trace) && UpgradesKnown(run.items, env.trace, req) &&
              (!req.dryRun ==> RestartsKnown(old(cache.restartPending), cache.restartPending, env.trace)) &&
              (result.stage == Cancelled <==> env.stopFlag) &&
              RestartExplained(result.rebootRequired, run.items, req.dryRun, env.trace)
    ensures result.Finished? ==>
              forall before |
                Cache.CanRun(before) &&
                Cache.StateAfter(before) == Cache.Protocol(old(cache.State()), Cache.Free) ::
                var steps := before + RunSteps(req, run.items, env.trace);
                Cache.CanRun(steps) && Cache.StateAfter(steps) == Cache.Protocol(cache.State(), Cache.Free)
    ensures result.Finished? && result.stage == Completed ==>
              InstallsWentWell(env.trace) && UpgradesWentWell(env.trace, req)
    ensures result.Finished? && result.stage == Completed && PlannedOnce(env.trace, req) ==>
              forall k :: 0 <= k < |env.trace| && env.trace[k].InstallCall? ==> WentWell(env.trace, k)
    ensures result.Finished? && !req.patchAll && Deduplicated(req.targets) ==>
              multiset(ItemKeys(result.items)) == multiset(RequestedKeys(req.targets))
    ensures PlannedOnce(env.trace, req) ==> Distinct(Lowered(InstallIDs(env.trace)))
    ensures result.Finished? && (req.patchAll || Deduplicated(req.targets)) ==>
              Distinct(Lowered(UpgradeIDs(env.trace)))
  {
    hide Safe, TableValid, AllSound, LimitValid, Deduplicated, Distinct, StageSound, Accounted, PlannedOnce,
         FollowQueue, AnswersShown, UpgradesKnown, RestartsKnown, InstallsWentWell, UpgradesWentWell, WentWell;
    run := new PatchRun(req, env, cache);
    result := run.Run();
    if result.Finished? {
      AgreesWithProtocol(old(cache.State()), cache.State(), req, run.items, env.trace);
    }
    if result.Finished? && !req.patchAll && Deduplicated(req.targets) {
      ItemsAreTargets(run.items, run.byKey, req.targets);
    }
    if PlannedOnce(env.trace, req) {
      InstallsAtMostOnce(env.trace, req);
      if result.Finished? && result.stage == Completed {
        AllWentWell(env.trace, req);
      }
    }
    if result.Finished? && (req.patchAll || Deduplicated(req.targets)) {
      UpgradesAtMostOnce(env.trace, req);
    }
  }
}
