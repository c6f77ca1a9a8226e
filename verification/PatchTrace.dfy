/** The backend calls of a Windows patch run as a trace, and what every trace must
    satisfy: the safety rules of the run, stated on traces alone. */
module PatchTrace {
  import opened Options
  import opened Text
  import opened WindowsPatch

  datatype ScanAnswer = ScanAnswer(scan: Scan, err: Option<WuaError>)

  datatype DownloadAnswer = DownloadAnswer(results: map<string, OpResult>, err: Option<WuaError>)

  /** How an install step ended: with a result, with an error, or at its own time limit
      while the run's limit had not passed. */
  datatype InstallAnswer = Done(result: OpResult) | Errored(err: WuaError) | TimedOut

  datatype StatusAnswer = StatusAnswer(result: OpResult, failed: bool)

  /** What winget list says about an app. */
  datatype UpgradeState = Available | NoUpgrade | PinnedApp | NotInstalled

  /** A winget check that failed with an exit code, or in another way. */
  datatype CheckError = ExitError(code: int) | OtherCheckError

  datatype UpgradeAnswer = State(state: UpgradeState) | CheckFailed(err: CheckError)

  /** An installed app as winget's listing shows it. */
  datatype App = App(name: string, id: string, needsUpdate: bool)

  datatype Event =
    | Checked(reason: Option<Message>)
    | Scanned(scanned: ScanAnswer)
    | Downloaded(ids: seq<string>, download: DownloadAnswer)
    | InstallCall(id: string, install: InstallAnswer)
    | StatusCall(id: string, status: StatusAnswer)
    | AppChecked(id: string, answer: UpgradeAnswer)
    | AppUpgraded(id: string, exit: Option<int>)
    | WingetResolved(ok: bool)
    | AppsListed(apps: seq<App>)
    | StoreListed(store: set<string>)
    | RenamesRead(entries: seq<string>)
    | RebootAsked(needed: bool)

  /** Events that neither change the host nor choose what to install. */
  predicate Quiet(e: Event) {
    e.Checked? || e.StatusCall? || e.AppChecked? ||
    e.WingetResolved? || e.AppsListed? || e.StoreListed? || e.RenamesRead? || e.RebootAsked?
  }

  predicate Settled(r: OpResult) { r.found && (r.alreadyInstalled || r.pendingReboot) }

  /** A recheck that found out how a timed-out install of the update ended. */
  predicate Resolves(e: Event, id: string) {
    e.StatusCall? && e.id == id && !e.status.failed && Settled(e.status.result)
  }

  /** The status an install result gives its item. */
  function InstallStatus(r: OpResult): Status {
    if !r.found then NotApplicable
    else if r.alreadyInstalled then AlreadyInstalled
    else if r.pendingReboot then InstalledPendingReboot
    else ResultStatus(r.resultCode)
  }

  /** The update was offered and not there yet, so the result code counts. */
  predicate WasTried(r: OpResult) { r.found && !r.alreadyInstalled && !r.pendingReboot }

  /** The code that means Windows is installing something else or must restart, with or
      without its prefix, in any case, with or without spaces around it. */
  predicate SaysBlocked(hresult: string) { ToLower(TrimSpace(hresult)) in {"0x80240016", "80240016"} }

  lemma SaysBlockedIs(h: string)
    ensures SaysBlocked(h) <==> IsInstallBlocked(h)
  {
    var t := ToLower(TrimSpace(h));
    hide ToLower, TrimSpace;
    assert "0x" + "80240016" == "0x80240016" && "0x80240016"[..2] == "0x" && "80240016"[..2][1] != "0x"[1];
    if NormaliseHResult(h) == "0x80240016" && !HasPrefix(t, "0x") {
      assert t == ("0x" + t)[2..] && "80240016" == "0x80240016"[2..];
    }
  }

  /** The install failed because Windows is installing something else or must restart. */
  predicate FailsBlocked(a: InstallAnswer) {
    match a
    case Done(r) => WasTried(r) && r.resultCode !in {2, 3, 5} && SaysBlocked(r.hresult)
    case Errored(e) => e.ScriptError? && SaysBlocked(e.hresult)
    case TimedOut => false
  }

  /** The answer gives its item the code that means installs are blocked. */
  predicate CarriesBlocked(a: InstallAnswer) {
    match a
    case Done(r) => WasTried(r) && SaysBlocked(r.hresult)
    case Errored(e) => e.ScriptError? && SaysBlocked(e.hresult)
    case TimedOut => false
  }

  /** What an install's answer makes of its item. */
  predicate AnswerGives(a: InstallAnswer, status: Status) {
    match a
    case Done(r) =>
      if !r.found then status == NotApplicable
      else if r.alreadyInstalled then status == AlreadyInstalled
      else if r.pendingReboot then status == InstalledPendingReboot
      else
        && (status == Installed <==> r.resultCode == 2) && (status == InstalledWithErrors <==> r.resultCode == 3)
        && (status == Aborted <==> r.resultCode == 5) && (status == Failed <==> r.resultCode !in {2, 3, 5})
    case Errored(_) => status == Failed
    case TimedOut => status == Failed
  }

  lemma StatusIsGiven(a: InstallAnswer, status: Status)
    requires status == if a.Done? then InstallStatus(a.result) else Failed
    ensures AnswerGives(a, status)
  {
  }

  /** winget's exit codes after which an app is up to date, with or without a restart to
      come, after which there was nothing to do, and the one of a pinned app. */
  predicate UpgradedExit(code: int) { code in {0, 0x8A150109, 0x8A15010B} }

  predicate NothingToDoExit(code: int) { code in {0x8A15002B, 0x8A15004F, 0x8A150014, 0x8A15007D} }

  predicate PinnedExit(code: int) { code == 0x8A150068 }

  /** What the end of an upgrade makes of its app. */
  predicate ExitGives(exit: Option<int>, status: Status) {
    match exit
    case None => status == Failed
    case Some(code) =>
      && (status == Installed <==> UpgradedExit(code)) && (status == NotApplicable <==> NothingToDoExit(code))
      && (status == Skipped <==> PinnedExit(code))
      && (status == Failed <==> !UpgradedExit(code) && !NothingToDoExit(code) && !PinnedExit(code))
  }

  lemma ExitIsGiven(code: int)
    ensures var oc := ClassifyUpgradeExit(code);
            && ExitGives(Some(code), oc.status) && (oc.rebootRequired <==> code in {0x8A150109, 0x8A15010B})
            && (oc.status == Skipped ==> oc.message == Pinned)
  {
  }

  lemma NoExitFails()
    ensures ExitGives(None, Failed)
  {
  }

  lemma ExitDecides(code: int, status: Status)
    requires ExitGives(Some(code), status)
    ensures status in {Installed, NotApplicable, Skipped, Failed}
  {
  }

  /** The install at j forbids a further install at k. */
  predicate BlocksAt(trace: seq<Event>, j: nat, k: nat)
    requires j < k <= |trace|
  {
    trace[j].InstallCall? &&
    (FailsBlocked(trace[j].install) ||
     (trace[j].install.TimedOut? && forall m :: j < m < k ==> !Resolves(trace[m], trace[j].id)))
  }

  /** An update whose download is not reported as failed. */
  predicate DownloadAllows(results: map<string, OpResult>, id: string) {
    ToLower(id) in results ==> results[ToLower(id)].resultCode in {2, 3}
  }

  // ----- the rules

  /** A dry run changes nothing. */
  ghost predicate ChangesNothing(trace: seq<Event>) {
    forall k :: 0 <= k < |trace| ==>
      !trace[k].Downloaded? && !trace[k].InstallCall? && !trace[k].AppUpgraded?
  }

  /** Each install directly follows an interrupt check that passed. */
  ghost predicate ChecksFirst(trace: seq<Event>) {
    forall k :: 0 <= k < |trace| && trace[k].InstallCall? ==> k > 0 && trace[k - 1] == Checked(None)
  }

  /** No install follows one that blocks it. */
  ghost predicate HonoursBlocks(trace: seq<Event>) {
    forall j, k :: 0 <= j < k < |trace| && trace[k].InstallCall? ==> !BlocksAt(trace, j, k)
  }

  /** What is installed was in a download that succeeded for it. */
  ghost predicate HonoursDownloads(trace: seq<Event>) {
    && (forall k :: 0 <= k < |trace| && trace[k].InstallCall? ==>
          exists j :: 0 <= j < k && trace[j].Downloaded? && trace[k].id in trace[j].ids)
    && (forall j, k :: 0 <= j < k < |trace| && trace[j].Downloaded? && trace[k].InstallCall? ==>
          trace[j].download.err == None && DownloadAllows(trace[j].download.results, trace[k].id))
  }

  function InstallIDs(trace: seq<Event>): seq<string> {
    if trace == [] then []
    else
      InstallIDs(trace[..|trace| - 1]) +
      if trace[|trace| - 1].InstallCall? then [trace[|trace| - 1].id] else []
  }

  function UpgradeIDs(trace: seq<Event>): seq<string> {
    if trace == [] then []
    else
      UpgradeIDs(trace[..|trace| - 1]) +
      if trace[|trace| - 1].AppUpgraded? then [trace[|trace| - 1].id] else []
  }

  function IDs(updates: seq<Update>): (r: seq<string>)
    ensures |r| == |updates| && forall i :: 0 <= i < |r| ==> r[i] == updates[i].id
  {
    seq(|updates|, i requires 0 <= i < |updates| => updates[i].id)
  }

  function WuaIDs(targets: seq<Target>): seq<string> {
    if targets == [] then []
    else
      WuaIDs(targets[..|targets| - 1]) +
      if targets[|targets| - 1].kind == Wua then [targets[|targets| - 1].id] else []
  }

  function WingetIDs(targets: seq<Target>): seq<string> {
    if targets == [] then []
    else
      WingetIDs(targets[..|targets| - 1]) +
      if targets[|targets| - 1].kind == Winget then [targets[|targets| - 1].id] else []
  }

  /** The updates a scan makes the run install, in install order. */
  function Plan(scan: Scan, req: Request): seq<string> {
    IDs(Selection(scan, req.patchAll, WuaIDs(req.targets)).0)
  }

  predicate IsSubsequence(a: seq<string>, b: seq<string>) {
    a == [] ||
    (b != [] &&
     (IsSubsequence(a, b[..|b| - 1]) ||
      (a[|a| - 1] == b[|b| - 1] && IsSubsequence(a[..|a| - 1], b[..|b| - 1]))))
  }

  ghost predicate SomeScan(trace: seq<Event>) { exists j :: 0 <= j < |trace| && trace[j].Scanned? }

  /** The plan of the one scan is what is downloaded, and installs follow it: its order,
      each entry at most once. */
  ghost predicate FollowsPlan(trace: seq<Event>, req: Request) {
    && (!NoInstallIn(trace) ==> SomeScan(trace))
    && (forall j, k :: 0 <= j < k < |trace| && trace[j].Scanned? ==> !trace[k].Scanned?)
    && (forall j :: 0 <= j < |trace| && trace[j].Scanned? ==>
          IsSubsequence(InstallIDs(trace), Plan(trace[j].scanned.scan, req)))
    && (forall j, k :: 0 <= j < |trace| && 0 <= k < |trace| && trace[j].Scanned? && trace[k].Downloaded? ==>
          trace[k].ids == Plan(trace[j].scanned.scan, req))
  }

  /** A check has found a reason not to go on. */
  ghost predicate InterruptSeen(trace: seq<Event>) {
    exists j :: 0 <= j < |trace| && trace[j].Checked? && trace[j].reason != None
  }

  /** Once a check has found a reason, no later check passes. */
  ghost predicate StaysInterrupted(trace: seq<Event>) {
    forall j, k :: 0 <= j < k < |trace| && trace[j].Checked? && trace[j].reason != None && trace[k].Checked? ==>
      trace[k].reason != None
  }

  /** The Store was asked and does not update the app. */
  ghost predicate NotAStoreApp(trace: seq<Event>, id: string) {
    exists j :: 0 <= j < |trace| && trace[j].StoreListed? && ToLower(id) !in trace[j].store
  }

  /** An app may be upgraded: an interrupt check passed, then winget found an upgrade. */
  ghost predicate ReadyToUpgrade(trace: seq<Event>, id: string) {
    && |trace| >= 2 && trace[|trace| - 2] == Checked(None)
    && trace[|trace| - 1] == AppChecked(id, State(Available))
    && NotAStoreApp(trace, id)
  }

  /** The same, after the look at the pending renames that comes between. */
  ghost predicate MayUpgrade(trace: seq<Event>, id: string) {
    trace != [] && trace[|trace| - 1].RenamesRead? && ReadyToUpgrade(trace[..|trace| - 1], id)
  }

  /** Each winget upgrade directly follows what allows it. */
  ghost predicate HonoursApps(trace: seq<Event>) {
    forall k :: 0 <= k < |trace| && trace[k].AppUpgraded? ==> MayUpgrade(trace[..k], trace[k].id)
  }

  ghost predicate Safe(trace: seq<Event>, req: Request) {
    && (req.dryRun ==> ChangesNothing(trace))
    && ChecksFirst(trace) && HonoursBlocks(trace) && HonoursDownloads(trace)
    && FollowsPlan(trace, req) && StaysInterrupted(trace) && HonoursApps(trace)
  }

  // ----- growing traces

  /** No install so far forbids the next one. */
  ghost predicate NothingBlocks(trace: seq<Event>) {
    forall j :: 0 <= j < |trace| ==> !BlocksAt(trace, j, |trace|)
  }

  ghost predicate NoInstallIn(trace: seq<Event>) {
    forall k :: 0 <= k < |trace| ==> !trace[k].InstallCall?
  }

  ghost predicate NoScanIn(trace: seq<Event>) { forall k :: 0 <= k < |trace| ==> !trace[k].Scanned? }

  ghost predicate NoDownloadIn(trace: seq<Event>) {
    forall k :: 0 <= k < |trace| ==> !trace[k].Downloaded?
  }

  lemma InstallIDsAppend(trace: seq<Event>, e: Event)
    ensures InstallIDs(trace + [e]) == InstallIDs(trace) + if e.InstallCall? then [e.id] else []
  {
    assert (trace + [e])[..|trace|] == trace;
  }

  lemma UpgradeIDsAppend(trace: seq<Event>, e: Event)
    ensures UpgradeIDs(trace + [e]) == UpgradeIDs(trace) + if e.AppUpgraded? then [e.id] else []
  {
    assert (trace + [e])[..|trace|] == trace;
  }

  lemma {:induction false} NoInstallIDs(trace: seq<Event>)
    requires NoInstallIn(trace)
    ensures InstallIDs(trace) == []
  {
    if trace != [] {
      NoInstallIDs(trace[..|trace| - 1]);
    }
  }

  lemma {:induction false} InstallIn(trace: seq<Event>, k: nat)
    requires k < |trace| && trace[k].InstallCall?
    ensures trace[k].id in InstallIDs(trace)
    decreases |trace|
  {
    if k < |trace| - 1 {
      InstallIn(trace[..|trace| - 1], k);
    }
  }

  lemma {:induction false} UpgradeIn(trace: seq<Event>, k: nat)
    requires k < |trace| && trace[k].AppUpgraded?
    ensures trace[k].id in UpgradeIDs(trace)
    decreases |trace|
  {
    if k < |trace| - 1 {
      UpgradeIn(trace[..|trace| - 1], k);
    }
  }

  lemma {:induction false} NoUpgradeIn(trace: seq<Event>)
    requires UpgradeIDs(trace) == []
    ensures forall k :: 0 <= k < |trace| ==> !trace[k].AppUpgraded?
  {
    if trace != [] {
      NoUpgradeIn(trace[..|trace| - 1]);
    }
  }

  lemma {:induction false} NoInstallNoBlock(trace: seq<Event>)
    requires NoInstallIn(trace)
    ensures NothingBlocks(trace)
  {
    hide FailsBlocked, Resolves;
  }

  lemma BlocksAtAppend(trace: seq<Event>, e: Event, j: nat, k: nat)
    requires j < k <= |trace|
    ensures BlocksAt(trace + [e], j, k) == BlocksAt(trace, j, k)
  {
    var t := trace + [e];
    assert forall m :: 0 <= m < |trace| ==> t[m] == trace[m];
  }

  lemma AppendKeepsBlocks(trace: seq<Event>, e: Event)
    requires HonoursBlocks(trace) && (e.InstallCall? ==> NothingBlocks(trace))
    ensures HonoursBlocks(trace + [e])
  {
    var t := trace + [e];
    hide BlocksAt;
    forall j, k | 0 <= j < k < |t| && t[k].InstallCall? ensures !BlocksAt(t, j, k) {
      BlocksAtAppend(trace, e, j, k);
    }
  }

  lemma AppendKeepsDownloads(trace: seq<Event>, e: Event)
    requires HonoursDownloads(trace)
    requires e.Downloaded? ==> NoInstallIn(trace)
    requires e.InstallCall? ==>
               (exists j :: 0 <= j < |trace| && trace[j].Downloaded? && e.id in trace[j].ids) &&
               forall j :: 0 <= j < |trace| && trace[j].Downloaded? ==>
                 trace[j].download.err == None && DownloadAllows(trace[j].download.results, e.id)
    ensures HonoursDownloads(trace + [e])
  {
    var t := trace + [e];
    hide DownloadAllows;
    assert forall m :: 0 <= m < |trace| ==> t[m] == trace[m];
    forall k | 0 <= k < |t| && t[k].InstallCall?
      ensures exists j :: 0 <= j < k && t[j].Downloaded? && t[k].id in t[j].ids
    {
      if k < |trace| {
        var j :| 0 <= j < k && trace[j].Downloaded? && trace[k].id in trace[j].ids;
        assert t[j].Downloaded?;
      } else {
        var j :| 0 <= j < |trace| && trace[j].Downloaded? && e.id in trace[j].ids;
        assert t[j].Downloaded?;
      }
    }
  }

  lemma SomeScanLater(trace: seq<Event>, later: seq<Event>)
    requires SomeScan(trace) && trace <= later
    ensures SomeScan(later)
  {
    var j :| 0 <= j < |trace| && trace[j].Scanned?;
    assert later[j].Scanned?;
  }

  lemma {:induction false} AppendKeepsPlan(trace: seq<Event>, e: Event, req: Request)
    requires FollowsPlan(trace, req) && (e.InstallCall? ==> SomeScan(trace))
    requires e.Scanned? ==> NoScanIn(trace) && NoInstallIn(trace) && NoDownloadIn(trace)
    requires e.Downloaded? ==>
               forall j :: 0 <= j < |trace| && trace[j].Scanned? ==> e.ids == Plan(trace[j].scanned.scan, req)
    requires e.InstallCall? ==>
               forall j :: 0 <= j < |trace| && trace[j].Scanned? ==>
                 IsSubsequence(InstallIDs(trace) + [e.id], Plan(trace[j].scanned.scan, req))
    ensures FollowsPlan(trace + [e], req)
  {
    var t := trace + [e];
    hide Plan, IsSubsequence, SomeScan;
    InstallIDsAppend(trace, e);
    if SomeScan(trace) {
      SomeScanLater(trace, t);
    }
    assert InstallIDs(trace) + [] == InstallIDs(trace);
    forall j | 0 <= j < |t| && t[j].Scanned?
      ensures IsSubsequence(InstallIDs(t), Plan(t[j].scanned.scan, req))
    {
      if e.Scanned? {
        NoInstallIDs(trace);
        EmptyIsSubsequence(Plan(e.scanned.scan, req));
      } else {
        assert t[j] == trace[j];
      }
    }
  }

  lemma AppendKeepsApps(trace: seq<Event>, e: Event)
    requires HonoursApps(trace) && (e.AppUpgraded? ==> MayUpgrade(trace, e.id))
    ensures HonoursApps(trace + [e])
  {
    var t := trace + [e];
    hide MayUpgrade;
    forall k | 0 <= k < |t| && t[k].AppUpgraded? ensures MayUpgrade(t[..k], t[k].id) {
      assert t[..k] == trace[..k];
      assert trace[..|trace|] == trace;
    }
  }

  lemma AppendKeepsInterrupt(trace: seq<Event>, e: Event)
    requires StaysInterrupted(trace) && (e == Checked(None) ==> !InterruptSeen(trace))
    ensures StaysInterrupted(trace + [e])
    ensures InterruptSeen(trace + [e]) <==> InterruptSeen(trace) || (e.Checked? && e.reason != None)
  {
    var t := trace + [e];
    assert forall m :: 0 <= m < |trace| ==> t[m] == trace[m];
    assert t[|trace|] == e;
  }

  lemma EmptyIsSubsequence(b: seq<string>)
    ensures IsSubsequence([], b)
  {
  }

  /** A quiet event breaks no rule. */
  lemma {:induction false} AppendQuiet(trace: seq<Event>, e: Event, req: Request)
    requires Safe(trace, req) && Quiet(e) && (e == Checked(None) ==> !InterruptSeen(trace))
    ensures Safe(trace + [e], req)
  {
    AppendKeepsApps(trace, e);
    AppendKeepsInterrupt(trace, e);
    AppendKeepsBlocks(trace, e);
    AppendKeepsDownloads(trace, e);
    AppendKeepsPlan(trace, e, req);
    hide HonoursBlocks, HonoursDownloads, FollowsPlan, StaysInterrupted, HonoursApps;
  }

  lemma {:induction false} AppendScan(trace: seq<Event>, a: ScanAnswer, req: Request)
    requires Safe(trace, req) && NoScanIn(trace) && NoInstallIn(trace) && NoDownloadIn(trace)
    ensures Safe(trace + [Scanned(a)], req)
  {
    AppendKeepsApps(trace, Scanned(a));
    AppendKeepsInterrupt(trace, Scanned(a));
    AppendKeepsBlocks(trace, Scanned(a));
    AppendKeepsDownloads(trace, Scanned(a));
    AppendKeepsPlan(trace, Scanned(a), req);
    hide HonoursBlocks, HonoursDownloads, FollowsPlan, StaysInterrupted, HonoursApps;
  }

  lemma {:induction false} AppendDownload(trace: seq<Event>, ids: seq<string>, a: DownloadAnswer, req: Request)
    requires Safe(trace, req) && NoInstallIn(trace) && !req.dryRun
    requires forall j :: 0 <= j < |trace| && trace[j].Scanned? ==> ids == Plan(trace[j].scanned.scan, req)
    ensures Safe(trace + [Downloaded(ids, a)], req)
  {
    AppendKeepsApps(trace, Downloaded(ids, a));
    AppendKeepsInterrupt(trace, Downloaded(ids, a));
    AppendKeepsBlocks(trace, Downloaded(ids, a));
    AppendKeepsDownloads(trace, Downloaded(ids, a));
    AppendKeepsPlan(trace, Downloaded(ids, a), req);
    hide HonoursBlocks, HonoursDownloads, FollowsPlan, StaysInterrupted, HonoursApps;
  }

  lemma {:induction false} AppendAppUpgrade(trace: seq<Event>, id: string, exit: Option<int>, req: Request)
    requires Safe(trace, req) && !req.dryRun && MayUpgrade(trace, id)
    ensures Safe(trace + [AppUpgraded(id, exit)], req)
  {
    AppendKeepsApps(trace, AppUpgraded(id, exit));
    AppendKeepsInterrupt(trace, AppUpgraded(id, exit));
    AppendKeepsBlocks(trace, AppUpgraded(id, exit));
    AppendKeepsDownloads(trace, AppUpgraded(id, exit));
    AppendKeepsPlan(trace, AppUpgraded(id, exit), req);
    hide HonoursBlocks, HonoursDownloads, FollowsPlan, StaysInterrupted, HonoursApps;
  }

  /** What an install needs: a passed check just before it, no open block, a good
      download, and to be the next planned update. */
  ghost predicate MayInstall(trace: seq<Event>, id: string, req: Request) {
    && !req.dryRun && NothingBlocks(trace) && SomeScan(trace)
    && trace != [] && trace[|trace| - 1] == Checked(None)
    && (exists j :: 0 <= j < |trace| && trace[j].Downloaded? && id in trace[j].ids)
    && (forall j :: 0 <= j < |trace| && trace[j].Downloaded? ==>
          trace[j].download.err == None && DownloadAllows(trace[j].download.results, id))
    && (forall j :: 0 <= j < |trace| && trace[j].Scanned? ==>
          IsSubsequence(InstallIDs(trace) + [id], Plan(trace[j].scanned.scan, req)))
  }

  lemma {:induction false} AppendInstall(trace: seq<Event>, id: string, a: InstallAnswer, req: Request)
    requires Safe(trace, req) && MayInstall(trace, id, req)
    ensures Safe(trace + [InstallCall(id, a)], req)
  {
    hide SomeScan, IsSubsequence, DownloadAllows, NothingBlocks, Plan, InstallIDs;
    AppendKeepsApps(trace, InstallCall(id, a));
    AppendKeepsInterrupt(trace, InstallCall(id, a));
    AppendKeepsBlocks(trace, InstallCall(id, a));
    AppendKeepsDownloads(trace, InstallCall(id, a));
    AppendKeepsPlan(trace, InstallCall(id, a), req);
    hide HonoursBlocks, HonoursDownloads, FollowsPlan, StaysInterrupted, HonoursApps;
  }

  /** An event that is no install opens no block. */
  lemma NothingBlocksAppend(trace: seq<Event>, e: Event)
    requires NothingBlocks(trace) && !e.InstallCall?
    ensures NothingBlocks(trace + [e])
  {
    var t := trace + [e];
    forall j | 0 <= j < |t| ensures !BlocksAt(t, j, |t|) {
      if j < |trace| {
        assert !BlocksAt(trace, j, |trace|);
        assert forall m :: 0 <= m < |trace| ==> t[m] == trace[m];
      }
    }
  }

  /** After an install and its rechecks nothing blocks, unless it failed blocked or
      timed out unresolved. */
  lemma NothingBlocksAfterInstall(before: seq<Event>, id: string, a: InstallAnswer, after: seq<Event>)
    requires NothingBlocks(before) && !FailsBlocked(a)
    requires forall m :: 0 <= m < |after| ==> !after[m].InstallCall?
    requires a.TimedOut? ==> exists m :: 0 <= m < |after| && Resolves(after[m], id)
    ensures NothingBlocks(before + [InstallCall(id, a)] + after)
  {
    var t := before + [InstallCall(id, a)] + after;
    assert forall m :: 0 <= m < |before| ==> t[m] == before[m];
    assert forall m :: 0 <= m < |after| ==> t[|before| + 1 + m] == after[m];
    hide FailsBlocked, Resolves;
    forall j | 0 <= j < |t| ensures !BlocksAt(t, j, |t|) {
      if j < |before| {
        assert !BlocksAt(before, j, |before|);
      } else if j > |before| {
        assert t[j] == after[j - |before| - 1];
      }
    }
  }

  /** The same, for a trace that grew from before by the install and its rechecks. */
  lemma GrownNothingBlocks(before: seq<Event>, id: string, a: InstallAnswer, trace: seq<Event>)
    requires NothingBlocks(before) && !FailsBlocked(a) && before + [InstallCall(id, a)] <= trace
    requires forall m :: |before| < m < |trace| ==> trace[m].StatusCall?
    requires a.TimedOut? ==> exists m :: |before| < m < |trace| && Resolves(trace[m], id)
    ensures NothingBlocks(trace)
  {
    var after := trace[|before| + 1..];
    assert trace == before + [InstallCall(id, a)] + after;
    hide FailsBlocked, Resolves, NothingBlocks;
    if m :| |before| < m < |trace| && Resolves(trace[m], id) {
      assert after[m - |before| - 1] == trace[m];
    }
    NothingBlocksAfterInstall(before, id, a, after);
  }

  /** Events that are no installs add no installed ID. */
  lemma {:induction false} InstallIDsLater(trace: seq<Event>, later: seq<Event>)
    requires trace <= later
    requires forall m :: |trace| <= m < |later| ==> !later[m].InstallCall?
    ensures InstallIDs(later) == InstallIDs(trace)
    decreases |later|
  {
    if |trace| < |later| {
      InstallIDsLater(trace, later[..|later| - 1]);
    } else {
      assert trace == later;
    }
  }

  /** The scan and the download that the installs of a run go by. */
  ghost predicate Prepared(trace: seq<Event>, req: Request, ids: seq<string>, results: map<string, OpResult>) {
    && SomeScan(trace) && (exists j :: 0 <= j < |trace| && trace[j].Downloaded?)
    && (forall j :: 0 <= j < |trace| && trace[j].Downloaded? ==>
          trace[j].ids == ids && trace[j].download == DownloadAnswer(results, None))
    && (forall j :: 0 <= j < |trace| && trace[j].Scanned? ==> Plan(trace[j].scanned.scan, req) == ids)
  }

  lemma PreparedLater(trace: seq<Event>, later: seq<Event>, req: Request, ids: seq<string>,
                      results: map<string, OpResult>)
    requires Prepared(trace, req, ids, results) && trace <= later
    requires forall m :: |trace| <= m < |later| ==> !later[m].Scanned? && !later[m].Downloaded?
    ensures Prepared(later, req, ids, results)
  {
    hide Plan, SomeScan;
    SomeScanLater(trace, later);
    var j :| 0 <= j < |trace| && trace[j].Downloaded?;
    assert later[j].Downloaded?;
    assert forall m :: 0 <= m < |trace| ==> later[m] == trace[m];
  }

  lemma TakesPlanned(a: seq<string>, ids: seq<string>, i: nat)
    requires i < |ids| && IsSubsequence(a, ids[..i])
    ensures IsSubsequence(a + [ids[i]], ids)
  {
    SubsequenceTakes(a, ids[..i], ids[i], ids[i + 1..]);
    assert ids[..i] + [ids[i]] + ids[i + 1..] == ids;
  }

  /** A planned update may be installed after a passed check when nothing blocks. */
  lemma {:induction false} PreparedMayInstall(trace: seq<Event>, req: Request, ids: seq<string>,
          results: map<string, OpResult>, i: nat)
    requires Prepared(trace, req, ids, results) && i < |ids| && !req.dryRun
    requires NothingBlocks(trace) && trace != [] && trace[|trace| - 1] == Checked(None)
    requires DownloadAllows(results, ids[i]) && IsSubsequence(InstallIDs(trace), ids[..i])
    ensures MayInstall(trace, ids[i], req)
  {
    hide Plan, DownloadAllows, IsSubsequence, NothingBlocks, InstallIDs, SomeScan;
    TakesPlanned(InstallIDs(trace), ids, i);
    var j :| 0 <= j < |trace| && trace[j].Downloaded?;
    assert ids[i] in trace[j].ids;
  }

  // ----- plans without repetitions

  ghost predicate Distinct(ids: seq<string>) {
    forall i, j :: 0 <= i < j < |ids| ==> ids[i] != ids[j]
  }

  lemma {:induction false} SubsequenceMembers(a: seq<string>, b: seq<string>)
    requires IsSubsequence(a, b)
    ensures forall x :: x in a ==> x in b
  {
    if a != [] {
      var b' := b[..|b| - 1];
      if IsSubsequence(a, b') {
        SubsequenceMembers(a, b');
      } else {
        SubsequenceMembers(a[..|a| - 1], b');
        assert forall x :: x in a ==> x in a[..|a| - 1] || x == a[|a| - 1];
      }
    }
  }

  /** A subsequence of a list without repetitions has none. */
  lemma {:induction false} SubsequenceDistinct(a: seq<string>, b: seq<string>)
    requires IsSubsequence(a, b) && Distinct(b)
    ensures Distinct(a)
  {
    if a != [] {
      var b' := b[..|b| - 1];
      if IsSubsequence(a, b') {
        SubsequenceDistinct(a, b');
      } else {
        var a' := a[..|a| - 1];
        SubsequenceDistinct(a', b');
        SubsequenceMembers(a', b');
        assert forall i :: 0 <= i < |a'| ==> a[i] == a'[i] && a[i] in a';
      }
    }
  }

  lemma {:induction false} SubsequenceGrows(a: seq<string>, b: seq<string>, c: seq<string>)
    requires IsSubsequence(a, b)
    ensures IsSubsequence(a, b + c)
  {
    if c != [] {
      SubsequenceGrows(a, b, c[..|c| - 1]);
      assert (b + c)[..|b + c| - 1] == b + c[..|c| - 1];
    } else {
      assert b + c == b;
    }
  }

  lemma SubsequenceTakes(a: seq<string>, b: seq<string>, x: string, c: seq<string>)
    requires IsSubsequence(a, b)
    ensures IsSubsequence(a + [x], b + [x] + c)
  {
    assert (a + [x])[..|a|] == a && (b + [x])[..|b|] == b;
    SubsequenceGrows(a + [x], b + [x], c);
  }
}
