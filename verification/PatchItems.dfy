/** The item table of a Windows patch run: one entry per kind and ID, and what an
    entry's status must be backed by. A pointer to an item is its position. */
module PatchItems {
  import opened Options
  import opened Text
  import opened WindowsPatch
  import opened PatchTrace

  type ItemKey = (Kind, string)

  function KeyOf(it: Item): ItemKey { (it.kind, it.id) }

  /** items has one entry per key and agrees with byKey. */
  ghost predicate TableValid(items: seq<Item>, byKey: map<ItemKey, nat>) {
    && (forall k :: k in byKey ==> byKey[k] < |items| && KeyOf(items[byKey[k]]) == k)
    && (forall i :: 0 <= i < |items| ==> KeyOf(items[i]) in byKey && byKey[KeyOf(items[i])] == i)
  }

  lemma TableHasNoDuplicates(items: seq<Item>, byKey: map<ItemKey, nat>)
    requires TableValid(items, byKey)
    ensures forall i, j :: 0 <= i < j < |items| ==> KeyOf(items[i]) != KeyOf(items[j])
  {
  }

  /** A new item keeps what an older entry knows and it does not. */
  function Merged(it: Item, cur: Item): (x: Item)
    ensures x.title == (if it.title != "" then it.title else cur.title)
    ensures x.kb == (if it.kb != "" then it.kb else cur.kb)
    ensures x.revision == (if it.revision != 0 then it.revision else cur.revision)
    ensures x.(title := "", kb := "", revision := 0) == it.(title := "", kb := "", revision := 0)
  {
    it.(title := if it.title == "" then cur.title else it.title,
        kb := if it.kb == "" then cur.kb else it.kb,
        revision := if it.revision == 0 then cur.revision else it.revision)
  }

  lemma TableAppend(items: seq<Item>, byKey: map<ItemKey, nat>, it: Item)
    requires TableValid(items, byKey) && KeyOf(it) !in byKey
    ensures TableValid(items + [it], byKey[KeyOf(it) := |items|])
  {
  }

  lemma TablePut(items: seq<Item>, byKey: map<ItemKey, nat>, h: nat, it: Item)
    requires TableValid(items, byKey) && h < |items| && KeyOf(it) == KeyOf(items[h])
    ensures TableValid(items[h := it], byKey)
  {
  }

  // ----- what backs a status

  /** What a search says about an update. */
  predicate ScanExplains(a: ScanAnswer, id: string, status: Status, message: Message) {
    if a.err != None then status == Failed
    else
      var offers := (p: Update -> bool) =>
        exists i :: 0 <= i < |a.scan.updates| && ToLower(a.scan.updates[i].id) == id && p(a.scan.updates[i]);
      match status
      case InstalledPendingReboot => offers((u: Update) => u.pendingReboot)
      case Skipped =>
        if message == Interactive then offers((u: Update) => !u.pendingReboot && u.canRequestUserInput)
        else
          message == RestartFirst && a.scan.rebootRequiredBeforeInstall &&
          offers((u: Update) => !u.pendingReboot && !u.canRequestUserInput)
      case NotApplicable => message == NoLongerOffered && !offers((u: Update) => true)
      case WouldInstall =>
        !a.scan.rebootRequiredBeforeInstall && offers((u: Update) => !u.pendingReboot && !u.canRequestUserInput)
      case _ => false
  }

  /** An install step decides its own item, and may hold back the ones after it. */
  predicate InstallExplains(a: InstallAnswer, own: bool, status: Status, message: Message) {
    || (own && AnswerGives(a, status))
    || (status == Skipped && message == StillInstalling && a.TimedOut?)
    || (status == Skipped && message == RestartFirst && CarriesBlocked(a))
  }

  /** What winget list says about an app. */
  predicate CheckExplains(a: UpgradeAnswer, status: Status, message: Message) {
    match a
    case CheckFailed(_) => status == Failed
    case State(PinnedApp) => status == Skipped && message == Pinned
    case State(Available) => status == WouldInstall
    case State(_) => status == NotApplicable
  }

  /** The event accounts for an item's status and message. */
  predicate Explains(e: Event, key: ItemKey, status: Status, message: Message) {
    match e
    case Checked(reason) => status == Skipped && reason == Some(message)
    case Scanned(a) => key.0 == Wua && ScanExplains(a, key.1, status, message)
    case Downloaded(_, d) =>
      key.0 == Wua && status == Failed && (d.err != None || !DownloadAllows(d.results, key.1))
    case InstallCall(id, a) => key.0 == Wua && InstallExplains(a, ToLower(id) == key.1, status, message)
    case StatusCall(id, a) =>
      key.0 == Wua && ToLower(id) == key.1 && Resolves(e, id) &&
      status == (if a.result.alreadyInstalled then Installed else InstalledPendingReboot)
    case WingetResolved(ok) => key.0 == Winget && !ok && status == Failed
    case StoreListed(store) =>
      key.0 == Winget && ToLower(key.1) in store && status == Skipped && message == StoreApp
    case AppChecked(id, a) => key.0 == Winget && id == key.1 && CheckExplains(a, status, message)
    case AppUpgraded(id, exit) =>
      key.0 == Winget && id == key.1 && ExitGives(exit, status)
    case AppsListed(_) => false
    case RenamesRead(_) => false
    case RebootAsked(_) => false
  }

  /** Every decided status rests on some event. */
  ghost predicate Evident(key: ItemKey, status: Status, message: Message, trace: seq<Event>) {
    status != Pending ==> exists k :: 0 <= k < |trace| && Explains(trace[k], key, status, message)
  }

  /** Skipped for a stop only after a stop, for the time limit only once that is noted,
      and decided only by an answer or a check that says so. */
  ghost predicate Sound(it: Item, stopped: bool, limitNoted: bool, trace: seq<Event>) {
    && (it.kind == Wua || it.kind == Winget) && (it.kind == Wua ==> ToLower(it.id) == it.id)
    && (it.status == Skipped && it.message == StoppedByUser ==> stopped)
    && (it.status == Skipped && it.message == TimeLimit ==> limitNoted)
    && Evident(KeyOf(it), it.status, it.message, trace)
  }

  ghost predicate AllSound(items: seq<Item>, stopped: bool, limitNoted: bool, trace: seq<Event>) {
    forall i :: 0 <= i < |items| ==> Sound(items[i], stopped, limitNoted, trace)
  }

  lemma EvidentLater(key: ItemKey, status: Status, message: Message, trace: seq<Event>, later: seq<Event>)
    requires Evident(key, status, message, trace) && trace <= later
    ensures Evident(key, status, message, later)
  {
    hide Explains;
    if status != Pending {
      var k :| 0 <= k < |trace| && Explains(trace[k], key, status, message);
      assert later[k] == trace[k];
    }
  }

  /** Sound items stay sound as the run goes on. */
  lemma AllSoundLater(items: seq<Item>, stopped: bool, limitNoted: bool, trace: seq<Event>, stopped': bool,
                      limitNoted': bool, trace': seq<Event>)
    requires AllSound(items, stopped, limitNoted, trace)
    requires (stopped ==> stopped') && (limitNoted ==> limitNoted') && trace <= trace'
    ensures AllSound(items, stopped', limitNoted', trace')
  {
    hide Evident;
    forall i | 0 <= i < |items| ensures Sound(items[i], stopped', limitNoted', trace') {
      assert Sound(items[i], stopped, limitNoted, trace);
      EvidentLater(KeyOf(items[i]), items[i].status, items[i].message, trace, trace');
    }
  }

  lemma AllSoundPut(items: seq<Item>, h: nat, it: Item, stopped: bool, limitNoted: bool, trace: seq<Event>)
    requires AllSound(items, stopped, limitNoted, trace) && Sound(it, stopped, limitNoted, trace)
    ensures h < |items| ==> AllSound(items[h := it], stopped, limitNoted, trace)
    ensures AllSound(items + [it], stopped, limitNoted, trace)
  {
    hide Sound;
  }

  /** The event at k accounts for an item. */
  lemma ExplainedAt(k: nat, key: ItemKey, status: Status, message: Message, trace: seq<Event>)
    requires k < |trace| && Explains(trace[k], key, status, message)
    ensures Evident(key, status, message, trace)
  {
    hide Explains;
  }

  /** An earlier install step is why the ones after it are held back. */
  ghost predicate BlockExplained(message: Message, trace: seq<Event>) {
    exists k :: 0 <= k < |trace| && trace[k].InstallCall? &&
                InstallExplains(trace[k].install, false, Skipped, message)
  }

  lemma BlockExplainedLater(message: Message, trace: seq<Event>, later: seq<Event>)
    requires BlockExplained(message, trace) && trace <= later
    ensures BlockExplained(message, later)
  {
    var k :| 0 <= k < |trace| && trace[k].InstallCall? &&
             InstallExplains(trace[k].install, false, Skipped, message);
    assert later[k] == trace[k];
  }

  /** Either nothing forbids the next install, or an answer in the trace says what does. */
  ghost predicate BlockKnown(blocked: Option<Message>, trace: seq<Event>) {
    match blocked
    case None => NothingBlocks(trace)
    case Some(message) => BlockExplained(message, trace)
  }

  lemma BlockKnownAppend(blocked: Option<Message>, trace: seq<Event>, e: Event)
    requires BlockKnown(blocked, trace) && !e.InstallCall?
    ensures BlockKnown(blocked, trace + [e])
  {
    hide NothingBlocks, BlockExplained;
    match blocked {
      case None => NothingBlocksAppend(trace, e);
      case Some(message) => BlockExplainedLater(message, trace, trace + [e]);
    }
  }

  lemma {:induction false} BlockedIsExplained(it: Item, message: Message, trace: seq<Event>)
    requires BlockExplained(message, trace) && it.kind == Wua
    ensures Evident(KeyOf(it), Skipped, message, trace)
    ensures message == StillInstalling || message == RestartFirst
  {
    var k :| 0 <= k < |trace| && trace[k].InstallCall? &&
             InstallExplains(trace[k].install, false, Skipped, message);
    OthersExplained(trace[k], KeyOf(it), message);
    hide Explains, Evident, InstallExplains, BlockExplained;
    ExplainedAt(k, KeyOf(it), Skipped, message, trace);
  }

  /** What an install says about the updates behind it. */
  lemma {:induction false} OthersExplained(e: Event, key: ItemKey, message: Message)
    requires e.InstallCall? && key.0 == Wua && InstallExplains(e.install, false, Skipped, message)
    ensures Explains(e, key, Skipped, message) && (message == StillInstalling || message == RestartFirst)
  {
    hide ScanExplains, CheckExplains, CarriesBlocked, AnswerGives, ExitGives, DownloadAllows, Resolves, ToLower;
  }

  /** The trace accounts for any update at all ending so. */
  ghost predicate ExplainsUpdates(status: Status, message: Message, trace: seq<Event>) {
    forall id: string :: Evident((Wua, id), status, message, trace)
  }

  /** A failed search or download accounts for every update, and so does a check that
      found a reason to stop. */
  lemma PhaseExplained(k: nat, trace: seq<Event>, status: Status, message: Message)
    requires k < |trace|
    requires match trace[k]
             case Checked(reason) => status == Skipped && reason == Some(message)
             case Scanned(a) => a.err != None && status == Failed
             case Downloaded(_, d) => d.err != None && status == Failed
             case _ => false
    ensures ExplainsUpdates(status, message, trace)
  {
    forall id: string ensures Evident((Wua, id), status, message, trace) {
      assert Explains(trace[k], (Wua, id), status, message);
      ExplainedAt(k, (Wua, id), status, message, trace);
    }
  }

  lemma UpdateExplained(it: Item, status: Status, message: Message, trace: seq<Event>)
    requires ExplainsUpdates(status, message, trace) && it.kind == Wua
    ensures Evident(KeyOf(it), status, message, trace)
  {
  }

  /** An update whose download failed. */
  lemma DownloadExplained(k: nat, it: Item, id: string, trace: seq<Event>)
    requires k < |trace| && trace[k].Downloaded? && it.kind == Wua && it.id == ToLower(id)
    requires !DownloadAllows(trace[k].download.results, id)
    ensures Evident(KeyOf(it), Failed, Detail, trace)
  {
    ToLowerIdempotent(id);
    ExplainedAt(k, KeyOf(it), Failed, Detail, trace);
  }

  /** What an upgrade of an app shows of the events from the first look at the renames
      on: the exit code decides, and new renames ask for a restart. */
  ghost predicate UpgradeShown(events: seq<Event>, it: Item) {
    && |events| >= 2 && events[0].RenamesRead? && events[1].AppUpgraded? && events[1].id == it.id
    && ExitGives(events[1].exit, it.status)
    && (events[1].exit != None ==>
          it.exitCode == events[1].exit && RestartAfter(events, events[1].exit.value, it.rebootRequired))
  }

  ghost predicate RestartAfter(events: seq<Event>, code: int, restart: bool)
    requires |events| >= 2 && events[0].RenamesRead?
  {
    if UpgradedExit(code) then
      |events| == 3 && events[2].RenamesRead? &&
      restart == (code != 0 || NewRenames(events[0].entries, events[2].entries))
    else !restart
  }

  // ----- where a blocking code comes from

  /** An item with the blocking code has it from an install. */
  ghost predicate CodeShown(it: Item, trace: seq<Event>) {
    IsInstallBlocked(it.hresult) ==> BlockExplained(RestartFirst, trace)
  }

  ghost predicate CodesShown(items: seq<Item>, queued: seq<Option<nat>>, trace: seq<Event>) {
    forall i :: 0 <= i < |queued| && queued[i] != None && queued[i].value < |items| ==>
      CodeShown(items[queued[i].value], trace)
  }

  /** No queued item has a code yet. */
  predicate NoCodes(items: seq<Item>, queued: seq<Option<nat>>) {
    forall i :: 0 <= i < |queued| && queued[i] != None && queued[i].value < |items| ==>
      items[queued[i].value].hresult == ""
  }

  lemma CodeShownLater(it: Item, trace: seq<Event>, later: seq<Event>)
    requires CodeShown(it, trace) && trace <= later
    ensures CodeShown(it, later)
  {
    hide IsInstallBlocked, BlockExplained;
    if IsInstallBlocked(it.hresult) {
      BlockExplainedLater(RestartFirst, trace, later);
    }
  }

  lemma CodesShownNext(before: seq<Item>, after: seq<Item>, queued: seq<Option<nat>>, h: nat, trace: seq<Event>,
                       later: seq<Event>)
    requires CodesShown(before, queued, trace) && trace <= later
    requires OnlyAt(before, after, h) && CodeShown(after[h], later)
    ensures CodesShown(after, queued, later)
  {
    hide CodeShown;
    forall i | 0 <= i < |queued| && queued[i] != None && queued[i].value < |after|
      ensures CodeShown(after[queued[i].value], later)
    {
      if queued[i].value != h {
        CodeShownLater(before[queued[i].value], trace, later);
      }
    }
  }

  lemma NoCodesAreShown(items: seq<Item>, queued: seq<Option<nat>>, trace: seq<Event>)
    requires NoCodes(items, queued)
    ensures CodesShown(items, queued, trace)
  {
    assert NormaliseHResult("") == "";
    hide NormaliseHResult, BlockExplained;
  }

  /** Queued items whose download did not fail have no code yet. */
  predicate GoodHaveNoCodes(items: seq<Item>, install: seq<Update>, queued: seq<Option<nat>>,
                            results: map<string, OpResult>)
    requires |install| == |queued|
  {
    forall i :: 0 <= i < |queued| && queued[i] != None && queued[i].value < |items| &&
                DownloadAllows(results, install[i].id) ==>
      items[queued[i].value].hresult == ""
  }

  /** The code of a failed download goes to an item that no good update is queued for. */
  lemma FailedDownloadKeepsOthers(before: seq<Item>, after: seq<Item>, install: seq<Update>,
                                  queued: seq<Option<nat>>, results: map<string, OpResult>, k: nat, h: nat)
    requires QueuedFor(before, install, queued) && OnlyAt(before, after, h)
    requires k < |queued| && queued[k] == Some(h) && !DownloadAllows(results, install[k].id)
    requires GoodHaveNoCodes(before, install, queued, results)
    ensures GoodHaveNoCodes(after, install, queued, results)
    ensures GoodHaveNoCodes(after, install, queued[k := None], results)
  {
    forall i | 0 <= i < |queued| && queued[i] == Some(h) ensures !DownloadAllows(results, install[i].id) {
      assert ToLower(install[i].id) == ToLower(install[k].id);
    }
    hide DownloadAllows;
  }

  // ----- items ended together

  /** The first k queued entries ended so. */
  ghost predicate EndedAs(items: seq<Item>, queued: seq<Option<nat>>, k: nat, status: Status, message: Message)
    requires k <= |queued|
  {
    forall j :: 0 <= j < k ==>
      queued[j] != None && queued[j].value < |items| &&
      items[queued[j].value].status == status && items[queued[j].value].message == message
  }

  lemma EndedNext(before: seq<Item>, after: seq<Item>, queued: seq<Option<nat>>, k: nat, h: nat, status: Status,
                  message: Message)
    requires k < |queued| && queued[k] == Some(h) && OnlyAt(before, after, h)
    requires EndedAs(before, queued, k, status, message)
    requires after[h].status == status && after[h].message == message
    ensures EndedAs(after, queued, k + 1, status, message)
  {
  }

  /** The updates with these IDs ended so. */
  ghost predicate IDsEnded(items: seq<Item>, ids: seq<string>, status: Status, message: Message) {
    forall i :: 0 <= i < |items| && items[i].kind == Wua && items[i].id in ids ==>
      items[i].status == status && items[i].message == message
  }

  lemma IDEnded(before: seq<Item>, after: seq<Item>, byKey: map<ItemKey, nat>, it: Item, h: nat,
                ids: seq<string>)
    requires Upserted(before, after, it, h) && TableValid(after, byKey) && it.kind == Wua
    requires IDsEnded(before, ids, it.status, it.message)
    ensures IDsEnded(after, ids + [it.id], it.status, it.message)
  {
    assert KeyOf(after[h]) == KeyOf(it);
    forall i | 0 <= i < |after| && after[i].kind == Wua && after[i].id in ids + [it.id] && i != h
      ensures after[i].status == it.status && after[i].message == it.message
    {
      assert after[i] == before[i];
      assert KeyOf(after[i]) != KeyOf(after[h]) by {
        assert byKey[KeyOf(after[i])] == i && byKey[KeyOf(after[h])] == h;
      }
    }
  }

  // ----- the apps of a run without targets

  function FoldedIDs(ids: seq<string>): set<string> { set x | x in ids :: ToLower(x) }

  predicate IsWantedApp(p: App) { p.needsUpdate && p.id != "" && IsWingetId(p.id) }

  /** The first updatable app of each folded ID. */
  function AppIDs(apps: seq<App>): seq<string> {
    if apps == [] then []
    else
      var before, p := AppIDs(apps[..|apps| - 1]), apps[|apps| - 1];
      if IsWantedApp(p) && ToLower(p.id) !in FoldedIDs(before) then before + [p.id] else before
  }

  lemma FoldedAppend(ids: seq<string>, x: string)
    ensures FoldedIDs(ids + [x]) == FoldedIDs(ids) + {ToLower(x)}
  {
    assert forall y :: y in ids + [x] <==> y in ids || y == x;
  }

  /** Each updatable app is covered once, letter case aside, and nothing else is. */
  lemma {:induction false} AppIDsCoverOnce(apps: seq<App>)
    ensures FoldedIDs(AppIDs(apps)) == set p | p in apps && p.needsUpdate && IsWingetId(p.id) :: ToLower(p.id)
    ensures forall i, j :: 0 <= i < j < |AppIDs(apps)| ==> ToLower(AppIDs(apps)[i]) != ToLower(AppIDs(apps)[j])
  {
    if apps != [] {
      hide IsWantedApp;
      var init, p := apps[..|apps| - 1], apps[|apps| - 1];
      AppIDsCoverOnce(init);
      assert apps == init + [p];
      FoldedAppend(AppIDs(init), p.id);
    }
  }

  // ----- pending items

  ghost predicate NonePending(items: seq<Item>, kind: Kind) {
    forall i :: 0 <= i < |items| && items[i].kind == kind ==> items[i].status != Pending
  }

  /** Every pending item of the kind has one of the IDs. */
  ghost predicate PendingHaveIDs(items: seq<Item>, kind: Kind, ids: seq<string>) {
    forall i :: 0 <= i < |items| && items[i].kind == kind && items[i].status == Pending ==>
      items[i].id in ids
  }

  /** Every pending item of the kind is queued from position k on. */
  ghost predicate PendingQueued(items: seq<Item>, kind: Kind, queued: seq<Option<nat>>, k: nat) {
    forall i :: 0 <= i < |items| && items[i].kind == kind && items[i].status == Pending ==>
      exists j :: k <= j < |queued| && queued[j] == Some(i)
  }

  /** Each queued entry is the item of the update it is queued for. */
  ghost predicate QueuedFor(items: seq<Item>, install: seq<Update>, queued: seq<Option<nat>>) {
    |queued| == |install| &&
    forall i :: 0 <= i < |queued| && queued[i] != None ==>
      queued[i].value < |items| && KeyOf(items[queued[i].value]) == (Wua, ToLower(install[i].id))
  }

  /** Each queued entry is an app. */
  ghost predicate AppsQueued(items: seq<Item>, queued: seq<Option<nat>>) {
    forall i :: 0 <= i < |queued| ==>
      queued[i] != None && queued[i].value < |items| && items[queued[i].value].kind == Winget
  }

  /** Only the entry at h differs, and it keeps its key. */
  ghost predicate OnlyAt(before: seq<Item>, after: seq<Item>, h: nat) {
    && |before| == |after| && h < |after| && KeyOf(before[h]) == KeyOf(after[h])
    && forall i :: 0 <= i < |after| && i != h ==> after[i] == before[i]
  }

  /** Entries keep their keys and places, and entries of other kinds do not change. */
  ghost predicate KeepsOthers(before: seq<Item>, after: seq<Item>, kind: Kind) {
    && |before| <= |after|
    && (forall i :: 0 <= i < |before| ==> KeyOf(before[i]) == KeyOf(after[i]))
    && (forall i :: 0 <= i < |before| && before[i].kind != kind ==> after[i] == before[i])
    && (forall i :: |before| <= i < |after| ==> after[i].kind == kind)
  }

  /** Finishing the entry queued at k leaves the pending ones queued after it. */
  lemma FinishedOne(before: seq<Item>, after: seq<Item>, kind: Kind, queued: seq<Option<nat>>, k: nat, h: nat)
    requires PendingQueued(before, kind, queued, k) && OnlyAt(before, after, h)
    requires k < |queued| && queued[k] == Some(h) && after[h].status != Pending
    ensures PendingQueued(after, kind, queued, k + 1)
  {
    forall i | 0 <= i < |after| && after[i].kind == kind && after[i].status == Pending
      ensures exists j :: k + 1 <= j < |queued| && queued[j] == Some(i)
    {
      assert after[i] == before[i];
      var j :| k <= j < |queued| && queued[j] == Some(i);
      assert j != k;
    }
  }

  /** Nothing else of the loop over the queue changes with that entry. */
  lemma OneChanged(first: seq<Item>, before: seq<Item>, after: seq<Item>, install: seq<Update>,
                   queued: seq<Option<nat>>, h: nat)
    requires QueuedFor(before, install, queued) && OnlyAt(before, after, h) && after[h].kind == Wua
    requires KeepsOthers(first, before, Wua) && |before| == |first|
    ensures QueuedFor(after, install, queued) && KeepsOthers(first, after, Wua)
  {
  }

  lemma NoneQueued(items: seq<Item>, kind: Kind, queued: seq<Option<nat>>)
    requires PendingQueued(items, kind, queued, |queued|)
    ensures NonePending(items, kind)
  {
  }

  /** The IDs a finished phase reports as waiting for a restart. */
  predicate WaitsForRestart(it: Item) {
    it.kind == Wua &&
    (((it.status == Installed || it.status == InstalledWithErrors) && it.rebootRequired) ||
     it.status == InstalledPendingReboot)
  }

  function RestartIDs(items: seq<Item>): set<string> {
    set i | 0 <= i < |items| && WaitsForRestart(items[i]) :: ToLower(items[i].id)
  }

  predicate StartedUpdate(it: Item) { it.kind == Wua && it.started }

  /** An update is marked as started exactly when some install was called. */
  ghost predicate AttemptsMarked(items: seq<Item>, trace: seq<Event>) {
    (exists i :: 0 <= i < |items| && StartedUpdate(items[i])) <==> !NoInstallIn(trace)
  }

  ghost predicate AllPending(items: seq<Item>) {
    forall i :: 0 <= i < |items| ==> items[i].status == Pending
  }

  ghost predicate NoneStarted(items: seq<Item>) {
    forall i :: 0 <= i < |items| ==> !StartedUpdate(items[i])
  }

  // ----- decided and queued updates

  function DecidedIDs(decided: seq<Item>): (r: seq<string>)
    ensures |r| == |decided| && forall i :: 0 <= i < |r| ==> r[i] == decided[i].id
  {
    seq(|decided|, i requires 0 <= i < |decided| => decided[i].id)
  }

  function LowerIDs(updates: seq<Update>): (r: seq<string>)
    ensures |r| == |updates| && forall i :: 0 <= i < |r| ==> r[i] == ToLower(updates[i].id)
  {
    seq(|updates|, i requires 0 <= i < |updates| => ToLower(updates[i].id))
  }

  function Lowered(ids: seq<string>): (r: seq<string>)
    ensures |r| == |ids| && forall i :: 0 <= i < |r| ==> r[i] == ToLower(ids[i])
  {
    seq(|ids|, i requires 0 <= i < |ids| => ToLower(ids[i]))
  }

  function KeysFor(kind: Kind, ids: seq<string>): set<ItemKey> { set x | x in ids :: (kind, x) }

  lemma KeysForAppend(kind: Kind, ids: seq<string>, x: string)
    ensures KeysFor(kind, ids + [x]) == KeysFor(kind, ids) + {(kind, x)}
  {
    assert forall y :: y in ids + [x] <==> y in ids || y == x;
  }

  lemma DecidedIDsStep(decided: seq<Item>, k: nat)
    requires k < |decided|
    ensures DecidedIDs(decided[..k + 1]) == DecidedIDs(decided[..k]) + [decided[k].id]
  {
  }

  lemma LowerIDsStep(install: seq<Update>, k: nat)
    requires k < |install|
    ensures LowerIDs(install[..k + 1]) == LowerIDs(install[..k]) + [ToLower(install[k].id)]
  {
  }

  /** What a scan decides: an update, not pending, not started, backed by the scan. */
  ghost predicate DecidedSound(decided: seq<Item>, trace: seq<Event>) {
    forall k :: 0 <= k < |decided| ==>
      && decided[k].kind == Wua && decided[k].status != Pending && !decided[k].started
      && ToLower(decided[k].id) == decided[k].id
      && (decided[k].status == Skipped ==> decided[k].message !in {StoppedByUser, TimeLimit})
      && Evident(KeyOf(decided[k]), decided[k].status, decided[k].message, trace)
  }

  /** The trace accounts for updates a dry run would install. */
  ghost predicate WouldInstallAll(install: seq<Update>, trace: seq<Event>) {
    forall k :: 0 <= k < |install| ==> Evident((Wua, ToLower(install[k].id)), WouldInstall, Detail, trace)
  }

  lemma DecidedIsSound(decided: seq<Item>, k: nat, stopped: bool, limitNoted: bool, trace: seq<Event>)
    requires DecidedSound(decided, trace) && k < |decided|
    ensures Sound(decided[k].(completed := true), stopped, limitNoted, trace)
    ensures decided[k].kind == Wua && decided[k].status != Pending && !decided[k].started
  {
    hide Evident;
  }

  /** Every pending item of the kind is queued, or is one of ids and not done yet. */
  ghost predicate PendingLeft(items: seq<Item>, kind: Kind, ids: seq<string>, done: seq<string>,
                              queued: seq<Option<nat>>) {
    forall i :: 0 <= i < |items| && items[i].kind == kind && items[i].status == Pending ==>
      Some(i) in queued || (items[i].id in ids && items[i].id !in done)
  }

  /** How an upsert changes the list. */
  ghost predicate Upserted(before: seq<Item>, after: seq<Item>, it: Item, h: nat) {
    || (h < |before| && KeyOf(before[h]) == KeyOf(it) && after == before[h := Merged(it, before[h])])
    || (h == |before| && after == before + [it])
  }

  /** An upserted item is done; if it is pending, it must be queued. */
  lemma UpsertLeaves(before: seq<Item>, after: seq<Item>, byKey: map<ItemKey, nat>, it: Item, h: nat,
                     ids: seq<string>, done: seq<string>, queued: seq<Option<nat>>)
    requires PendingLeft(before, it.kind, ids, done, queued) && Upserted(before, after, it, h)
    requires TableValid(after, byKey)
    ensures it.status != Pending ==> PendingLeft(after, it.kind, ids, done + [it.id], queued)
    ensures PendingLeft(after, it.kind, ids, done + [it.id], queued + [Some(h)])
  {
    assert KeyOf(after[h]) == KeyOf(it);
    forall i | 0 <= i < |after| && after[i].kind == it.kind && after[i].status == Pending && i != h
      ensures Some(i) in queued || (after[i].id in ids && after[i].id !in done + [it.id])
    {
      assert after[i] == before[i];
      assert KeyOf(after[i]) != KeyOf(after[h]) by {
        assert byKey[KeyOf(after[i])] == i && byKey[KeyOf(after[h])] == h;
      }
    }
    assert (queued + [Some(h)])[|queued|] == Some(h);
  }

  lemma UpsertKeepsOthers(before: seq<Item>, after: seq<Item>, it: Item, h: nat)
    requires Upserted(before, after, it, h) && !it.started
    ensures KeepsOthers(before, after, it.kind)
    ensures NoneStarted(before) ==> NoneStarted(after)
  {
  }

  lemma KeepsOthersTransitive(a: seq<Item>, b: seq<Item>, c: seq<Item>, kind: Kind)
    requires KeepsOthers(a, b, kind) && KeepsOthers(b, c, kind)
    ensures KeepsOthers(a, c, kind)
  {
  }

  lemma QueuedForNone(items: seq<Item>)
    ensures QueuedFor(items, [], [])
  {
  }

  /** The upserted update is queued behind the ones before it. */
  lemma UpsertKeepsNoCodes(before: seq<Item>, after: seq<Item>, it: Item, h: nat, queued: seq<Option<nat>>)
    requires NoCodes(before, queued) && Upserted(before, after, it, h) && it.hresult == ""
    requires forall i :: 0 <= i < |queued| && queued[i] != None ==> queued[i].value < |before|
    ensures NoCodes(after, queued + [Some(h)])
  {
  }

  lemma UpsertQueues(before: seq<Item>, after: seq<Item>, it: Item, h: nat, install: seq<Update>, k: nat,
                     queued: seq<Option<nat>>)
    requires k < |install| && QueuedFor(before, install[..k], queued) && Upserted(before, after, it, h)
    requires KeyOf(it) == (Wua, ToLower(install[k].id))
    ensures QueuedFor(after, install[..k + 1], queued + [Some(h)])
  {
  }

  /** When every ID is done, all that is pending is queued. */
  lemma LeftIsQueued(items: seq<Item>, kind: Kind, ids: seq<string>, done: seq<string>,
                     queued: seq<Option<nat>>)
    requires PendingLeft(items, kind, ids, done, queued) && forall x :: x in ids ==> x in done
    ensures PendingQueued(items, kind, queued, 0)
    ensures queued == [] ==> NonePending(items, kind)
  {
    forall i | 0 <= i < |items| && items[i].kind == kind && items[i].status == Pending
      ensures exists j :: 0 <= j < |queued| && queued[j] == Some(i)
    {
      assert Some(i) in queued;
    }
  }

  /** Dropping the queue entry of an item that is finished loses nothing. */
  lemma DroppedOne(before: seq<Item>, after: seq<Item>, queued: seq<Option<nat>>, k: nat, h: nat)
    requires PendingQueued(before, Wua, queued, 0) && OnlyAt(before, after, h)
    requires k < |queued| && queued[k] == Some(h) && after[h].status != Pending
    ensures PendingQueued(after, Wua, queued[k := None], 0)
  {
    var left := queued[k := None];
    forall i | 0 <= i < |after| && after[i].kind == Wua && after[i].status == Pending
      ensures exists j :: 0 <= j < |left| && left[j] == Some(i)
    {
      assert after[i] == before[i];
      var j :| 0 <= j < |queued| && queued[j] == Some(i);
      assert left[j] == Some(i);
    }
  }

  lemma OnlyAtKeeps(before: seq<Item>, after: seq<Item>, h: nat)
    requires OnlyAt(before, after, h)
    ensures KeepsOthers(before, after, after[h].kind)
    ensures NoneStarted(before) && after[h].started == before[h].started ==> NoneStarted(after)
  {
  }

  lemma OnlyAtKeepsQueue(before: seq<Item>, after: seq<Item>, h: nat, install: seq<Update>,
                         queued: seq<Option<nat>>)
    requires OnlyAt(before, after, h) && QueuedFor(before, install, queued)
    ensures QueuedFor(after, install, queued)
  {
  }

}
