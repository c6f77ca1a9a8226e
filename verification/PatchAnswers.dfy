/** What the answers in a trace make of the items: an install or an upgrade decides the
    item of its update or app, and a run that completed had only good answers. All of it
    is stated on the raw codes of the answers. */
module PatchAnswers {
  import opened Options
  import opened Text
  import opened WindowsPatch
  import opened PatchTrace
  import opened PatchItems

  // ----- installs

  /** The ID stands at most once in the list. */
  ghost predicate Once(ids: seq<string>, id: string) {
    forall p, q :: 0 <= p < q < |ids| ==> ids[p] != id || ids[q] != id
  }

  /** A result that counts says whether its update needs a restart. */
  predicate RestartGiven(a: InstallAnswer, restart: bool) {
    a.Done? && WasTried(a.result) ==> restart == a.result.rebootRequired
  }

  /** What the install at k, and the rechecks after it, make of its item. */
  ghost predicate InstallShown(it: Item, trace: seq<Event>, k: nat)
    requires k < |trace| && trace[k].InstallCall?
  {
    if trace[k].install.TimedOut? && exists m :: k < m < |trace| && Resolves(trace[m], trace[k].id) then
      exists m :: k < m < |trace| && Resolves(trace[m], trace[k].id) &&
                  it.status == if trace[m].status.result.alreadyInstalled then Installed else InstalledPendingReboot
    else AnswerGives(trace[k].install, it.status) && RestartGiven(trace[k].install, it.rebootRequired)
  }

  lemma {:induction false} RecheckShows(it: Item, trace: seq<Event>, k: nat, id: string, res: OpResult)
    requires k < |trace| - 1 && trace[k] == InstallCall(id, TimedOut) && Settled(res)
    requires trace[|trace| - 1] == StatusCall(id, StatusAnswer(res, false))
    requires it.status == if res.alreadyInstalled then Installed else InstalledPendingReboot
    ensures InstallShown(it, trace, k)
  {
    hide Settled, AnswerGives;
    assert Resolves(trace[|trace| - 1], trace[k].id);
  }

  lemma {:induction false} TimeoutShows(it: Item, trace: seq<Event>, k: nat, id: string)
    requires k < |trace| && trace[k] == InstallCall(id, TimedOut) && it.status == Failed
    requires forall m :: k < m < |trace| ==> !Resolves(trace[m], id)
    ensures InstallShown(it, trace, k)
  {
    hide Resolves;
  }

  ghost predicate SomeShows(items: seq<Item>, trace: seq<Event>, k: nat)
    requires k < |trace| && trace[k].InstallCall?
  {
    exists i :: 0 <= i < |items| && KeyOf(items[i]) == (Wua, ToLower(trace[k].id)) &&
                InstallShown(items[i], trace, k)
  }

  /** Each install of an update that was downloaded once shows in the update's item. */
  ghost predicate AnswersShown(items: seq<Item>, trace: seq<Event>) {
    forall j, k :: 0 <= j < |trace| && 0 <= k < |trace| && trace[j].Downloaded? && trace[k].InstallCall? &&
                   Once(Lowered(trace[j].ids), ToLower(trace[k].id)) ==>
      SomeShows(items, trace, k)
  }

  /** An event that is no matter of the updates. */
  predicate NoUpdateEvent(e: Event) { !e.Scanned? && !e.Downloaded? && !e.InstallCall? && !e.StatusCall? }

  lemma {:induction false} ShownLater(it: Item, trace: seq<Event>, later: seq<Event>, k: nat)
    requires k < |trace| && trace[k].InstallCall? && InstallShown(it, trace, k) && trace <= later
    requires forall m :: |trace| <= m < |later| ==> !Resolves(later[m], trace[k].id)
    ensures InstallShown(it, later, k)
  {
    hide AnswerGives, RestartGiven, Resolves;
    assert forall m :: 0 <= m < |trace| ==> later[m] == trace[m];
    if m :| k < m < |trace| && Resolves(trace[m], trace[k].id) {
      assert Resolves(later[m], later[k].id);
    }
  }

  /** Other items may change, and events that settle no install may come. */
  lemma {:induction false} SomeShowsLater(before: seq<Item>, after: seq<Item>, trace: seq<Event>,
                                          later: seq<Event>, k: nat)
    requires k < |trace| && trace[k].InstallCall? && SomeShows(before, trace, k) && trace <= later
    requires forall m :: |trace| <= m < |later| ==> !Resolves(later[m], trace[k].id)
    requires |before| <= |after|
    requires forall i :: 0 <= i < |before| && KeyOf(before[i]) == (Wua, ToLower(trace[k].id)) ==>
               after[i] == before[i]
    ensures SomeShows(after, later, k)
  {
    hide InstallShown, Resolves;
    var i :| 0 <= i < |before| && KeyOf(before[i]) == (Wua, ToLower(trace[k].id)) &&
             InstallShown(before[i], trace, k);
    ShownLater(before[i], trace, later, k);
    assert KeyOf(after[i]) == (Wua, ToLower(later[k].id)) && InstallShown(after[i], later, k);
  }

  /** The updates' items stay, and events that are no matter of theirs come. */
  lemma {:induction false} AnswersStayShown(before: seq<Item>, after: seq<Item>, trace: seq<Event>,
                                            later: seq<Event>)
    requires AnswersShown(before, trace) && trace <= later
    requires forall m :: |trace| <= m < |later| ==> NoUpdateEvent(later[m])
    requires |before| <= |after| && forall i :: 0 <= i < |before| && before[i].kind == Wua ==> after[i] == before[i]
    ensures AnswersShown(after, later)
  {
    hide SomeShows, Once, KeyOf;
    forall j, k | 0 <= j < |later| && 0 <= k < |later| && later[j].Downloaded? && later[k].InstallCall? &&
                  Once(Lowered(later[j].ids), ToLower(later[k].id))
      ensures SomeShows(after, later, k)
    {
      assert j < |trace| && k < |trace| && later[j] == trace[j] && later[k] == trace[k];
      KeepsKey(before, after, ToLower(trace[k].id));
      SomeShowsLater(before, after, trace, later, k);
    }
  }

  lemma KeepsKey(before: seq<Item>, after: seq<Item>, id: string)
    requires |before| <= |after| && forall i :: 0 <= i < |before| && before[i].kind == Wua ==> after[i] == before[i]
    ensures forall i :: 0 <= i < |before| && KeyOf(before[i]) == (Wua, id) ==> after[i] == before[i]
  {
  }

  /** An update installed before the i-th is another one, if it stands in the list once. */
  lemma {:induction false} EarlierIsOther(trace: seq<Event>, ids: seq<string>, i: nat, k: nat)
    requires i < |ids| && IsSubsequence(InstallIDs(trace), ids[..i])
    requires k < |trace| && trace[k].InstallCall? && Once(Lowered(ids), ToLower(trace[k].id))
    ensures ToLower(trace[k].id) != ToLower(ids[i])
  {
    hide ToLower, IsSubsequence, InstallIDs;
    InstallIn(trace, k);
    SubsequenceMembers(InstallIDs(trace), ids[..i]);
    var p :| 0 <= p < i && ids[..i][p] == trace[k].id;
    assert Lowered(ids)[p] == ToLower(trace[k].id) && Lowered(ids)[i] == ToLower(ids[i]);
  }

  /** Changing the item of the i-th update keeps what shows of the installs before it. */
  lemma {:induction false} SkippedStayShown(before: seq<Item>, after: seq<Item>, h: nat, ids: seq<string>,
                                            i: nat, trace: seq<Event>)
    requires AnswersShown(before, trace) && OnlyAt(before, after, h)
    requires forall j :: 0 <= j < |trace| && trace[j].Downloaded? ==> trace[j].ids == ids
    requires i < |ids| && IsSubsequence(InstallIDs(trace), ids[..i]) && KeyOf(before[h]) == (Wua, ToLower(ids[i]))
    ensures AnswersShown(after, trace)
  {
    hide SomeShows, Once, IsSubsequence, InstallIDs, ToLower, Resolves;
    forall j, k | 0 <= j < |trace| && 0 <= k < |trace| && trace[j].Downloaded? && trace[k].InstallCall? &&
                  Once(Lowered(trace[j].ids), ToLower(trace[k].id))
      ensures SomeShows(after, trace, k)
    {
      EarlierIsOther(trace, ids, i, k);
      SomeShowsLater(before, after, trace, trace, k);
    }
  }

  /** Installing the i-th update shows in its item and leaves the others as they were. */
  lemma {:induction false} InstalledIsShown(before: seq<Item>, after: seq<Item>, h: nat, ids: seq<string>,
                                            i: nat, trace: seq<Event>, later: seq<Event>)
    requires AnswersShown(before, trace) && OnlyAt(before, after, h) && trace < later
    requires forall j :: 0 <= j < |trace| && trace[j].Downloaded? ==> trace[j].ids == ids
    requires i < |ids| && IsSubsequence(InstallIDs(trace), ids[..i]) && KeyOf(before[h]) == (Wua, ToLower(ids[i]))
    requires later[|trace|].InstallCall? && later[|trace|].id == ids[i]
    requires forall m :: |trace| < m < |later| ==> later[m].StatusCall? && later[m].id == ids[i]
    requires InstallShown(after[h], later, |trace|)
    ensures AnswersShown(after, later)
  {
    hide SomeShows, Once, IsSubsequence, InstallIDs, InstallShown, ToLower;
    forall j, k | 0 <= j < |later| && 0 <= k < |later| && later[j].Downloaded? && later[k].InstallCall? &&
                  Once(Lowered(later[j].ids), ToLower(later[k].id))
      ensures SomeShows(after, later, k)
    {
      assert later[j] == trace[j];
      if k == |trace| {
        ShowsAt(after, later, k, h);
      } else {
        assert later[k] == trace[k];
        EarlierIsOther(trace, ids, i, k);
        SomeShowsLater(before, after, trace, later, k);
      }
    }
  }

  lemma ShowsAt(items: seq<Item>, trace: seq<Event>, k: nat, h: nat)
    requires k < |trace| && trace[k].InstallCall? && h < |items|
    requires KeyOf(items[h]) == (Wua, ToLower(trace[k].id)) && InstallShown(items[h], trace, k)
    ensures SomeShows(items, trace, k)
  {
  }

  /** Events that are no matter of the updates change nothing about their installs. */
  lemma AttemptsStayKnown(items: seq<Item>, trace: seq<Event>, later: seq<Event>)
    requires AttemptsKnown(items, trace) && trace <= later
    requires forall m :: |trace| <= m < |later| ==> NoUpdateEvent(later[m])
    ensures AttemptsKnown(items, later)
  {
    hide AnswersShown;
    AnswersStayShown(items, items, trace, later);
    assert NoInstallIn(trace) <==> NoInstallIn(later) by {
      assert forall m :: 0 <= m < |trace| ==> later[m] == trace[m];
    }
  }

  // ----- restarts

  /** The answer leaves the update waiting for a restart. */
  predicate NeedsRestart(a: InstallAnswer) {
    a.Done? && a.result.found && !a.result.alreadyInstalled &&
    (a.result.pendingReboot || (a.result.resultCode in {2, 3} && a.result.rebootRequired))
  }

  /** Of the updates whose install was answered, those that wait for a restart are noted,
      and no others that were not before. */
  ghost predicate RestartsKnown(before: set<string>, after: set<string>, trace: seq<Event>) {
    before <= after &&
    forall j, k :: 0 <= j < |trace| && 0 <= k < |trace| && trace[j].Downloaded? && trace[k].InstallCall? &&
                   trace[k].install.Done? && Once(Lowered(trace[j].ids), ToLower(trace[k].id)) ==>
      (ToLower(trace[k].id) in after <==> ToLower(trace[k].id) in before || NeedsRestart(trace[k].install))
  }

  lemma {:induction false} ShownRestarts(items: seq<Item>, byKey: map<ItemKey, nat>, trace: seq<Event>,
                                         before: set<string>)
    requires TableValid(items, byKey) && AnswersShown(items, trace)
    requires forall i :: 0 <= i < |items| && items[i].kind == Wua ==> ToLower(items[i].id) == items[i].id
    ensures RestartsKnown(before, before + RestartIDs(items), trace)
  {
    hide SomeShows, Once, TableValid, RestartIDs, NeedsRestart;
    forall k | 0 <= k < |trace| && trace[k].InstallCall? && trace[k].install.Done? && SomeShows(items, trace, k)
      ensures ToLower(trace[k].id) in RestartIDs(items) <==> NeedsRestart(trace[k].install)
    {
      ShownRestart(items, byKey, trace, k);
    }
  }

  lemma {:induction false} ShownRestart(items: seq<Item>, byKey: map<ItemKey, nat>, trace: seq<Event>, k: nat)
    requires TableValid(items, byKey) && k < |trace| && trace[k].InstallCall? && trace[k].install.Done?
    requires SomeShows(items, trace, k)
    requires forall i :: 0 <= i < |items| && items[i].kind == Wua ==> ToLower(items[i].id) == items[i].id
    ensures ToLower(trace[k].id) in RestartIDs(items) <==> NeedsRestart(trace[k].install)
  {
    var x := ToLower(trace[k].id);
    var i :| 0 <= i < |items| && KeyOf(items[i]) == (Wua, x) && InstallShown(items[i], trace, k);
    TableHasNoDuplicates(items, byKey);
    assert forall j :: 0 <= j < |items| && items[j].kind == Wua && ToLower(items[j].id) == x ==> j == i;
    hide TableValid, Resolves, ToLower;
    assert WaitsForRestart(items[i]) <==> NeedsRestart(trace[k].install);
    if WaitsForRestart(items[i]) {
      assert ToLower(items[i].id) in RestartIDs(items);
    }
  }

  // ----- upgrades

  /** What the upgrade of an app shows in its item. */
  predicate AppShows(it: Item, e: Event)
    requires e.AppUpgraded?
  {
    KeyOf(it) == (Winget, e.id) && ExitGives(e.exit, it.status) && (e.exit != None ==> it.exitCode == e.exit)
  }

  ghost predicate SomeAppShows(items: seq<Item>, e: Event)
    requires e.AppUpgraded?
  {
    exists i :: 0 <= i < |items| && AppShows(items[i], e)
  }

  /** Each upgrade of an app that was queued once shows in the app's item. */
  ghost predicate UpgradesShown(items: seq<Item>, trace: seq<Event>, order: seq<string>) {
    forall k :: 0 <= k < |trace| && trace[k].AppUpgraded? && Once(order, trace[k].id) ==>
      SomeAppShows(items, trace[k])
  }

  /** From n on only this app is upgraded, and its item shows it. */
  ghost predicate OwnUpgrade(it: Item, trace: seq<Event>, n: nat) {
    forall m :: n <= m < |trace| && trace[m].AppUpgraded? ==> AppShows(it, trace[m])
  }

  /** Handling the k-th app shows in its item and leaves the others as they were. */
  lemma {:induction false} UpgradedIsShown(before: seq<Item>, after: seq<Item>, h: nat, order: seq<string>,
                                           k: nat, trace: seq<Event>, later: seq<Event>)
    requires UpgradesShown(before, trace, order) && OnlyAt(before, after, h) && trace <= later
    requires k < |order| && KeyOf(before[h]) == (Winget, order[k]) && IsSubsequence(UpgradeIDs(trace), order[..k])
    requires OwnUpgrade(after[h], later, |trace|)
    ensures UpgradesShown(after, later, order)
  {
    hide IsSubsequence, UpgradeIDs, ExitGives;
    forall m | 0 <= m < |later| && later[m].AppUpgraded? && Once(order, later[m].id)
      ensures SomeAppShows(after, later[m])
    {
      if m < |trace| {
        assert later[m] == trace[m];
        UpgradeIn(trace, m);
        SubsequenceMembers(UpgradeIDs(trace), order[..k]);
        var p :| 0 <= p < k && order[..k][p] == trace[m].id;
        assert order[p] != order[k];
        var i :| 0 <= i < |before| && AppShows(before[i], trace[m]);
        assert AppShows(after[i], later[m]);
      } else {
        assert AppShows(after[h], later[m]);
      }
    }
  }

  /** Each upgrade of an app shows in the app's item: of any app in a run of everything,
      else of those requested once. */
  ghost predicate UpgradesKnown(items: seq<Item>, trace: seq<Event>, req: Request) {
    forall k :: 0 <= k < |trace| && trace[k].AppUpgraded? &&
                (req.patchAll || Once(WingetIDs(req.targets), trace[k].id)) ==>
      SomeAppShows(items, trace[k])
  }

  lemma {:induction false} ShownAreKnown(items: seq<Item>, trace: seq<Event>, req: Request, order: seq<string>,
                                         listed: nat)
    requires UpgradesShown(items, trace, order)
    requires if req.patchAll
             then listed < |trace| && trace[listed].AppsListed? && order == AppIDs(trace[listed].apps)
             else order == WingetIDs(req.targets)
    ensures UpgradesKnown(items, trace, req)
  {
    if req.patchAll {
      AppIDsCoverOnce(trace[listed].apps);
      hide SomeAppShows, AppIDs;
      forall k | 0 <= k < |trace| && trace[k].AppUpgraded? ensures SomeAppShows(items, trace[k]) {
        assert Once(order, trace[k].id) by { FoldedOnce(order, trace[k].id); }
      }
    }
  }

  lemma FoldedOnce(ids: seq<string>, id: string)
    requires forall i, j :: 0 <= i < j < |ids| ==> ToLower(ids[i]) != ToLower(ids[j])
    ensures Once(ids, id)
  {
  }

  lemma {:induction false} KnownStayKnown(items: seq<Item>, trace: seq<Event>, e: Event, req: Request)
    requires UpgradesKnown(items, trace, req) && !e.AppUpgraded?
    ensures UpgradesKnown(items, trace + [e], req)
  {
    hide SomeAppShows, Once, WingetIDs;
    assert forall k :: 0 <= k < |trace| ==> (trace + [e])[k] == trace[k];
  }

  // ----- what a completed run tells

  /** The install at k did what it should, or Windows finished it later. */
  ghost predicate WentWell(trace: seq<Event>, k: nat)
    requires k < |trace| && trace[k].InstallCall?
  {
    match trace[k].install
    case Done(r) => WasTried(r) ==> r.resultCode in {2, 3}
    case Errored(_) => false
    case TimedOut => exists m :: k < m < |trace| && Resolves(trace[m], trace[k].id)
  }

  ghost predicate InstallsWentWell(trace: seq<Event>) {
    forall j, k :: 0 <= j < |trace| && 0 <= k < |trace| && trace[j].Downloaded? && trace[k].InstallCall? &&
                   Once(Lowered(trace[j].ids), ToLower(trace[k].id)) ==>
      WentWell(trace, k)
  }

  ghost predicate UpgradesWentWell(trace: seq<Event>, req: Request) {
    forall k :: 0 <= k < |trace| && trace[k].AppUpgraded? &&
                (req.patchAll || Once(WingetIDs(req.targets), trace[k].id)) ==>
      match trace[k].exit
      case None => false
      case Some(code) => UpgradedExit(code) || NothingToDoExit(code) || PinnedExit(code)
  }

  /** Without a bad item, everything that shows went well. */
  lemma {:induction false} NoneBadWentWell(items: seq<Item>, trace: seq<Event>, req: Request)
    requires AnswersShown(items, trace) && UpgradesKnown(items, trace, req)
    requires forall i :: 0 <= i < |items| ==> !IsBad(items[i])
    ensures InstallsWentWell(trace) && UpgradesWentWell(trace, req)
  {
    hide Once, Resolves, WasTried, UpgradedExit, NothingToDoExit, PinnedExit, WingetIDs;
    forall k | 0 <= k < |trace| && trace[k].InstallCall? && SomeShows(items, trace, k) ensures WentWell(trace, k) {
      ShownWentWell(items, trace, k);
    }
    hide SomeShows, WentWell;
  }

  lemma ShownWentWell(items: seq<Item>, trace: seq<Event>, k: nat)
    requires k < |trace| && trace[k].InstallCall? && SomeShows(items, trace, k)
    requires forall i :: 0 <= i < |items| ==> !IsBad(items[i])
    ensures WentWell(trace, k)
  {
    hide Resolves;
  }

  /** Where each update is planned once, that is every install. */
  lemma PlannedOnceWentWell(trace: seq<Event>, k: nat)
    requires InstallsWentWell(trace) && k < |trace| && trace[k].InstallCall?
    requires exists j :: 0 <= j < |trace| && trace[j].Downloaded? && Distinct(Lowered(trace[j].ids))
    ensures WentWell(trace, k)
  {
    hide WentWell;
  }

  lemma NoInstallsShown(items: seq<Item>, trace: seq<Event>)
    requires NoInstallIn(trace)
    ensures AnswersShown(items, trace)
  {
  }

  /** What is marked and shown of the installs of a trace. */
  ghost predicate AttemptsKnown(items: seq<Item>, trace: seq<Event>) {
    AttemptsMarked(items, trace) && AnswersShown(items, trace)
  }

  lemma NoneStartedMarked(items: seq<Item>, trace: seq<Event>)
    requires NoneStarted(items) && NoInstallIn(trace)
    ensures AttemptsKnown(items, trace)
  {
  }
}
