/** The pure half of a Windows patch run (windows_patch_logic.go): requests, the choice
    and order of updates, how backend answers become item states, and the final stage. */
module WindowsPatch {
  import opened Options
  import opened Keys
  import opened Text
  import Stable = StableSort

  // ----- requests

  /** A target's kind as the server names it. */
  datatype Kind = Wua | Winget | Unknown(name: string)

  datatype Target = Target(kind: Kind, id: string)

  datatype Request = Request(patchAll: bool, dryRun: bool, includeUpdates: bool, includeApps: bool,
                             targets: seq<Target>)

  datatype RequestError = NothingIncluded | NoValidTargets

  /** Eight, four, four, four and twelve hex digits between dashes. */
  predicate IsGuid(id: string) {
    |id| == 36 &&
    forall i :: 0 <= i < 36 ==> if i in {8, 13, 18, 23} then id[i] == '-' else IsHexDigit(id[i])
  }

  predicate IsWingetIdChar(c: char) { IsLetter(c) || IsDigit(c) || c in "._+-" }

  predicate IsWingetId(id: string) {
    1 <= |id| <= 128 && (IsLetter(id[0]) || IsDigit(id[0])) &&
    forall i :: 0 <= i < |id| ==> IsWingetIdChar(id[i])
  }

  predicate ValidTarget(t: Target) {
    match t.kind
    case Wua => IsGuid(t.id)
    case Winget => IsWingetId(t.id)
    case Unknown(_) => false
  }

  /** Two targets with one key name the same update or app. */
  function TargetKey(t: Target): (Kind, string) { (t.kind, ToLower(t.id)) }

  function Normalised(t: Target): Target {
    if t.kind == Wua then t.(id := ToLower(t.id)) else t
  }

  /** The accepted targets: valid ones, normalised, the first of each key. */
  function Accepted(targets: seq<Target>): seq<Target> {
    if targets == [] then []
    else
      var before, t := Accepted(targets[..|targets| - 1]), targets[|targets| - 1];
      if ValidTarget(t) && TargetKey(t) !in TargetKeys(before) then before + [Normalised(t)] else before
  }

  function TargetKeys(targets: seq<Target>): set<(Kind, string)> { set t | t in targets :: TargetKey(t) }

  function Rejected(targets: seq<Target>): seq<Target> {
    if targets == [] then []
    else
      Rejected(targets[..|targets| - 1]) +
      if ValidTarget(targets[|targets| - 1]) then [] else [targets[|targets| - 1]]
  }

  method NewWindowsPatchRequest(patchAll: bool, dryRun: bool, targets: seq<Target>,
                                includeUpdates: Option<bool>, includeApps: Option<bool>)
    returns (req: Request, rejected: seq<Target>, err: Option<RequestError>)
    ensures req.patchAll == patchAll && req.dryRun == dryRun
    ensures req.includeUpdates == (includeUpdates == None || includeUpdates.value)
    ensures req.includeApps == (includeApps == None || includeApps.value)
    ensures req.targets == (if patchAll then [] else Accepted(targets))
    ensures Deduplicated(req.targets)
    ensures rejected == (if patchAll then [] else Rejected(targets))
    ensures err == if patchAll then
                     (if req.includeUpdates || req.includeApps then None else Some(NothingIncluded))
                   else (if req.targets == [] then Some(NoValidTargets) else None)
  {
    AcceptedIsDeduplication(targets);
    hide ValidTarget, Deduplicated;
    NoTargetsAreDistinct();
    req := Request(patchAll, dryRun, includeUpdates == None || includeUpdates.value,
                   includeApps == None || includeApps.value, []);
    rejected := [];
    if patchAll {
      if !req.includeUpdates && !req.includeApps {
        return req, [], Some(NothingIncluded);
      }
      return req, [], None;
    }
    var seen: set<(Kind, string)> := {};
    for k := 0 to |targets|
      invariant req == Request(patchAll, dryRun, req.includeUpdates, req.includeApps, Accepted(targets[..k]))
      invariant req.includeUpdates == (includeUpdates == None || includeUpdates.value)
      invariant req.includeApps == (includeApps == None || includeApps.value)
      invariant rejected == Rejected(targets[..k])
      invariant seen == TargetKeys(Accepted(targets[..k]))
    {
      assert targets[..k + 1][..k] == targets[..k];
      var t := targets[k];
      if !ValidTarget(t) {
        rejected := rejected + [t];
        continue;
      }
      KeyOfNormalised(t);
      t := Normalised(t);
      var key := TargetKey(t);
      if key in seen {
        continue;
      }
      KeysAppend(req.targets, t);
      seen := seen + {key};
      req := req.(targets := req.targets + [t]);
    }
    assert targets[..|targets|] == targets;
    if |req.targets| == 0 {
      return req, rejected, Some(NoValidTargets);
    }
    return req, rejected, None;
  }

  lemma NoTargetsAreDistinct()
    ensures Deduplicated([])
  {
  }

  lemma KeyOfNormalised(t: Target)
    ensures TargetKey(Normalised(t)) == TargetKey(t)
  {
    ToLowerIdempotent(t.id);
  }

  lemma KeysAppend(ts: seq<Target>, t: Target)
    ensures TargetKeys(ts + [t]) == TargetKeys(ts) + {TargetKey(t)}
  {
    assert forall u :: u in ts + [t] <==> u in ts || u == t;
  }

  /** Each target is valid, Windows Update IDs are lower case, no key occurs twice. */
  ghost predicate Deduplicated(targets: seq<Target>) {
    && (forall i :: 0 <= i < |targets| ==> ValidTarget(targets[i]) && Normalised(targets[i]) == targets[i])
    && (forall i, j :: 0 <= i < j < |targets| ==> TargetKey(targets[i]) != TargetKey(targets[j]))
  }

  lemma NormalisedValid(t: Target)
    requires ValidTarget(t)
    ensures ValidTarget(Normalised(t)) && Normalised(Normalised(t)) == Normalised(t)
  {
    ToLowerIdempotent(t.id);
    if t.kind == Wua {
      forall i | 0 <= i < 36
        ensures if i in {8, 13, 18, 23} then ToLower(t.id)[i] == '-' else IsHexDigit(ToLower(t.id)[i])
      {
        assert if i in {8, 13, 18, 23} then t.id[i] == '-' else IsHexDigit(t.id[i]);
      }
    }
  }

  /** What a request accepts: deduplicated, and the keys of the valid targets exactly. */
  lemma {:induction false} AcceptedIsDeduplication(targets: seq<Target>)
    ensures Deduplicated(Accepted(targets))
    ensures TargetKeys(Accepted(targets)) == set t | t in targets && ValidTarget(t) :: TargetKey(t)
  {
    if targets != [] {
      var init, t := targets[..|targets| - 1], targets[|targets| - 1];
      AcceptedIsDeduplication(init);
      assert targets == init + [t];
      hide ValidTarget;
      var before := Accepted(init);
      if ValidTarget(t) && TargetKey(t) !in TargetKeys(before) {
        NormalisedValid(t);
        KeyOfNormalised(t);
        KeysAppend(before, Normalised(t));
      }
    }
  }

  /** A valid target, the first with its kind and ID, letter case aside. */
  predicate IsFirstValid(targets: seq<Target>, i: nat)
    requires i < |targets|
  {
    ValidTarget(targets[i]) &&
    forall j :: 0 <= j < i && ValidTarget(targets[j]) ==>
      targets[j].kind != targets[i].kind || ToLower(targets[j].id) != ToLower(targets[i].id)
  }

  /** x is the target as it is requested: an update's ID in lower case, an app's as it is. */
  predicate IsRequestOf(x: Target, t: Target) {
    x.kind == t.kind && x.id == if t.kind == Wua then ToLower(t.id) else t.id
  }

  /** The accepted targets are the first valid ones at these positions, in their order. */
  ghost predicate ArePositions(targets: seq<Target>, accepted: seq<Target>, at: seq<nat>) {
    && |at| == |accepted| && (forall k :: 0 <= k < |at| ==> at[k] < |targets|)
    && (forall k :: 0 <= k < |at| ==> IsFirstValid(targets, at[k]) && IsRequestOf(accepted[k], targets[at[k]]))
    && (forall j, k :: 0 <= j < k < |at| ==> at[j] < at[k])
    && forall i :: 0 <= i < |targets| && IsFirstValid(targets, i) ==> i in at
  }

  /** The accepted targets are the first valid ones, in their order. */
  lemma {:induction false} AcceptedAreFirst(targets: seq<Target>) returns (at: seq<nat>)
    ensures ArePositions(targets, Accepted(targets), at)
  {
    if targets == [] {
      at := [];
    } else {
      var init, t := targets[..|targets| - 1], targets[|targets| - 1];
      at := AcceptedAreFirst(init);
      AcceptedIsDeduplication(init);
      AcceptedNext(targets);
      assert targets == init + [t];
      KeysOfValid(init, t);
      hide ValidTarget, Deduplicated, Accepted, IsFirstValid, TargetKeys, Normalised, ArePositions;
      PositionsGrow(init, t, Accepted(init), at);
      if IsFirstValid(init + [t], |init|) {
        at := at + [|init|];
      }
    }
  }

  lemma {:induction false} PositionsGrow(init: seq<Target>, t: Target, accepted: seq<Target>, at: seq<nat>)
    requires ArePositions(init, accepted, at)
    ensures if IsFirstValid(init + [t], |init|)
            then ArePositions(init + [t], accepted + [Normalised(t)], at + [|init|])
            else ArePositions(init + [t], accepted, at)
  {
    NormalisedIsRequest(t);
    FirstStaysFirst(init, t);
    hide IsFirstValid, IsRequestOf, Normalised;
    var all, more := init + [t], at + [|init|];
    assert forall i :: 0 <= i < |init| ==> all[i] == init[i];
    assert forall k :: 0 <= k < |at| ==> more[k] == at[k];
    assert forall i :: i in at ==> i in more;
    assert |init| in more;
  }

  lemma NormalisedIsRequest(t: Target)
    ensures IsRequestOf(Normalised(t), t)
  {
  }

  lemma {:induction false} FirstStaysFirst(init: seq<Target>, t: Target)
    ensures forall i :: 0 <= i < |init| ==> (IsFirstValid(init + [t], i) <==> IsFirstValid(init, i))
  {
    hide ValidTarget, ToLower;
    assert forall i :: 0 <= i < |init| ==> (init + [t])[i] == init[i];
  }

  lemma AcceptedNext(targets: seq<Target>)
    requires targets != []
    ensures var before, t := Accepted(targets[..|targets| - 1]), targets[|targets| - 1];
            Accepted(targets) ==
            if ValidTarget(t) && TargetKey(t) !in TargetKeys(before) then before + [Normalised(t)] else before
  {
    hide ValidTarget;
  }

  lemma KeysOfValid(init: seq<Target>, t: Target)
    requires TargetKeys(Accepted(init)) == set u | u in init && ValidTarget(u) :: TargetKey(u)
    ensures ValidTarget(t) && TargetKey(t) !in TargetKeys(Accepted(init)) <==>
            IsFirstValid(init + [t], |init|)
  {
    hide ValidTarget, Accepted, TargetKeys;
    var all := init + [t];
    if TargetKey(t) in TargetKeys(Accepted(init)) {
      var u :| u in init && ValidTarget(u) && TargetKey(u) == TargetKey(t);
      var j :| 0 <= j < |init| && init[j] == u;
      assert all[j] == u;
    } else {
      forall j | 0 <= j < |init| && ValidTarget(all[j]) ensures TargetKey(all[j]) != TargetKey(t) {
        assert all[j] == init[j] && init[j] in init;
        assert TargetKey(all[j]) in TargetKeys(Accepted(init));
      }
    }
  }

  /** An app's ID is a letter or digit and up to 127 of these, dots, underscores, plus signs
      and dashes. */
  lemma {:induction false} WingetIdMeans(first: char, rest: string)
    ensures IsWingetId([first] + rest) <==>
              (IsLetter(first) || IsDigit(first)) && |rest| <= 127 &&
              forall i :: 0 <= i < |rest| ==> IsLetter(rest[i]) || IsDigit(rest[i]) || rest[i] in "._+-"
    ensures !IsWingetId("")
  {
    var id := [first] + rest;
    assert forall i :: 0 <= i < |rest| ==> id[i + 1] == rest[i];
    if IsWingetId(id) {
      forall i | 0 <= i < |rest| ensures IsWingetIdChar(rest[i]) {
        assert IsWingetIdChar(id[i + 1]);
      }
    }
  }

  /** An update's ID is a GUID: groups of 8, 4, 4, 4 and 12 hex digits. */
  lemma {:induction false} GuidMeans(id: string)
    ensures IsGuid(id) <==>
            exists a, b, c, d, e: string ::
              && |a| == 8 && |b| == 4 && |c| == 4 && |d| == 4 && |e| == 12
              && id == a + "-" + b + "-" + c + "-" + d + "-" + e
              && forall i :: 0 <= i < 32 ==> IsHexDigit((a + b + c + d + e)[i])
  {
    if IsGuid(id) {
      GuidHasGroups(id);
    }
    forall a, b, c, d, e: string |
      && |a| == 8 && |b| == 4 && |c| == 4 && |d| == 4 && |e| == 12
      && id == a + "-" + b + "-" + c + "-" + d + "-" + e
      && forall i :: 0 <= i < 32 ==> IsHexDigit((a + b + c + d + e)[i])
      ensures IsGuid(id)
    {
      GroupsAreGuid(a, b, c, d, e);
    }
  }

  lemma {:induction false} GuidHasGroups(id: string)
    requires IsGuid(id)
    ensures var a, b, c, d, e := id[..8], id[9..13], id[14..18], id[19..23], id[24..];
            id == a + "-" + b + "-" + c + "-" + d + "-" + e &&
            forall i :: 0 <= i < 32 ==> IsHexDigit((a + b + c + d + e)[i])
  {
    assert id[8] == '-' && id[13] == '-' && id[18] == '-' && id[23] == '-';
    hide IsHexDigit;
  }

  lemma {:induction false} GroupsAreGuid(a: string, b: string, c: string, d: string, e: string)
    requires |a| == 8 && |b| == 4 && |c| == 4 && |d| == 4 && |e| == 12
    requires forall i :: 0 <= i < 32 ==> IsHexDigit((a + b + c + d + e)[i])
    ensures IsGuid(a + "-" + b + "-" + c + "-" + d + "-" + e)
  {
    hide IsHexDigit;
    var s, h := a + "-" + b + "-" + c + "-" + d + "-" + e, a + b + c + d + e;
    assert forall i :: 0 <= i < 8 ==> s[i] == h[i];
    assert forall i :: 8 <= i < 12 ==> s[i + 1] == h[i];
    assert forall i :: 12 <= i < 16 ==> s[i + 2] == h[i];
    assert forall i :: 16 <= i < 20 ==> s[i + 3] == h[i];
    assert forall i :: 20 <= i < 32 ==> s[i + 4] == h[i];
    forall i | 0 <= i < 36 ensures if i in {8, 13, 18, 23} then s[i] == '-' else IsHexDigit(s[i]) {
      if i !in {8, 13, 18, 23} {
        var k := if i < 8 then i else if i < 13 then i - 1 else if i < 18 then i - 2
                 else if i < 23 then i - 3 else i - 4;
        assert s[i] == h[k] && IsHexDigit(h[k]);
      }
    }
  }

  // ----- updates

  datatype Update = Update(id: string, revision: int, title: string, kbs: seq<string>,
                           categories: seq<string>, categoryIDs: seq<string>, updateType: int,
                           browseOnly: bool, rebootBehavior: int, canRequestUserInput: bool,
                           pendingReboot: bool)

  datatype Scan = Scan(updates: seq<Update>, rebootRequiredBeforeInstall: bool)

  const CATEGORY_SECURITY := "0fa1201d-4330-4fa8-8ae9-b877473b6441"
  const CATEGORY_CRITICAL := "e6cf1350-c01b-414d-a61f-263d14d133b4"
  const CATEGORY_UPGRADES := "3689bdc8-b205-4af4-8d4a-a63924c5e9d5"
  const TYPE_DRIVER := 2

  predicate EqualFold(a: string, b: string) { ToLower(a) == ToLower(b) }

  predicate AnyEqualFold(ss: seq<string>, x: string) {
    exists i :: 0 <= i < |ss| && EqualFold(ss[i], x)
  }

  predicate IsFeatureUpgrade(u: Update) {
    AnyEqualFold(u.categoryIDs, CATEGORY_UPGRADES) || AnyEqualFold(u.categories, "Upgrades")
  }

  predicate IsSecurityOrCritical(u: Update) {
    AnyEqualFold(u.categoryIDs, CATEGORY_SECURITY) || AnyEqualFold(u.categoryIDs, CATEGORY_CRITICAL)
  }

  predicate PatchAllEligible(u: Update) {
    u.updateType != TYPE_DRIVER && !u.browseOnly && !IsFeatureUpgrade(u)
  }

  // ----- items

  datatype Status = Pending | WouldInstall | NotApplicable | Installed | AlreadyInstalled
                  | InstalledPendingReboot | InstalledWithErrors | Failed | Aborted | Skipped

  /** The messages that decide something later; all other texts are Detail. */
  datatype Message = NoMessage | StoppedByUser | TimeLimit | StillInstalling | RestartFirst
                   | PendingRestart | Interactive | NoLongerOffered | StoreApp | Pinned | Detail

  datatype Item = Item(kind: Kind, id: string, revision: int, title: string, kb: string,
                       status: Status, message: Message, resultCode: Option<int>, hresult: string,
                       exitCode: Option<int>, rebootRequired: bool, started: bool, completed: bool)

  /** Nothing is known of a new item but what it is and how it stands. */
  function NewItem(kind: Kind, id: string, status: Status, message: Message): (it: Item)
    ensures it.title == it.kb == it.hresult == "" && it.revision == 0 && it.resultCode == it.exitCode == None
    ensures !it.rebootRequired && !it.started && !it.completed
  {
    Item(kind, id, 0, "", "", status, message, None, "", None, false, false, false)
  }

  function JoinKBs(kbs: seq<string>): string {
    if kbs == [] then "" else if |kbs| == 1 then kbs[0] else kbs[0] + ", " + JoinKBs(kbs[1..])
  }

  function WuaItem(u: Update, status: Status, message: Message): Item {
    NewItem(Wua, ToLower(u.id), status, message)
      .(revision := u.revision, title := u.title, kb := JoinKBs(u.kbs))
  }

  // ----- selection

  /** The last offered update with an ID, letter case aside. */
  function Offered(updates: seq<Update>, id: string): Option<Update> {
    if updates == [] then None
    else if ToLower(updates[|updates| - 1].id) == ToLower(id) then Some(updates[|updates| - 1])
    else Offered(updates[..|updates| - 1], id)
  }

  /** The updates a run is about: all eligible ones, or the targets still offered. */
  function Chosen(scan: Scan, patchAll: bool, ids: seq<string>): seq<Update> {
    if patchAll then Eligible(scan.updates) else OfferedOf(scan.updates, ids)
  }

  function Eligible(updates: seq<Update>): seq<Update> {
    if updates == [] then []
    else
      var u := updates[|updates| - 1];
      Eligible(updates[..|updates| - 1]) + if PatchAllEligible(u) && IsGuid(u.id) then [u] else []
  }

  function OfferedOf(updates: seq<Update>, ids: seq<string>): seq<Update> {
    if ids == [] then []
    else
      OfferedOf(updates, ids[..|ids| - 1]) +
      match Offered(updates, ids[|ids| - 1]) case Some(u) => [u] case None => []
  }

  function NotOfferedItems(updates: seq<Update>, ids: seq<string>): seq<Item> {
    if ids == [] then []
    else
      NotOfferedItems(updates, ids[..|ids| - 1]) +
      match Offered(updates, ids[|ids| - 1])
      case Some(_) => []
      case None => [NewItem(Wua, ToLower(ids[|ids| - 1]), NotApplicable, NoLongerOffered)]
  }

  /** Why a chosen update is not installed now, if it is not. */
  function Verdict(u: Update, rebootFirst: bool): Option<Item> {
    if u.pendingReboot then Some(WuaItem(u, InstalledPendingReboot, PendingRestart).(rebootRequired := true))
    else if u.canRequestUserInput then Some(WuaItem(u, Skipped, Interactive))
    else if rebootFirst then Some(WuaItem(u, Skipped, RestartFirst))
    else None
  }

  function Verdicts(chosen: seq<Update>, rebootFirst: bool): seq<Item> {
    if chosen == [] then []
    else
      Verdicts(chosen[..|chosen| - 1], rebootFirst) +
      match Verdict(chosen[|chosen| - 1], rebootFirst) case Some(it) => [it] case None => []
  }

  function Installable(chosen: seq<Update>, rebootFirst: bool): seq<Update> {
    if chosen == [] then []
    else
      Installable(chosen[..|chosen| - 1], rebootFirst) +
      if Verdict(chosen[|chosen| - 1], rebootFirst) == None then [chosen[|chosen| - 1]] else []
  }

  /** Security and critical updates first, then by title. */
  function InstallKey(u: Update): Key {
    [[if IsSecurityOrCritical(u) then 0 else 1], Codes(ToLower(u.title))]
  }

  function Rows(updates: seq<Update>): (r: seq<Stable.Row<Update>>)
    ensures |r| == |updates|
    ensures forall i :: 0 <= i < |r| ==> r[i] == Stable.Row(InstallKey(updates[i]), updates[i])
  {
    seq(|updates|, i requires 0 <= i < |updates| => Stable.Row(InstallKey(updates[i]), updates[i]))
  }

  function OrderForInstall(updates: seq<Update>): seq<Update> {
    Stable.Values(Stable.Sort(Rows(updates)))
  }

  function Itself(u: Update): Update { u }

  /** Nothing is lost or added, security goes first, and titles ascend within a class. */
  lemma OrderForInstallSorts(updates: seq<Update>)
    ensures multiset(OrderForInstall(updates)) == multiset(updates)
    ensures var o := OrderForInstall(updates);
            forall i, j :: 0 <= i < j < |o| ==>
              (IsSecurityOrCritical(o[j]) ==> IsSecurityOrCritical(o[i])) &&
              (IsSecurityOrCritical(o[j]) == IsSecurityOrCritical(o[i]) ==>
                 CompareStrings(ToLower(o[i].title), ToLower(o[j].title)) <= 0)
  {
    hide IsSecurityOrCritical, Stable.Sort;
    Stable.SortSorts(Rows(updates));
    Stable.SortKeepsImage(Rows(updates), Itself);
    assert Stable.Image(Rows(updates), Itself) == updates;
    assert Stable.Image(Stable.Sort(Rows(updates)), Itself) == OrderForInstall(updates);
    var s, o := Stable.Sort(Rows(updates)), OrderForInstall(updates);
    assert forall i :: 0 <= i < |s| ==> s[i].key == InstallKey(s[i].value) by {
      forall i | 0 <= i < |s| ensures s[i].key == InstallKey(s[i].value) {
        assert s[i] in multiset(s);
        assert s[i] in Rows(updates);
      }
    }
    forall i, j | 0 <= i < j < |o|
      ensures (IsSecurityOrCritical(o[j]) ==> IsSecurityOrCritical(o[i])) &&
              (IsSecurityOrCritical(o[j]) == IsSecurityOrCritical(o[i]) ==>
                 CompareStrings(ToLower(o[i].title), ToLower(o[j].title)) <= 0)
    {
      InstallKeysCompare(o[i], o[j]);
      assert CompareKeys(s[i].key, s[j].key) <= 0;
    }
  }

  lemma InstallKeysCompare(u: Update, v: Update)
    ensures CompareKeys(InstallKey(u), InstallKey(v)) ==
            if IsSecurityOrCritical(u) != IsSecurityOrCritical(v) then (if IsSecurityOrCritical(u) then -1 else 1)
            else CompareStrings(ToLower(u.title), ToLower(v.title))
  {
    hide IsSecurityOrCritical;
    var x, y := if IsSecurityOrCritical(u) then 0 else 1, if IsSecurityOrCritical(v) then 0 else 1;
    var t, w := Codes(ToLower(u.title)), Codes(ToLower(v.title));
    CompareKeysHead([x], [y], [t], [w]);
    CompareKeysHead(t, w, [], []);
    assert [t] + [] == [t] && [w] + [] == [w];
    assert InstallKey(u) == [[x]] + [t] && InstallKey(v) == [[y]] + [w];
    SeqsAntisymmetric(t, w);
    assert CompareSeqs([x], [y]) == CompareInts(x, y);
  }

  /** selectWUAUpdates: what to install, in order, and what is decided already. */
  function Selection(scan: Scan, patchAll: bool, ids: seq<string>): (seq<Update>, seq<Item>) {
    var chosen := Chosen(scan, patchAll, ids);
    (OrderForInstall(Installable(chosen, scan.rebootRequiredBeforeInstall)),
     (if patchAll then [] else NotOfferedItems(scan.updates, ids)) +
     Verdicts(chosen, scan.rebootRequiredBeforeInstall))
  }

  method SelectWUAUpdates(scan: Scan, patchAll: bool, ids: seq<string>)
    returns (install: seq<Update>, decided: seq<Item>)
    ensures (install, decided) == Selection(scan, patchAll, ids)
  {
    hide Eligible, OfferedOf, NotOfferedItems, OrderForInstall, Verdicts, Installable;
    var chosen;
    if patchAll {
      chosen := ChooseEligible(scan.updates);
      decided := [];
    } else {
      chosen, decided := ChooseOffered(scan.updates, ids);
    }
    var verdicts;
    install, verdicts := Decide(chosen, scan.rebootRequiredBeforeInstall);
    decided := decided + verdicts;
    install := OrderForInstall(install);
  }

  method Decide(chosen: seq<Update>, rebootFirst: bool) returns (install: seq<Update>, decided: seq<Item>)
    ensures install == Installable(chosen, rebootFirst) && decided == Verdicts(chosen, rebootFirst)
  {
    hide WuaItem;
    install, decided := [], [];
    for k := 0 to |chosen|
      invariant decided == Verdicts(chosen[..k], rebootFirst)
      invariant install == Installable(chosen[..k], rebootFirst)
    {
      assert chosen[..k + 1][..k] == chosen[..k];
      var u := chosen[k];
      if u.pendingReboot {
        decided := decided + [WuaItem(u, InstalledPendingReboot, PendingRestart).(rebootRequired := true)];
      } else if u.canRequestUserInput {
        decided := decided + [WuaItem(u, Skipped, Interactive)];
      } else if rebootFirst {
        decided := decided + [WuaItem(u, Skipped, RestartFirst)];
      } else {
        install := install + [u];
      }
    }
    assert chosen[..|chosen|] == chosen;
  }

  method ChooseEligible(updates: seq<Update>) returns (chosen: seq<Update>)
    ensures chosen == Eligible(updates)
  {
    hide PatchAllEligible, IsGuid;
    chosen := [];
    for k := 0 to |updates|
      invariant chosen == Eligible(updates[..k])
    {
      assert updates[..k + 1][..k] == updates[..k];
      if PatchAllEligible(updates[k]) && IsGuid(updates[k].id) {
        chosen := chosen + [updates[k]];
      }
    }
    assert updates[..|updates|] == updates;
  }

  /** The offered updates by folded ID; a later update replaces an earlier one. */
  method IndexByID(updates: seq<Update>) returns (byID: map<string, Update>)
    ensures forall id :: ToLower(id) in byID <==> Offered(updates, id).Some?
    ensures forall id :: ToLower(id) in byID ==> Offered(updates, id) == Some(byID[ToLower(id)])
  {
    byID := map[];
    for k := 0 to |updates|
      invariant forall id :: ToLower(id) in byID <==> Offered(updates[..k], id).Some?
      invariant forall id :: ToLower(id) in byID ==> Offered(updates[..k], id) == Some(byID[ToLower(id)])
    {
      assert updates[..k + 1][..k] == updates[..k];
      byID := byID[ToLower(updates[k].id) := updates[k]];
    }
    assert updates[..|updates|] == updates;
  }

  method ChooseOffered(updates: seq<Update>, ids: seq<string>)
    returns (chosen: seq<Update>, decided: seq<Item>)
    ensures chosen == OfferedOf(updates, ids) && decided == NotOfferedItems(updates, ids)
  {
    hide Offered, ToLower;
    var byID := IndexByID(updates);
    chosen, decided := [], [];
    for k := 0 to |ids|
      invariant chosen == OfferedOf(updates, ids[..k])
      invariant decided == NotOfferedItems(updates, ids[..k])
    {
      assert ids[..k + 1][..k] == ids[..k];
      if ToLower(ids[k]) !in byID {
        decided := decided + [NewItem(Wua, ToLower(ids[k]), NotApplicable, NoLongerOffered)];
        continue;
      }
      chosen := chosen + [byID[ToLower(ids[k])]];
    }
    assert ids[..|ids|] == ids;
  }

  // ----- backend answers

  datatype OpResult = OpResult(found: bool, alreadyInstalled: bool, pendingReboot: bool,
                               resultCode: int, hresult: string, rebootRequired: bool)

  /** An error of the Windows Update backend; only the script's own carries a code. */
  datatype WuaError = ScriptError(hresult: string) | OtherError

  function ResultStatus(rc: int): Status {
    if rc == 2 then Installed else if rc == 3 then InstalledWithErrors
    else if rc == 5 then Aborted else Failed
  }

  function NormaliseHResult(h: string): string {
    var t := ToLower(TrimSpace(h));
    if t == "" then "" else if HasPrefix(t, "0x") then t else "0x" + t
  }

  lemma LowerStaysTrimmed(s: string)
    requires s != "" && !IsSpace(s[0]) && !IsSpace(s[|s| - 1])
    ensures var t := ToLower(s); !IsSpace(t[0]) && !IsSpace(t[|t| - 1])
  {
  }

  lemma TrimmedIsTrimmed(r: string)
    requires r != "" && !IsSpace(r[0]) && !IsSpace(r[|r| - 1])
    ensures TrimSpace(r) == r
  {
    PrefixLenIs(r, IsSpace, 0);
  }

  /** Normalising a result code twice is normalising it once. */
  lemma {:induction false} NormalisedHResult(h: string)
    ensures NormaliseHResult(NormaliseHResult(h)) == NormaliseHResult(h)
  {
    var s := TrimSpace(h);
    var t := ToLower(s);
    if t != "" {
      assert !IsSpace(s[0]) && !IsSpace(s[|s| - 1]);
      LowerStaysTrimmed(s);
      ToLowerIdempotent(s);
      hide TrimSpace, IsSpace;
      var r := if HasPrefix(t, "0x") then t else "0x" + t;
      assert !IsSpace(r[0]) && !IsSpace(r[|r| - 1]) by { SpacelessZero(); }
      TrimmedIsTrimmed(r);
      assert ToLower("0x" + t) == "0x" + ToLower(t);
    }
  }

  lemma SpacelessZero()
    ensures !IsSpace('0')
  {
  }

  predicate IsInstallBlocked(h: string) { NormaliseHResult(h) == "0x80240016" }

  const WINGET_REBOOT_TO_FINISH := 0x8A150109
  const WINGET_REBOOT_INITIATED := 0x8A15010B
  const WINGET_UPDATE_NOT_APPLICABLE := 0x8A15002B
  const WINGET_VERSION_NOT_NEWER := 0x8A15004F
  const WINGET_NO_PACKAGE_FOUND := 0x8A150014
  const WINGET_USER_SCOPE := 0x8A15007D
  const WINGET_PINNED := 0x8A150068

  datatype WingetOutcome = WingetOutcome(status: Status, rebootRequired: bool, message: Message)

  /** classifyWingetUpgradeExit for a real upgrade; the other codes all fail. */
  function ClassifyUpgradeExit(code: int): WingetOutcome {
    if code == 0 then WingetOutcome(Installed, false, Detail)
    else if code == WINGET_REBOOT_TO_FINISH || code == WINGET_REBOOT_INITIATED then
      WingetOutcome(Installed, true, Detail)
    else if code == WINGET_UPDATE_NOT_APPLICABLE || code == WINGET_VERSION_NOT_NEWER
            || code == WINGET_NO_PACKAGE_FOUND || code == WINGET_USER_SCOPE then
      WingetOutcome(NotApplicable, false, Detail)
    else if code == WINGET_PINNED then WingetOutcome(Skipped, false, Pinned)
    else WingetOutcome(Failed, false, Detail)
  }

  // ----- pending file renames

  /** The non-empty entries, letter case aside, with how often each occurs. */
  ghost function FoldedEntries(entries: seq<string>): multiset<string> {
    if entries == [] then multiset{}
    else
      FoldedEntries(entries[..|entries| - 1]) +
      if entries[|entries| - 1] == "" then multiset{} else multiset{ToLower(entries[|entries| - 1])}
  }

  lemma FoldedStep(entries: seq<string>, k: nat)
    requires k < |entries|
    ensures FoldedEntries(entries[..k + 1]) ==
            FoldedEntries(entries[..k]) + if entries[k] == "" then multiset{} else multiset{ToLower(entries[k])}
  {
    assert entries[..k + 1][..k] == entries[..k];
  }

  /** Each entry counts once, letter case aside; empty ones do not count. */
  lemma EntryCounts(entries: seq<string>, e: string)
    ensures FoldedEntries(entries + [e]) ==
            FoldedEntries(entries) + if e == "" then multiset{} else multiset{ToLower(e)}
    ensures FoldedEntries([]) == multiset{}
  {
    assert (entries + [e])[..|entries|] == entries;
  }

  method CountEntries(entries: seq<string>) returns (seen: multiset<string>)
    ensures seen == FoldedEntries(entries)
  {
    seen := multiset{};
    for k := 0 to |entries|
      invariant seen == FoldedEntries(entries[..k])
    {
      FoldedStep(entries, k);
      if entries[k] != "" {
        seen := seen + multiset{ToLower(entries[k])};
      }
    }
    assert entries[..|entries|] == entries;
  }

  /** Afterwards some entry occurs more often. */
  ghost predicate NewRenames(before: seq<string>, after: seq<string>) {
    !(FoldedEntries(after) <= FoldedEntries(before))
  }

  /** newPendingRenames: after holds some entry more often than before did. */
  method NewPendingRenames(before: seq<string>, after: seq<string>) returns (grown: bool)
    ensures grown <==> NewRenames(before, after)
  {
    assert after[..0] == [] && FoldedEntries([]) == multiset{};
    hide FoldedEntries, ToLower;
    var seen := CountEntries(before);
    for k := 0 to |after|
      invariant seen + FoldedEntries(after[..k]) == FoldedEntries(before)
    {
      FoldedStep(after, k);
      if after[k] == "" {
        continue;
      }
      var e := ToLower(after[k]);
      if seen[e] == 0 {
        FoldedGrows(after, k + 1);
        assert FoldedEntries(after[..k + 1])[e] == FoldedEntries(before)[e] + 1;
        return true;
      }
      seen := seen - multiset{e};
    }
    assert after[..|after|] == after;
    return false;
  }

  lemma {:induction false} FoldedGrows(entries: seq<string>, k: nat)
    requires k <= |entries|
    ensures FoldedEntries(entries[..k]) <= FoldedEntries(entries)
    decreases |entries| - k
  {
    if k < |entries| {
      assert entries[..k + 1][..k] == entries[..k];
      FoldedGrows(entries, k + 1);
    } else {
      assert entries[..k] == entries;
    }
  }

  // ----- the final stage

  datatype RunError = TimeLimitReached | SearchFailed

  datatype Stage = Cancelled | StageFailed | DryRunCompleted | Completed

  predicate IsBad(it: Item) { it.status == Failed || it.status == Aborted }

  /** The stage a run reports. */
  method FinalWindowsStage(items: seq<Item>, runErrors: seq<RunError>, stopped: bool, dryRun: bool)
    returns (stage: Stage)
    ensures stage == Cancelled <==> stopped
    ensures stage == StageFailed <==>
              !stopped && (runErrors != [] || exists i :: 0 <= i < |items| && IsBad(items[i]))
    ensures stage == DryRunCompleted ==> dryRun
    ensures stage == Completed ==> !dryRun
  {
    if stopped {
      return Cancelled;
    }
    var bad := 0;
    for k := 0 to |items|
      invariant bad >= 0
      invariant bad > 0 <==> exists i :: 0 <= i < k && IsBad(items[i])
    {
      if IsBad(items[k]) {
        bad := bad + 1;
      }
    }
    if bad > 0 || |runErrors| > 0 {
      return StageFailed;
    }
    if dryRun {
      return DryRunCompleted;
    }
    return Completed;
  }
}
