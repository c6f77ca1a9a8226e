/** What a run relies on from selectWUAUpdates: every target is decided or installed and
    nothing else is, decisions are backed by the scan, and distinct targets give a plan
    without repetitions. */
module PatchSelection {
  import opened Options
  import opened Text
  import opened WindowsPatch
  import opened PatchTrace
  import opened PatchItems
  import Stable = StableSort

  /** x is the folded ID of one of the updates. */
  ghost predicate HasID(updates: seq<Update>, x: string) {
    exists k :: 0 <= k < |updates| && ToLower(updates[k].id) == x
  }

  lemma HasIDAppend(updates: seq<Update>, u: Update, x: string)
    ensures HasID(updates + [u], x) <==> HasID(updates, x) || ToLower(u.id) == x
  {
    var v := updates + [u];
    assert v[|updates|] == u;
    assert forall k :: 0 <= k < |updates| ==> v[k] == updates[k];
  }

  lemma HasIDIsLower(updates: seq<Update>, x: string)
    ensures HasID(updates, x) <==> x in LowerIDs(updates)
  {
    if k :| 0 <= k < |updates| && ToLower(updates[k].id) == x {
      assert LowerIDs(updates)[k] == x;
    }
    if k :| 0 <= k < |updates| && LowerIDs(updates)[k] == x {
      assert ToLower(updates[k].id) == x;
    }
  }

  lemma {:induction false} OfferedHasID(updates: seq<Update>, id: string)
    ensures match Offered(updates, id)
            case Some(u) => u in updates && ToLower(u.id) == ToLower(id)
            case None => true
  {
    if updates != [] {
      OfferedHasID(updates[..|updates| - 1], id);
    }
  }

  /** Each target is offered or decided as no longer offered. */
  lemma {:induction false} TargetsSplit(updates: seq<Update>, ids: seq<string>, x: string)
    ensures x in Lowered(ids) <==>
            HasID(OfferedOf(updates, ids), x) || x in DecidedIDs(NotOfferedItems(updates, ids))
  {
    if ids != [] {
      hide HasID, Offered;
      var init, id := ids[..|ids| - 1], ids[|ids| - 1];
      TargetsSplit(updates, init, x);
      assert Lowered(ids) == Lowered(init) + [ToLower(id)];
      OfferedHasID(updates, id);
      match Offered(updates, id) {
        case Some(u) =>
          HasIDAppend(OfferedOf(updates, init), u, x);
          assert NotOfferedItems(updates, ids) == NotOfferedItems(updates, init);
        case None =>
          var it := NewItem(Wua, ToLower(id), NotApplicable, NoLongerOffered);
          assert OfferedOf(updates, ids) == OfferedOf(updates, init);
          assert DecidedIDs(NotOfferedItems(updates, init) + [it]) ==
                 DecidedIDs(NotOfferedItems(updates, init)) + [ToLower(id)];
      }
    }
  }

  /** Each chosen update is installed or decided. */
  lemma {:induction false} ChosenSplit(chosen: seq<Update>, rebootFirst: bool, x: string)
    ensures HasID(chosen, x) <==>
            HasID(Installable(chosen, rebootFirst), x) || x in DecidedIDs(Verdicts(chosen, rebootFirst))
  {
    if chosen != [] {
      hide HasID;
      var init, u := chosen[..|chosen| - 1], chosen[|chosen| - 1];
      ChosenSplit(init, rebootFirst, x);
      assert chosen == init + [u];
      HasIDAppend(init, u, x);
      HasIDAppend(Installable(init, rebootFirst), u, x);
      match Verdict(u, rebootFirst) {
        case Some(it) =>
          assert it.id == ToLower(u.id);
          assert DecidedIDs(Verdicts(init, rebootFirst) + [it]) ==
                 DecidedIDs(Verdicts(init, rebootFirst)) + [it.id];
          assert Installable(chosen, rebootFirst) == Installable(init, rebootFirst);
        case None =>
          assert Verdicts(chosen, rebootFirst) == Verdicts(init, rebootFirst);
      }
    }
  }

  lemma OrderKeepsIDs(updates: seq<Update>, x: string)
    ensures HasID(OrderForInstall(updates), x) <==> HasID(updates, x)
  {
    OrderForInstallSorts(updates);
    hide OrderForInstall;
    var o := OrderForInstall(updates);
    if k :| 0 <= k < |o| && ToLower(o[k].id) == x {
      assert o[k] in multiset(updates);
      var j :| 0 <= j < |updates| && updates[j] == o[k];
    }
    if k :| 0 <= k < |updates| && ToLower(updates[k].id) == x {
      assert updates[k] in multiset(o);
      var j :| 0 <= j < |o| && o[j] == updates[k];
    }
  }

  /** A targeted selection covers its targets, all of them and nothing else. */
  lemma SelectionCoversTargets(scan: Scan, ids: seq<string>)
    ensures var (install, decided) := Selection(scan, false, ids);
            forall x :: x in Lowered(ids) <==> x in LowerIDs(install) || x in DecidedIDs(decided)
  {
    hide HasID, OrderForInstall, OfferedOf, NotOfferedItems, Verdicts, Installable;
    var (install, decided) := Selection(scan, false, ids);
    var chosen, first := OfferedOf(scan.updates, ids), NotOfferedItems(scan.updates, ids);
    var verdicts := Verdicts(chosen, scan.rebootRequiredBeforeInstall);
    assert DecidedIDs(first + verdicts) == DecidedIDs(first) + DecidedIDs(verdicts);
    forall x
      ensures x in Lowered(ids) <==> x in LowerIDs(install) || x in DecidedIDs(decided)
    {
      TargetsSplit(scan.updates, ids, x);
      ChosenSplit(chosen, scan.rebootRequiredBeforeInstall, x);
      OrderKeepsIDs(Installable(chosen, scan.rebootRequiredBeforeInstall), x);
      HasIDIsLower(install, x);
    }
  }

  /** No later offer has the ID, letter case aside. */
  predicate IsLastOffer(updates: seq<Update>, i: nat)
    requires i < |updates|
  {
    forall j :: i < j < |updates| ==> ToLower(updates[j].id) != ToLower(updates[i].id)
  }

  ghost predicate IsSomeLastOffer(updates: seq<Update>, u: Update) {
    exists i :: 0 <= i < |updates| && updates[i] == u && IsLastOffer(updates, i)
  }

  lemma {:induction false} OfferedIsLast(updates: seq<Update>, id: string)
    ensures Offered(updates, id) != None ==> IsSomeLastOffer(updates, Offered(updates, id).value)
  {
    if updates != [] {
      var init := updates[..|updates| - 1];
      OfferedIsLast(init, id);
      OfferedHasID(init, id);
      if Offered(init, id) != None && Offered(updates, id) == Offered(init, id) {
        var i :| 0 <= i < |init| && init[i] == Offered(init, id).value && IsLastOffer(init, i);
        if ToLower(updates[|updates| - 1].id) != ToLower(id) {
          assert IsLastOffer(updates, i);
        } else {
          assert IsLastOffer(updates, |updates| - 1);
        }
      } else if updates != [] {
        assert IsLastOffer(updates, |updates| - 1);
      }
    }
  }

  lemma {:induction false} OfferedOfAreLast(updates: seq<Update>, ids: seq<string>)
    ensures forall u :: u in OfferedOf(updates, ids) ==> IsSomeLastOffer(updates, u)
  {
    if ids != [] {
      hide IsSomeLastOffer, Offered;
      OfferedOfAreLast(updates, ids[..|ids| - 1]);
      OfferedIsLast(updates, ids[|ids| - 1]);
    }
  }

  /** A targeted run installs of each target the offer that came last, when nothing stands
      in its way. */
  lemma {:induction false} TargetsTakeLastOffer(scan: Scan, ids: seq<string>)
    ensures forall u :: u in Selection(scan, false, ids).0 ==>
              IsSomeLastOffer(scan.updates, u) &&
              !u.pendingReboot && !u.canRequestUserInput && !scan.rebootRequiredBeforeInstall
  {
    var chosen, rebootFirst := OfferedOf(scan.updates, ids), scan.rebootRequiredBeforeInstall;
    OfferedOfAreLast(scan.updates, ids);
    InstallableMembers(chosen, rebootFirst);
    OrderForInstallSorts(Installable(chosen, rebootFirst));
    hide OrderForInstall, OfferedOf, Installable, IsSomeLastOffer;
    var o := OrderForInstall(Installable(chosen, rebootFirst));
    forall u ensures u in o <==> u in Installable(chosen, rebootFirst) {
      assert u in multiset(o) <==> u in multiset(Installable(chosen, rebootFirst));
    }
  }

  // ----- a run without targets

  /** An update that a run of everything installs: neither driver, optional nor feature
      upgrade, and nothing stands in its way now. */
  predicate InstalledByPatchAll(u: Update, rebootFirst: bool) {
    && u.updateType != TYPE_DRIVER && !u.browseOnly && !IsFeatureUpgrade(u) && IsGuid(u.id)
    && !u.pendingReboot && !u.canRequestUserInput && !rebootFirst
  }

  lemma {:induction false} EligibleMembers(updates: seq<Update>)
    ensures forall u :: u in Eligible(updates) <==> u in updates && PatchAllEligible(u) && IsGuid(u.id)
  {
    if updates != [] {
      hide PatchAllEligible, IsGuid;
      EligibleMembers(updates[..|updates| - 1]);
      assert updates == updates[..|updates| - 1] + [updates[|updates| - 1]];
    }
  }

  lemma {:induction false} InstallableMembers(chosen: seq<Update>, rebootFirst: bool)
    ensures forall u :: u in Installable(chosen, rebootFirst) <==> u in chosen && Verdict(u, rebootFirst) == None
  {
    if chosen != [] {
      hide Verdict;
      InstallableMembers(chosen[..|chosen| - 1], rebootFirst);
      assert chosen == chosen[..|chosen| - 1] + [chosen[|chosen| - 1]];
    }
  }

  /** A run of everything installs exactly those. */
  lemma {:induction false} PatchAllInstallsEligible(scan: Scan, ids: seq<string>)
    ensures forall u :: u in Selection(scan, true, ids).0 <==>
                        u in scan.updates && InstalledByPatchAll(u, scan.rebootRequiredBeforeInstall)
  {
    var chosen, rebootFirst := Eligible(scan.updates), scan.rebootRequiredBeforeInstall;
    EligibleMembers(scan.updates);
    InstallableMembers(chosen, rebootFirst);
    OrderForInstallSorts(Installable(chosen, rebootFirst));
    hide OrderForInstall, Eligible, Installable, IsGuid, IsFeatureUpgrade;
    var o := OrderForInstall(Installable(chosen, rebootFirst));
    forall u ensures u in o <==> u in Installable(chosen, rebootFirst) {
      assert u in multiset(o) <==> u in multiset(Installable(chosen, rebootFirst));
    }
  }

  // ----- decisions are backed by the scan

  lemma {:induction false} EligibleAreOffered(updates: seq<Update>)
    ensures forall u :: u in Eligible(updates) ==> u in updates
  {
    if updates != [] {
      hide PatchAllEligible, IsGuid;
      EligibleAreOffered(updates[..|updates| - 1]);
    }
  }

  lemma {:induction false} TargetsAreOffered(updates: seq<Update>, ids: seq<string>)
    ensures forall u :: u in OfferedOf(updates, ids) ==> u in updates
  {
    if ids != [] {
      TargetsAreOffered(updates, ids[..|ids| - 1]);
      OfferedHasID(updates, ids[|ids| - 1]);
    }
  }

  ghost predicate BackedBy(it: Item, a: ScanAnswer) {
    && it.kind == Wua && it.status != Pending && !it.started && ToLower(it.id) == it.id
    && (it.status == Skipped ==> it.message !in {StoppedByUser, TimeLimit})
    && ScanExplains(a, it.id, it.status, it.message)
  }

  lemma VerdictBacked(u: Update, a: ScanAnswer)
    requires a.err == None && u in a.scan.updates
    ensures match Verdict(u, a.scan.rebootRequiredBeforeInstall)
            case Some(it) => BackedBy(it, a)
            case None => ScanExplains(a, ToLower(u.id), WouldInstall, Detail)
  {
    var i :| 0 <= i < |a.scan.updates| && a.scan.updates[i] == u;
    assert ToLower(a.scan.updates[i].id) == ToLower(u.id);
    ToLowerIdempotent(u.id);
  }

  lemma {:induction false} VerdictsBacked(chosen: seq<Update>, a: ScanAnswer)
    requires a.err == None && forall u :: u in chosen ==> u in a.scan.updates
    ensures forall it :: it in Verdicts(chosen, a.scan.rebootRequiredBeforeInstall) ==> BackedBy(it, a)
    ensures forall u :: u in Installable(chosen, a.scan.rebootRequiredBeforeInstall) ==>
              ScanExplains(a, ToLower(u.id), WouldInstall, Detail)
  {
    if chosen != [] {
      hide BackedBy, ScanExplains;
      VerdictsBacked(chosen[..|chosen| - 1], a);
      VerdictBacked(chosen[|chosen| - 1], a);
    }
  }

  lemma {:induction false} OfferedFolds(updates: seq<Update>, id: string)
    ensures Offered(updates, ToLower(id)) == Offered(updates, id)
  {
    ToLowerIdempotent(id);
    if updates != [] {
      OfferedFolds(updates[..|updates| - 1], id);
    }
  }

  lemma {:induction false} NotOfferedBacked(a: ScanAnswer, ids: seq<string>)
    requires a.err == None
    ensures forall it :: it in NotOfferedItems(a.scan.updates, ids) ==> BackedBy(it, a)
  {
    if ids != [] {
      hide Offered;
      NotOfferedBacked(a, ids[..|ids| - 1]);
      OfferedFolds(a.scan.updates, ids[|ids| - 1]);
      NoneOffered(a.scan.updates, ToLower(ids[|ids| - 1]));
      ToLowerIdempotent(ids[|ids| - 1]);
    }
  }

  lemma {:induction false} NoneOffered(updates: seq<Update>, id: string)
    ensures Offered(updates, id) == None ==>
              forall i :: 0 <= i < |updates| ==> ToLower(updates[i].id) != ToLower(id)
  {
    if updates != [] {
      NoneOffered(updates[..|updates| - 1], id);
    }
  }

  /** The scan accounts for what is decided, and for what a dry run would install. */
  lemma SelectionIsBacked(a: ScanAnswer, patchAll: bool, ids: seq<string>, trace: seq<Event>)
    requires a.err == None && trace != [] && trace[|trace| - 1] == Scanned(a)
    ensures DecidedSound(Selection(a.scan, patchAll, ids).1, trace)
    ensures WouldInstallAll(Selection(a.scan, patchAll, ids).0, trace)
  {
    hide OrderForInstall, OfferedOf, NotOfferedItems, Verdicts, Installable, Eligible, BackedBy, ScanExplains;
    var chosen := Chosen(a.scan, patchAll, ids);
    EligibleAreOffered(a.scan.updates);
    TargetsAreOffered(a.scan.updates, ids);
    VerdictsBacked(chosen, a);
    NotOfferedBacked(a, ids);
    var (install, decided) := Selection(a.scan, patchAll, ids);
    OrderForInstallSorts(Installable(chosen, a.scan.rebootRequiredBeforeInstall));
    forall k | 0 <= k < |decided| ensures BackedBy(decided[k], a) {
      assert decided[k] in decided;
    }
    forall k | 0 <= k < |install| ensures ScanExplains(a, ToLower(install[k].id), WouldInstall, Detail) {
      assert install[k] in multiset(install);
      assert install[k] in Installable(chosen, a.scan.rebootRequiredBeforeInstall);
    }
    BackedIsSound(decided, install, a, trace);
  }

  lemma BackedIsSound(decided: seq<Item>, install: seq<Update>, a: ScanAnswer, trace: seq<Event>)
    requires trace != [] && trace[|trace| - 1] == Scanned(a)
    requires forall k :: 0 <= k < |decided| ==> BackedBy(decided[k], a)
    requires forall k :: 0 <= k < |install| ==> ScanExplains(a, ToLower(install[k].id), WouldInstall, Detail)
    ensures DecidedSound(decided, trace) && WouldInstallAll(install, trace)
  {
    hide Evident, ScanExplains;
    forall k | 0 <= k < |decided|
      ensures Evident(KeyOf(decided[k]), decided[k].status, decided[k].message, trace)
    {
      assert BackedBy(decided[k], a);
      ExplainedAt(|trace| - 1, KeyOf(decided[k]), decided[k].status, decided[k].message, trace);
    }
    forall k | 0 <= k < |install|
      ensures Evident((Wua, ToLower(install[k].id)), WouldInstall, Detail, trace)
    {
      ExplainedAt(|trace| - 1, (Wua, ToLower(install[k].id)), WouldInstall, Detail, trace);
    }
  }

  // ----- distinct targets, distinct plan

  ghost predicate DistinctUpdates(updates: seq<Update>) { Distinct(LowerIDs(updates)) }

  lemma {:induction false} OfferedDistinct(updates: seq<Update>, ids: seq<string>)
    requires Distinct(Lowered(ids))
    ensures DistinctUpdates(OfferedOf(updates, ids))
  {
    if ids != [] {
      var init, id := ids[..|ids| - 1], ids[|ids| - 1];
      assert Lowered(init) == Lowered(ids)[..|init|];
      OfferedDistinct(updates, init);
      OfferedHasID(updates, id);
      TargetsSplit(updates, init, ToLower(id));
      assert ToLower(id) !in Lowered(init) by {
        assert Lowered(ids)[|init|] == ToLower(id);
      }
      if u :| Offered(updates, id) == Some(u) {
        DistinctAppend(OfferedOf(updates, init), u);
      }
    }
  }

  lemma DistinctAppend(updates: seq<Update>, u: Update)
    requires DistinctUpdates(updates) && !HasID(updates, ToLower(u.id))
    ensures DistinctUpdates(updates + [u])
  {
    HasIDIsLower(updates, ToLower(u.id));
    assert LowerIDs(updates + [u]) == LowerIDs(updates) + [ToLower(u.id)];
  }

  lemma {:induction false} InstallableDistinct(chosen: seq<Update>, rebootFirst: bool)
    requires DistinctUpdates(chosen)
    ensures DistinctUpdates(Installable(chosen, rebootFirst))
  {
    if chosen != [] {
      var init, u := chosen[..|chosen| - 1], chosen[|chosen| - 1];
      assert LowerIDs(init) == LowerIDs(chosen)[..|init|];
      InstallableDistinct(init, rebootFirst);
      ChosenSplit(init, rebootFirst, ToLower(u.id));
      HasIDIsLower(init, ToLower(u.id));
      assert LowerIDs(chosen)[|init|] == ToLower(u.id);
      DistinctAppend(Installable(init, rebootFirst), u);
    }
  }

  lemma {:induction false} DistinctMultiset(ids: seq<string>)
    ensures Distinct(ids) <==> forall x :: multiset(ids)[x] <= 1
  {
    if ids != [] {
      var init, last := ids[..|ids| - 1], ids[|ids| - 1];
      DistinctMultiset(init);
      assert ids == init + [last];
      assert last in init <==> last in multiset(init);
      if Distinct(ids) {
        assert last !in init;
      } else if forall x :: multiset(ids)[x] <= 1 {
        assert multiset(ids)[last] == multiset(init)[last] + 1;
        assert forall x :: multiset(init)[x] <= multiset(ids)[x];
        assert last !in init;
      }
    }
  }

  function LowerID(u: Update): string { ToLower(u.id) }

  lemma OrderKeepsLowerIDs(updates: seq<Update>)
    ensures multiset(LowerIDs(OrderForInstall(updates))) == multiset(LowerIDs(updates))
  {
    var rows := Rows(updates);
    Stable.SortKeepsImage(rows, LowerID);
    assert Stable.Image(rows, LowerID) == LowerIDs(updates);
    assert Stable.Image(Stable.Sort(rows), LowerID) == LowerIDs(OrderForInstall(updates));
  }

  /** Ordering for install neither adds nor removes repetitions. */
  lemma OrderKeepsDistinct(updates: seq<Update>)
    ensures DistinctUpdates(OrderForInstall(updates)) <==> DistinctUpdates(updates)
  {
    hide OrderForInstall;
    OrderKeepsLowerIDs(updates);
    DistinctMultiset(LowerIDs(updates));
    DistinctMultiset(LowerIDs(OrderForInstall(updates)));
  }

  lemma LoweredIDs(updates: seq<Update>)
    ensures Lowered(IDs(updates)) == LowerIDs(updates)
  {
  }

  /** Distinct targets are planned for at most once each, letter case aside. */
  lemma {:induction false} PlanIsDistinct(scan: Scan, req: Request)
    requires !req.patchAll && Distinct(Lowered(WuaIDs(req.targets)))
    ensures Distinct(Lowered(Plan(scan, req)))
  {
    var chosen := OfferedOf(scan.updates, WuaIDs(req.targets));
    var inst := Installable(chosen, scan.rebootRequiredBeforeInstall);
    OfferedDistinct(scan.updates, WuaIDs(req.targets));
    InstallableDistinct(chosen, scan.rebootRequiredBeforeInstall);
    hide OrderForInstall;
    OrderKeepsDistinct(inst);
    LoweredIDs(OrderForInstall(inst));
  }

  /** No two of the updates that a run of everything installs share an ID. */
  ghost predicate OfferedOnce(scan: Scan) {
    forall i, j ::
      (&& 0 <= i < j < |scan.updates|
       && InstalledByPatchAll(scan.updates[i], scan.rebootRequiredBeforeInstall)
       && InstalledByPatchAll(scan.updates[j], scan.rebootRequiredBeforeInstall)) ==>
        LowerID(scan.updates[i]) != LowerID(scan.updates[j])
  }

  /** A run of everything plans each update once exactly when the search offers it once. */
  lemma {:induction false} PatchAllPlanIsDistinctExactly(scan: Scan, req: Request)
    requires req.patchAll
    ensures Distinct(Lowered(Plan(scan, req))) <==> OfferedOnce(scan)
  {
    var inst := Installable(Eligible(scan.updates), scan.rebootRequiredBeforeInstall);
    EligibleDistinctExactly(scan);
    hide OrderForInstall, OfferedOnce, Eligible, Installable;
    OrderKeepsDistinct(inst);
    LoweredIDs(OrderForInstall(inst));
  }

  lemma {:induction false} EligibleDistinctExactly(scan: Scan)
    ensures DistinctUpdates(Installable(Eligible(scan.updates), scan.rebootRequiredBeforeInstall)) <==>
            OfferedOnce(scan)
    decreases |scan.updates|
  {
    if scan.updates != [] {
      hide IsGuid, IsFeatureUpgrade, WuaItem;
      var init, u := scan.updates[..|scan.updates| - 1], scan.updates[|scan.updates| - 1];
      var before, rebootFirst := scan.(updates := init), scan.rebootRequiredBeforeInstall;
      EligibleDistinctExactly(before);
      var inst := Installable(Eligible(init), rebootFirst);
      if InstalledByPatchAll(u, rebootFirst) {
        EligibleStep(scan.updates, rebootFirst);
        LastIsNew(inst, u);
        InstalledHasID(init, rebootFirst, LowerID(u));
        OfferedOnceStep(scan);
      } else {
        EligibleSkip(scan.updates, rebootFirst);
        OfferedOnceStep(scan);
      }
    }
  }

  lemma EligibleStep(updates: seq<Update>, rebootFirst: bool)
    requires updates != [] && InstalledByPatchAll(updates[|updates| - 1], rebootFirst)
    ensures Installable(Eligible(updates), rebootFirst) ==
            Installable(Eligible(updates[..|updates| - 1]), rebootFirst) + [updates[|updates| - 1]]
  {
    hide IsGuid, IsFeatureUpgrade, WuaItem;
    var e := Eligible(updates[..|updates| - 1]) + [updates[|updates| - 1]];
    assert e[..|e| - 1] == Eligible(updates[..|updates| - 1]);
  }

  lemma EligibleSkip(updates: seq<Update>, rebootFirst: bool)
    requires updates != [] && !InstalledByPatchAll(updates[|updates| - 1], rebootFirst)
    ensures Installable(Eligible(updates), rebootFirst) ==
            Installable(Eligible(updates[..|updates| - 1]), rebootFirst)
  {
    hide IsGuid, IsFeatureUpgrade, WuaItem;
    var before := Eligible(updates[..|updates| - 1]);
    var e := before + [updates[|updates| - 1]];
    assert e[..|e| - 1] == before && before + [] == before;
  }

  lemma LastIsNew(updates: seq<Update>, u: Update)
    ensures DistinctUpdates(updates + [u]) <==> DistinctUpdates(updates) && !HasID(updates, LowerID(u))
  {
    HasIDIsLower(updates, LowerID(u));
    var a, b := LowerIDs(updates), LowerIDs(updates + [u]);
    assert b == a + [LowerID(u)];
    if Distinct(b) {
      assert forall i :: 0 <= i < |a| ==> b[i] == a[i] && b[i] != b[|a|];
    }
  }

  lemma {:induction false} InstalledHasID(updates: seq<Update>, rebootFirst: bool, x: string)
    ensures HasID(Installable(Eligible(updates), rebootFirst), x) <==>
            exists i :: 0 <= i < |updates| && InstalledByPatchAll(updates[i], rebootFirst) &&
                        LowerID(updates[i]) == x
  {
    hide InstalledByPatchAll, HasID, Installable, Eligible;
    if updates != [] {
      var init, u := updates[..|updates| - 1], updates[|updates| - 1];
      InstalledHasID(init, rebootFirst, x);
      if InstalledByPatchAll(u, rebootFirst) {
        EligibleStep(updates, rebootFirst);
        HasIDAppend(Installable(Eligible(init), rebootFirst), u, x);
      } else {
        EligibleSkip(updates, rebootFirst);
      }
    } else {
      NothingHasID(rebootFirst, x);
    }
  }

  lemma NothingHasID(rebootFirst: bool, x: string)
    ensures !HasID(Installable(Eligible([]), rebootFirst), x)
  {
  }

  lemma OfferedOnceStep(scan: Scan)
    requires scan.updates != []
    ensures var init, u := scan.updates[..|scan.updates| - 1], scan.updates[|scan.updates| - 1];
            OfferedOnce(scan) <==>
            OfferedOnce(scan.(updates := init)) &&
            (InstalledByPatchAll(u, scan.rebootRequiredBeforeInstall) ==>
               !exists i :: 0 <= i < |init| && InstalledByPatchAll(init[i], scan.rebootRequiredBeforeInstall) &&
                            LowerID(init[i]) == LowerID(u))
  {
    hide InstalledByPatchAll, LowerID;
    var init := scan.updates[..|scan.updates| - 1];
    assert forall i :: 0 <= i < |init| ==> init[i] == scan.updates[i];
  }

  lemma {:induction false} LoweredSubsequence(a: seq<string>, b: seq<string>)
    requires IsSubsequence(a, b)
    ensures IsSubsequence(Lowered(a), Lowered(b))
  {
    if a != [] {
      var b' := b[..|b| - 1];
      assert Lowered(b)[..|b| - 1] == Lowered(b');
      if IsSubsequence(a, b') {
        LoweredSubsequence(a, b');
      } else {
        LoweredSubsequence(a[..|a| - 1], b');
        assert Lowered(a)[..|a| - 1] == Lowered(a[..|a| - 1]);
      }
    } else {
      assert Lowered(a) == [];
    }
  }
}
