/** The Windows Update list a report sends (windows_patch_logic.go): the cached list, the
    restart-pending set and the COM failure streak, which reports and patch runs share. */
module WindowsUpdateCache {
  import opened Text

  datatype Package = Package(name: string, currentVersion: string, needsUpdate: bool, wuaGuid: string)

  const PENDING_RESTART_VERSION := "pending restart"

  datatype SearchStatus = SearchOK | SearchFailed | SearchCOMFailed

  /** What one collection returned. */
  datatype Answer = Answer(packages: seq<Package>, status: SearchStatus)

  /** A report's share: the packages, or "omitted" so the server keeps its rows. */
  datatype Report = Omitted | Reported(packages: seq<Package>)

  /** How many COM failures in a row mean the search is blocked, not busy. */
  const PERSISTENT_COM_FAILURES := 3

  datatype CacheState = CacheState(last: seq<Package>, lastSet: bool, restartPending: set<string>,
                                   comStreak: nat)

  predicate WaitsForRestart(p: Package, pending: set<string>) {
    p.wuaGuid != "" && p.needsUpdate && ToLower(p.wuaGuid) in pending
  }

  function ShowOne(p: Package, pending: set<string>): Package {
    if WaitsForRestart(p, pending) then p.(needsUpdate := false, currentVersion := PENDING_RESTART_VERSION)
    else p
  }

  /** The list with every update that waits for a restart shown as such. */
  function Shown(pkgs: seq<Package>, pending: set<string>): (r: seq<Package>)
    ensures |r| == |pkgs| && forall i :: 0 <= i < |r| ==> r[i] == ShowOne(pkgs[i], pending)
  {
    seq(|pkgs|, i requires 0 <= i < |pkgs| => ShowOne(pkgs[i], pending))
  }

  /** The list is the one that was found, in its order; only the needed updates among the
      noted ones are shown as installed and pending a restart, and nothing else changes. */
  predicate OnlyNotedChanged(found: seq<Package>, shown: seq<Package>, noted: set<string>) {
    && |shown| == |found|
    && forall i :: 0 <= i < |shown| ==>
         var (f, s) := (found[i], shown[i]);
         if f.needsUpdate && f.wuaGuid != "" && ToLower(f.wuaGuid) in noted then
           s.name == f.name && s.wuaGuid == f.wuaGuid && !s.needsUpdate && s.currentVersion == "pending restart"
         else s == f
  }

  lemma ShownChangesNoted(pkgs: seq<Package>, pending: set<string>)
    ensures OnlyNotedChanged(pkgs, Shown(pkgs, pending), pending)
  {
  }

  /** Showing more notes later is showing them all at once. */
  lemma ShownAgain(found: seq<Package>, shown: seq<Package>, noted: set<string>, later: set<string>)
    requires OnlyNotedChanged(found, shown, noted) && noted <= later
    ensures OnlyNotedChanged(found, Shown(shown, later), later)
  {
  }

  /** A report that found the lock taken. */
  function CachedReport(s: CacheState): Report {
    if s.lastSet then Reported(Shown(s.last, s.restartPending)) else Omitted
  }

  /** A report that searched. */
  function FreshReport(s: CacheState, a: Answer): (CacheState, Report) {
    match a.status
    case SearchFailed => (s, Omitted)
    case SearchCOMFailed =>
      (s.(comStreak := s.comStreak + 1),
       if s.comStreak + 1 < PERSISTENT_COM_FAILURES then Omitted else Reported(a.packages))
    case SearchOK =>
      var shown := Shown(a.packages, s.restartPending);
      (s.(last := shown, lastSet := true, comStreak := 0), Reported(shown))
  }

  /** What a finished patch run leaves behind. */
  function Recorded(s: CacheState, ids: set<string>, attempted: bool): CacheState {
    var t := s.(restartPending := s.restartPending + ids);
    if attempted then t.(last := [], lastSet := false) else t
  }

  /** The package-level variables; each method is one critical section of the source. */
  class UpdateCache {
    var last: seq<Package>
    var lastSet: bool
    var restartPending: set<string>
    var comStreak: nat

    ghost function State(): CacheState
      reads this
    {
      CacheState(last, lastSet, restartPending, comStreak)
    }

    constructor ()
      ensures State() == CacheState([], false, {}, 0)
    {
      last, lastSet, restartPending, comStreak := [], false, {}, 0;
    }

    method ApplyRestartPending(pkgs: array<Package>)
      modifies pkgs
      ensures pkgs[..] == Shown(old(pkgs[..]), restartPending)
    {
      if restartPending == {} {
        assert pkgs[..] == Shown(pkgs[..], restartPending);
        return;
      }
      for i := 0 to pkgs.Length
        invariant forall k :: 0 <= k < i ==> pkgs[k] == ShowOne(old(pkgs[k]), restartPending)
        invariant forall k :: i <= k < pkgs.Length ==> pkgs[k] == old(pkgs[k])
      {
        if pkgs[i].wuaGuid != "" && pkgs[i].needsUpdate && ToLower(pkgs[i].wuaGuid) in restartPending {
          pkgs[i] := pkgs[i].(needsUpdate := false, currentVersion := PENDING_RESTART_VERSION);
        }
      }
    }

    method NoteRestartPending(id: string)
      modifies this`restartPending
      ensures restartPending == old(restartPending) + {ToLower(id)}
    {
      restartPending := restartPending + {ToLower(id)};
    }

    method Invalidate()
      modifies this`last, this`lastSet
      ensures last == [] && !lastSet
    {
      last, lastSet := [], false;
    }

    /** guardedWindowsUpdates: busy says that TryLock failed; answer is what collect
        returns, in a fresh array, when it is called. */
    method Guarded(busy: bool, answer: Answer) returns (report: Report)
      modifies this
      ensures busy ==> State() == old(State()) && report == CachedReport(old(State()))
      ensures !busy ==> (State(), report) == FreshReport(old(State()), answer)
    {
      if busy {
        if !lastSet {
          return Omitted;
        }
        var out := new Package[|last|](i requires 0 <= i < |last| reads this => last[i]);
        assert out[..] == last;
        ApplyRestartPending(out);
        return Reported(out[..]);
      }
      match answer.status {
        case SearchFailed =>
          return Omitted;
        case SearchCOMFailed =>
          comStreak := comStreak + 1;
          if comStreak < PERSISTENT_COM_FAILURES {
            return Omitted;
          }
          return Reported(answer.packages);
        case SearchOK =>
          comStreak := 0;
          var pkgs := new Package[|answer.packages|](i requires 0 <= i < |answer.packages| => answer.packages[i]);
          assert pkgs[..] == answer.packages;
          ApplyRestartPending(pkgs);
          last := pkgs[..];
          lastSet := true;
          return Reported(pkgs[..]);
      }
    }
  }

  // ----- reports and patch runs interleaved

  /** Who holds the Windows Update lock. A run that has recorded its outcome starts no
      further install. */
  datatype Holder = Free | Searching | Running(attempted: bool, recorded: bool)

  datatype Event = SearchBegan
                 | SearchEnded(answer: Answer, report: Report)
                 | Served(report: Report)
                 | RunBegan
                 | InstallStarted
                 | Noted(id: string)
                 | OutcomeRecorded
                 | RunEnded(attempted: bool)

  datatype Protocol = Protocol(cache: CacheState, holder: Holder)

  datatype Step = BeginSearch | EndSearch(answer: Answer) | Serve
                | BeginRun | StartInstall | Note(id: string) | RecordOutcome | EndRun

  predicate Enabled(p: Protocol, step: Step) {
    match step
    case BeginSearch => p.holder == Free
    case EndSearch(_) => p.holder == Searching
    case Serve => true
    case BeginRun => p.holder == Free
    case StartInstall => p.holder.Running? && !p.holder.recorded
    case Note(_) => p.holder.Running? && !p.holder.recorded
    case RecordOutcome => p.holder.Running? && !p.holder.recorded
    case EndRun => p.holder.Running? && p.holder.recorded
  }

  /** One atomic step. Serving the cache needs no lock: its TryLock failed some time
      before, and by now the lock may be free or held by anyone. */
  function Do(p: Protocol, step: Step): (Protocol, Event)
    requires Enabled(p, step)
  {
    match step
    case BeginSearch => (p.(holder := Searching), SearchBegan)
    case EndSearch(a) =>
      var (s, r) := FreshReport(p.cache, a);
      (Protocol(s, Free), SearchEnded(a, r))
    case Serve => (p, Served(CachedReport(p.cache)))
    case BeginRun => (p.(holder := Running(false, false)), RunBegan)
    case StartInstall => (p.(holder := Running(true, false)), InstallStarted)
    case Note(id) => (p.(cache := Recorded(p.cache, {ToLower(id)}, false)), Noted(id))
    case RecordOutcome =>
      (Protocol(Recorded(p.cache, {}, p.holder.attempted), Running(p.holder.attempted, true)), OutcomeRecorded)
    case EndRun => (p.(holder := Free), RunEnded(p.holder.attempted))
  }

  const INITIAL := Protocol(CacheState([], false, {}, 0), Free)

  ghost predicate CanRun(steps: seq<Step>)
    decreases |steps|, 0
  {
    steps == [] ||
    (CanRun(steps[..|steps| - 1]) && Enabled(StateAfter(steps[..|steps| - 1]), steps[|steps| - 1]))
  }

  ghost function StateAfter(steps: seq<Step>): Protocol
    requires CanRun(steps)
    decreases |steps|, 1
  {
    if steps == [] then INITIAL else Do(StateAfter(steps[..|steps| - 1]), steps[|steps| - 1]).0
  }

  ghost function History(steps: seq<Step>): seq<Event>
    requires CanRun(steps)
  {
    if steps == [] then []
    else History(steps[..|steps| - 1]) + [Do(StateAfter(steps[..|steps| - 1]), steps[|steps| - 1]).1]
  }

  /** The restart-pending IDs noted so far. */
  function NotedIn(h: seq<Event>): set<string> {
    set k | 0 <= k < |h| && h[k].Noted? :: ToLower(h[k].id)
  }

  /** The COM failures since the last successful search. */
  function COMFailuresIn(h: seq<Event>): nat {
    if h == [] then 0
    else
      var before := COMFailuresIn(h[..|h| - 1]);
      match h[|h| - 1]
      case SearchEnded(a, _) =>
        if a.status == SearchOK then 0 else if a.status == SearchCOMFailed then before + 1 else before
      case _ => before
  }

  predicate IsFreshSuccess(e: Event) { e.SearchEnded? && e.answer.status == SearchOK }

  predicate EndedAttempt(e: Event) { e == RunEnded(true) }

  /** Events b and e are the start and the end of one successful search, and no run that
      started an install ended after b. */
  predicate FreshSearch(h: seq<Event>, b: nat, e: nat) {
    && b < e < |h| && h[b] == SearchBegan && IsFreshSuccess(h[e])
    && (forall m :: b < m < e ==> h[m].Served?)
    && (forall m :: b < m < |h| ==> !EndedAttempt(h[m]))
  }

  /** The cached list is what a fresh search reported. */
  ghost predicate CacheIsFresh(h: seq<Event>, last: seq<Package>) {
    exists b: nat, e: nat :: FreshSearch(h, b, e) && h[e].report == Reported(last)
  }

  ghost predicate Invariant(h: seq<Event>, p: Protocol) {
    && (p.cache.lastSet ==> CacheIsFresh(h, p.cache.last))
    && p.cache.restartPending == NotedIn(h)
    && p.cache.comStreak == COMFailuresIn(h)
    && (p.holder == Searching ==> exists b: nat :: IsOpenSearch(h, b))
    && (p.holder.Running? && p.holder.attempted && p.holder.recorded ==> !p.cache.lastSet)
  }

  predicate IsOpenSearch(h: seq<Event>, b: nat) {
    b < |h| && h[b] == SearchBegan && forall m :: b < m < |h| ==> h[m].Served?
  }

  lemma NotedAppend(h: seq<Event>, e: Event)
    ensures NotedIn(h + [e]) == NotedIn(h) + if e.Noted? then {ToLower(e.id)} else {}
  {
    var g := h + [e];
    assert forall k :: 0 <= k < |h| ==> g[k] == h[k];
    forall x | x in NotedIn(h) ensures x in NotedIn(g) {
      var k :| 0 <= k < |h| && h[k].Noted? && ToLower(h[k].id) == x;
      assert g[k].Noted?;
    }
    if e.Noted? {
      assert g[|h|].Noted?;
    }
  }

  lemma FreshStaysFresh(h: seq<Event>, e: Event, last: seq<Package>)
    requires CacheIsFresh(h, last) && !EndedAttempt(e)
    ensures CacheIsFresh(h + [e], last)
  {
    var b: nat, k: nat :| FreshSearch(h, b, k) && h[k].report == Reported(last);
    var g := h + [e];
    assert forall m :: 0 <= m < |h| ==> g[m] == h[m];
    assert FreshSearch(g, b, k) && g[k].report == Reported(last);
  }

  lemma OpenSearchGrows(h: seq<Event>, e: Event, b: nat)
    requires IsOpenSearch(h, b) && e.Served?
    ensures IsOpenSearch(h + [e], b)
  {
  }

  /** Every step keeps the invariant. */
  lemma StepKeepsInvariant(h: seq<Event>, p: Protocol, step: Step)
    requires Invariant(h, p) && Enabled(p, step)
    ensures Invariant(h + [Do(p, step).1], Do(p, step).0)
  {
    var (q, e) := Do(p, step);
    var g := h + [e];
    hide CacheIsFresh, NotedIn, IsOpenSearch;
    assert g[..|g| - 1] == h;
    NotedAppend(h, e);
    if p.cache.lastSet && !EndedAttempt(e) {
      FreshStaysFresh(h, e, p.cache.last);
    }
    match step {
      case BeginSearch =>
        NewOpenSearch(h);
      case EndSearch(a) =>
        if a.status == SearchOK {
          NewFreshSearch(h, e, q.cache.last);
        }
      case Serve =>
        if p.holder == Searching {
          var b: nat :| IsOpenSearch(h, b);
          OpenSearchGrows(h, e, b);
        }
      case _ =>
    }
  }

  lemma NewOpenSearch(h: seq<Event>)
    ensures IsOpenSearch(h + [SearchBegan], |h|)
  {
  }

  lemma NewFreshSearch(h: seq<Event>, e: Event, last: seq<Package>)
    requires (exists b: nat :: IsOpenSearch(h, b)) && IsFreshSuccess(e) && e.report == Reported(last)
    ensures CacheIsFresh(h + [e], last)
  {
    var b: nat :| IsOpenSearch(h, b);
    assert FreshSearch(h + [e], b, |h|);
  }

  lemma {:induction false} InvariantHolds(steps: seq<Step>)
    requires CanRun(steps)
    ensures Invariant(History(steps), StateAfter(steps))
  {
    if steps == [] {
      assert NotedIn([]) == {};
    } else {
      hide Invariant, Do;
      var init := steps[..|steps| - 1];
      InvariantHolds(init);
      StepKeepsInvariant(History(init), StateAfter(init), steps[|steps| - 1]);
    }
  }

  /** Every successful search reported what it found, with the updates noted before it
      shown as pending a restart. */
  ghost predicate SearchesShow(h: seq<Event>) {
    forall e :: 0 <= e < |h| && IsFreshSuccess(h[e]) ==>
      h[e].report.Reported? && OnlyNotedChanged(h[e].answer.packages, h[e].report.packages, NotedIn(h[..e]))
  }

  lemma {:induction false} SearchesShowFound(steps: seq<Step>)
    requires CanRun(steps)
    ensures SearchesShow(History(steps))
  {
    if steps != [] {
      var init := steps[..|steps| - 1];
      SearchesShowFound(init);
      InvariantHolds(init);
      var h, p := History(init), StateAfter(init);
      var e := Do(p, steps[|steps| - 1]).1;
      assert History(steps) == h + [e];
      hide NotedIn, OnlyNotedChanged, CacheIsFresh, History, StateAfter;
      assert forall k :: 0 <= k < |h| ==> (h + [e])[..k] == h[..k];
      assert (h + [e])[..|h|] == h;
      if IsFreshSuccess(e) {
        ShownChangesNoted(e.answer.packages, p.cache.restartPending);
      }
    }
  }

  lemma NotedGrows(h: seq<Event>, k: nat)
    requires k <= |h|
    ensures NotedIn(h[..k]) <= NotedIn(h)
  {
    forall x | x in NotedIn(h[..k]) ensures x in NotedIn(h) {
      var m :| 0 <= m < k && h[..k][m].Noted? && ToLower(h[..k][m].id) == x;
      assert h[m].Noted?;
    }
  }

  /** The list is what a fresh search found, as it must be shown by now. */
  ghost predicate ShowsFreshSearch(h: seq<Event>, pkgs: seq<Package>) {
    exists b: nat, e: nat :: FreshSearch(h, b, e) && OnlyNotedChanged(h[e].answer.packages, pkgs, NotedIn(h))
  }

  lemma {:induction false} CachedShowsFreshSearch(h: seq<Event>, last: seq<Package>)
    requires CacheIsFresh(h, last) && SearchesShow(h)
    ensures ShowsFreshSearch(h, Shown(last, NotedIn(h)))
  {
    var b: nat, e: nat :| FreshSearch(h, b, e) && h[e].report == Reported(last);
    hide NotedIn, OnlyNotedChanged, Shown;
    NotedGrows(h, e);
    ShownAgain(h[e].answer.packages, last, NotedIn(h[..e]), NotedIn(h));
  }

  /** In every interleaving, the list a cached report serves is what a successful search
      found, all of it after the last finished run that started an install, with exactly
      the updates noted until now shown as pending a restart. */
  lemma {:induction false} ServedListIsFresh(steps: seq<Step>)
    requires CanRun(steps + [Serve])
    ensures var r := CachedReport(StateAfter(steps).cache);
            && (steps + [Serve])[..|steps|] == steps && CanRun(steps)
            && History(steps + [Serve]) == History(steps) + [Served(r)]
            && (r.Reported? ==> ShowsFreshSearch(History(steps), r.packages))
  {
    assert (steps + [Serve])[..|steps|] == steps;
    InvariantHolds(steps);
    SearchesShowFound(steps);
    hide CacheIsFresh, NotedIn, SearchesShow, ShowsFreshSearch, Shown;
    var s := StateAfter(steps).cache;
    if s.lastSet {
      CachedShowsFreshSearch(History(steps), s.last);
    }
  }

  /** A fresh success reports what was found, with exactly the noted updates shown as
      pending a restart; a failure keeps the server's rows, and from the third COM failure
      since the last success on, what was found is reported as it came. */
  lemma {:induction false} FreshReportIsSound(steps: seq<Step>, a: Answer)
    requires CanRun(steps) && StateAfter(steps).holder == Searching
    ensures var (s, r) := FreshReport(StateAfter(steps).cache, a);
            var streak := COMFailuresIn(History(steps));
            && (a.status == SearchOK ==>
                  r.Reported? && OnlyNotedChanged(a.packages, r.packages, NotedIn(History(steps))))
            && (a.status == SearchFailed ==> r == Omitted)
            && (a.status == SearchCOMFailed ==> r == if streak < 2 then Omitted else Reported(a.packages))
            && s.comStreak == COMFailuresIn(History(steps) + [SearchEnded(a, r)])
  {
    InvariantHolds(steps);
    hide CacheIsFresh, NotedIn, OnlyNotedChanged, Shown;
    var s := StateAfter(steps).cache;
    ShownChangesNoted(a.packages, s.restartPending);
    var (t, r) := FreshReport(s, a);
    var h := History(steps);
    assert (h + [SearchEnded(a, r)])[..|h|] == h;
  }

  /** The record of a run adds its notes, drops the list if the run started an install, and
      touches nothing else. */
  lemma RecordedMeans(s: CacheState, ids: set<string>)
    ensures Recorded(s, ids, false) == s.(restartPending := s.restartPending + ids)
    ensures Recorded(s, ids, true) == s.(restartPending := s.restartPending + ids, last := [], lastSet := false)
  {
  }

  /** A run since whose start an install was started. */
  function InstallsInRun(h: seq<Event>): bool {
    if h == [] then false
    else
      match h[|h| - 1]
      case RunBegan => false
      case InstallStarted => true
      case _ => InstallsInRun(h[..|h| - 1])
  }

  /** A successful search sets the list, and the record of a run that started an install
      drops it; nothing else does either. */
  function ListIsThere(h: seq<Event>): bool {
    if h == [] then false
    else
      match h[|h| - 1]
      case SearchEnded(a, _) => a.status == SearchOK || ListIsThere(h[..|h| - 1])
      case OutcomeRecorded => ListIsThere(h[..|h| - 1]) && !InstallsInRun(h[..|h| - 1])
      case _ => ListIsThere(h[..|h| - 1])
  }

  /** A report that found the lock taken serves a list exactly when there is one. */
  lemma {:induction false} ServesWhatIsThere(steps: seq<Step>)
    requires CanRun(steps)
    ensures CachedReport(StateAfter(steps).cache).Reported? <==> ListIsThere(History(steps))
    ensures StateAfter(steps).holder.Running? ==>
              (StateAfter(steps).holder.attempted <==> InstallsInRun(History(steps)))
  {
    if steps != [] {
      var init := steps[..|steps| - 1];
      ServesWhatIsThere(init);
      hide Shown, CachedReport, Do, Enabled, ListIsThere, InstallsInRun;
      StepServes(History(init), StateAfter(init), steps[|steps| - 1]);
      ServesIfSet(StateAfter(init).cache);
      ServesIfSet(StateAfter(steps).cache);
    } else {
      ServesIfSet(INITIAL.cache);
    }
  }

  lemma ServesIfSet(s: CacheState)
    ensures CachedReport(s).Reported? <==> s.lastSet
  {
  }

  lemma {:induction false} StepServes(h: seq<Event>, p: Protocol, step: Step)
    requires Enabled(p, step) && (p.cache.lastSet <==> ListIsThere(h))
    requires p.holder.Running? ==> (p.holder.attempted <==> InstallsInRun(h))
    ensures var (q, e) := Do(p, step);
            && (q.cache.lastSet <==> ListIsThere(h + [e]))
            && (q.holder.Running? ==> (q.holder.attempted <==> InstallsInRun(h + [e])))
  {
    hide Shown;
    var e := Do(p, step).1;
    assert (h + [e])[..|h|] == h && (h + [e])[|h|] == e;
  }

  // ----- a whole run

  /** What a run may do, and reports may do meanwhile, between its start and its record. */
  predicate WithinRun(steps: seq<Step>) {
    forall k :: 0 <= k < |steps| ==> steps[k].StartInstall? || steps[k].Note? || steps[k].Serve?
  }

  function NotesIn(steps: seq<Step>): set<string> {
    set k | 0 <= k < |steps| && steps[k].Note? :: ToLower(steps[k].id)
  }

  predicate StartsInstall(steps: seq<Step>) { exists k :: 0 <= k < |steps| && steps[k].StartInstall? }

  lemma OneMoreStep(steps: seq<Step>, x: Step)
    requires CanRun(steps) && Enabled(StateAfter(steps), x)
    ensures CanRun(steps + [x]) && StateAfter(steps + [x]) == Do(StateAfter(steps), x).0
  {
    assert (steps + [x])[..|steps|] == steps;
  }

  lemma NotesAppend(steps: seq<Step>, x: Step)
    ensures NotesIn(steps + [x]) == NotesIn(steps) + if x.Note? then {ToLower(x.id)} else {}
    ensures StartsInstall(steps + [x]) <==> StartsInstall(steps) || x.StartInstall?
  {
    var t := steps + [x];
    assert forall k :: 0 <= k < |steps| ==> t[k] == steps[k];
    assert t[|steps|] == x;
    forall y | y in NotesIn(steps) ensures y in NotesIn(t) {
      var k :| 0 <= k < |steps| && steps[k].Note? && ToLower(steps[k].id) == y;
      assert t[k].Note?;
    }
    if x.Note? {
      assert ToLower(t[|steps|].id) in NotesIn(t);
    }
  }

  /** The single notes of a run add up, whatever reports do in between. */
  lemma {:induction false} NotesAddUp(before: seq<Step>, within: seq<Step>)
    requires CanRun(before) && StateAfter(before).holder.Running? && !StateAfter(before).holder.recorded
    requires WithinRun(within)
    ensures var p := StateAfter(before);
            CanRun(before + within) &&
            StateAfter(before + within) ==
            Protocol(Recorded(p.cache, NotesIn(within), false),
                     Running(p.holder.attempted || StartsInstall(within), false))
  {
    hide CanRun, StateAfter, NotesIn, StartsInstall;
    if within == [] {
      assert before + within == before;
      NothingIn();
    } else {
      var init, x := within[..|within| - 1], within[|within| - 1];
      NotesAddUp(before, init);
      NotesAppend(init, x);
      OneMoreStep(before + init, x);
      assert init + [x] == within && before + within == before + init + [x];
    }
  }

  lemma NothingIn()
    ensures NotesIn([]) == {} && !StartsInstall([])
  {
  }

  /** A run from its start to its record does to the cache what Recorded says. */
  lemma {:induction false} RunAmountsToRecorded(before: seq<Step>, within: seq<Step>)
    requires CanRun(before) && StateAfter(before).holder == Free && WithinRun(within)
    ensures var steps := before + [BeginRun] + within + [RecordOutcome] + [EndRun];
            CanRun(steps) &&
            StateAfter(steps) ==
            Protocol(Recorded(StateAfter(before).cache, NotesIn(within), StartsInstall(within)), Free)
  {
    hide CanRun, StateAfter, NotesIn, StartsInstall;
    OneMoreStep(before, BeginRun);
    NotesAddUp(before + [BeginRun], within);
    OneMoreStep(before + [BeginRun] + within, RecordOutcome);
    OneMoreStep(before + [BeginRun] + within + [RecordOutcome], EndRun);
  }
}
