/** The install state of Appx packages applied to the merged list (packages/windows.go,
    applyAppxInstallState): the installed Appx versions are indexed by name, each row is
    judged by the versions found for it, and the survivors are packed to the front of the
    same array. */
module AppxInstallState {
  import opened Options
  import opened DottedVersions
  import opened RegistryMerge
  import opened AppxIndex

  predicate HasStaged(v: AppxVersions, version: string) {
    exists k :: 0 <= k < |v.staged| && VersionsEqual(v.staged[k], version)
  }

  predicate NewerThanAllStaged(v: AppxVersions) {
    forall k :: 0 <= k < |v.staged| ==> NewerThan(v.installed, v.staged[k])
  }

  predicate SameVersionScheme(a: string, b: string) {
    match (Components(a), Components(b))
    case (Some(p), Some(q)) => p != [] && q != [] && p[0] == q[0]
    case _ => false
  }

  datatype Verdict = Keep(p: Package) | Suppress(p: Package) | Drop

  /** applyInstalledOverStaged: the installed version instead of the staged one. */
  function InstalledOverStaged(p: Package, installed: string): Verdict {
    var staged, q := p.currentVersion, p.(currentVersion := installed);
    if VersionsEqual(installed, staged) then Keep(p)
    else if p.availableVersion == "" then
      match CompareDotted(installed, staged)
      case Some(c) => Keep(if c < 0 then q.(needsUpdate := true, availableVersion := staged) else q)
      case None => Keep(q)
    else if p.needsUpdate && !InstalledIsOlder(installed, p.availableVersion) then
      Suppress(q.(needsUpdate := false, availableVersion := ""))
    else Keep(q)
  }

  /** What becomes of one row. */
  function Judge(p: Package, o: Origin, l: Lookup): Verdict {
    if l.NotFound? || l.versions.staged == [] then Keep(p)
    else
      var v := l.versions;
      if !v.present then
        if !o.registry && (l.exact || (Numeric(p.currentVersion) && HasStaged(v, p.currentVersion))) then Drop
        else Keep(p)
      else if !Numeric(p.currentVersion) || v.installed == "" then Keep(p)
      else if HasStaged(v, p.currentVersion) then InstalledOverStaged(p, v.installed)
      else if p.needsUpdate && l.exact && !SameVersionScheme(p.currentVersion, v.installed) && NewerThanAllStaged(v)
      then Suppress(p.(currentVersion := v.installed, needsUpdate := false, availableVersion := ""))
      else Keep(p)
  }

  /** A registry row is never dropped, nor is one whose package some user has. A kept row
      keeps its name. An update is raised only for a staged version above the installed one,
      and cleared only where the installed one is not known to be older. */
  lemma {:induction false} JudgeIsCareful(p: Package, o: Origin, l: Lookup)
    ensures match Judge(p, o, l)
            case Drop => !o.registry && l.Found? && !l.versions.present && l.versions.staged != []
            case Suppress(q) =>
              && q.name == p.name && p.needsUpdate && !q.needsUpdate && q.availableVersion == ""
              && l.Found? && l.versions.present && q.currentVersion == l.versions.installed != ""
              && (!InstalledIsOlder(q.currentVersion, p.availableVersion) || NewerThanAllStaged(l.versions))
            case Keep(q) =>
              && q.name == p.name && (p.needsUpdate ==> q.needsUpdate)
              && (q.needsUpdate && !p.needsUpdate ==>
                    q.availableVersion == p.currentVersion && HasStaged(l.versions, q.availableVersion) &&
                    InstalledOlderThan(q.currentVersion, q.availableVersion))
  {
    hide CompareDotted, Components, IsUnknownVersion;
  }

  predicate InstalledOlderThan(installed: string, available: string) {
    match CompareDotted(installed, available) case Some(c) => c < 0 case None => false
  }

  /** Some copy is staged only, and no user has the package. */
  predicate NobodyHas(l: Lookup) { l.Found? && l.versions.staged != [] && !l.versions.present }

  /** The row of an installed package shows a version that is only staged. */
  predicate ShowsStaged(p: Package, l: Lookup) {
    && l.Found? && l.versions.present && l.versions.installed != "" && Numeric(p.currentVersion)
    && HasStaged(l.versions, p.currentVersion) && !VersionsEqual(l.versions.installed, p.currentVersion)
  }

  /** winget compares a version of another scheme, and a newer copy than all staged ones
      is installed. */
  predicate OtherScheme(p: Package, l: Lookup) {
    && l.Found? && l.exact && l.versions.staged != [] && l.versions.present && l.versions.installed != ""
    && Numeric(p.currentVersion) && !HasStaged(l.versions, p.currentVersion)
    && !SameVersionScheme(p.currentVersion, l.versions.installed) && NewerThanAllStaged(l.versions)
  }

  /** Exactly which rows are dropped, cleared of their update and given one, and exactly
      what is kept of the others. */
  lemma {:induction false} JudgeDecides(p: Package, o: Origin, l: Lookup)
    ensures Judge(p, o, l) == Drop <==>
              NobodyHas(l) && !o.registry &&
              (l.exact || (Numeric(p.currentVersion) && HasStaged(l.versions, p.currentVersion)))
    ensures Judge(p, o, l).Suppress? <==>
              p.needsUpdate &&
              (OtherScheme(p, l) || (ShowsStaged(p, l) && p.availableVersion != "" &&
                                     !InstalledIsOlder(l.versions.installed, p.availableVersion)))
    ensures Judge(p, o, l).Suppress? ==>
              Judge(p, o, l).p == p.(currentVersion := l.versions.installed, needsUpdate := false,
                                     availableVersion := "")
    ensures Judge(p, o, l).Keep? && !ShowsStaged(p, l) ==> Judge(p, o, l).p == p
    ensures Judge(p, o, l).Keep? && ShowsStaged(p, l) ==>
              var raised := p.availableVersion == "" && InstalledOlderThan(l.versions.installed, p.currentVersion);
              Judge(p, o, l).p == p.(currentVersion := l.versions.installed,
                                     needsUpdate := p.needsUpdate || raised,
                                     availableVersion := if raised then p.currentVersion else p.availableVersion)
  {
    hide CompareDotted, Components, IsUnknownVersion, VersionsEqual, SameVersionScheme, NewerThanAllStaged;
  }

  /** A row without an origin is winget's, without an ID. */
  function OriginAt(origins: seq<Origin>, i: nat): (o: Origin)
    ensures i < |origins| ==> o == origins[i]
    ensures i >= |origins| ==> !o.registry && o.wingetID == ""
  {
    if i < |origins| then origins[i] else Origin(false, "")
  }

  /** The survivors among the first rows, in order. */
  function Survivors(pkgs: seq<Package>, origins: seq<Origin>,
                     lookup: (Package, Origin) -> Lookup): seq<Package> {
    if pkgs == [] then []
    else
      var i := |pkgs| - 1;
      Survivors(pkgs[..i], origins, lookup) +
      match Judge(pkgs[i], OriginAt(origins, i), lookup(pkgs[i], OriginAt(origins, i)))
      case Drop => []
      case Keep(p) => [p]
      case Suppress(p) => [p]
  }

  function NamesWhere(pkgs: seq<Package>, origins: seq<Origin>, lookup: (Package, Origin) -> Lookup,
                      drop: bool): seq<string> {
    if pkgs == [] then []
    else
      var i := |pkgs| - 1;
      NamesWhere(pkgs[..i], origins, lookup, drop) +
      match Judge(pkgs[i], OriginAt(origins, i), lookup(pkgs[i], OriginAt(origins, i)))
      case Drop => if drop then [pkgs[i].name] else []
      case Suppress(_) => if drop then [] else [pkgs[i].name]
      case Keep(_) => []
  }

  function PackageNames(pkgs: seq<Package>): seq<string> {
    if pkgs == [] then [] else PackageNames(pkgs[..|pkgs| - 1]) + [pkgs[|pkgs| - 1].name]
  }

  lemma NamesAppend(pkgs: seq<Package>, p: Package)
    ensures PackageNames(pkgs + [p]) == PackageNames(pkgs) + [p.name]
  {
    assert (pkgs + [p])[..|pkgs|] == pkgs;
  }

  lemma OneMore(all: seq<string>, kept: seq<string>, dropped: seq<string>, name: string)
    requires multiset(all) == multiset(kept) + multiset(dropped)
    ensures multiset(all + [name]) == multiset(kept + [name]) + multiset(dropped + [])
    ensures multiset(all + [name]) == multiset(kept) + multiset(dropped + [name])
  {
    assert dropped + [] == dropped;
  }

  /** Every row is kept or reported as dropped, by name. */
  lemma {:induction false} NothingVanishes(pkgs: seq<Package>, origins: seq<Origin>,
                                           lookup: (Package, Origin) -> Lookup)
    ensures multiset(PackageNames(pkgs)) ==
            multiset(PackageNames(Survivors(pkgs, origins, lookup))) +
            multiset(NamesWhere(pkgs, origins, lookup, true))
  {
    if pkgs != [] {
      var i := |pkgs| - 1;
      var p, o := pkgs[i], OriginAt(origins, i);
      NothingVanishes(pkgs[..i], origins, lookup);
      JudgeIsCareful(p, o, lookup(p, o));
      hide Judge;
      var before := Survivors(pkgs[..i], origins, lookup);
      match Judge(p, o, lookup(p, o)) {
        case Drop => assert before + [] == before;
        case Keep(q) => NamesAppend(before, q);
        case Suppress(q) => NamesAppend(before, q);
      }
      OneMore(PackageNames(pkgs[..i]), PackageNames(before), NamesWhere(pkgs[..i], origins, lookup, true), p.name);
    }
  }

  /** Reads and writes the same array: the write position never passes the read position,
      so the result is that of judging the rows as they were. */
  method ApplyAppxInstallState(pkgs: array<Package>, origins: seq<Origin>, appx: seq<AppxPackage>)
    returns (kept: nat, suppressed: seq<string>, dropped: seq<string>, ghost byName: map<string, AppxVersions>)
    modifies pkgs
    ensures IsIndex(byName, appx)
    ensures kept <= pkgs.Length && pkgs[..kept] == Survivors(old(pkgs[..]), origins, Search(byName))
    ensures pkgs[kept..] == old(pkgs[kept..])
    ensures suppressed == NamesWhere(old(pkgs[..]), origins, Search(byName), false)
    ensures dropped == NamesWhere(old(pkgs[..]), origins, Search(byName), true)
  {
    hide Judge, IsIndex, RowVersions;
    ghost var rows := pkgs[..];
    var index := IndexAppxPackages(appx);
    byName := index;
    ghost var lookup := Search(index);
    kept, suppressed, dropped := 0, [], [];
    for i := 0 to pkgs.Length
      invariant kept <= i && pkgs[..kept] == Survivors(rows[..i], origins, lookup)
      invariant pkgs[kept..] == rows[kept..]
      invariant suppressed == NamesWhere(rows[..i], origins, lookup, false)
      invariant dropped == NamesWhere(rows[..i], origins, lookup, true)
    {
      assert rows[..i + 1][..i] == rows[..i];
      assert pkgs[i] == pkgs[kept..][i - kept] == rows[i];
      var p := pkgs[i];
      var o := OriginAt(origins, i);
      var l := AppxVersionsForRow(index, p, o);
      assert l == lookup(p, o);
      match Judge(p, o, l) {
        case Drop => dropped := dropped + [p.name];
        case Keep(q) => kept := Put(pkgs, kept, q, rows);
        case Suppress(q) =>
          suppressed := suppressed + [p.name];
          kept := Put(pkgs, kept, q, rows);
      }
    }
    assert rows[..pkgs.Length] == rows;
  }

  method Put(pkgs: array<Package>, at: nat, p: Package, ghost rows: seq<Package>) returns (next: nat)
    requires at < pkgs.Length == |rows| && pkgs[at..] == rows[at..]
    modifies pkgs
    ensures next == at + 1 && pkgs[..next] == old(pkgs[..at]) + [p] && pkgs[next..] == rows[next..]
  {
    pkgs[at] := p;
    next := at + 1;
    assert rows[next..] == rows[at..][1..];
  }
}
