/** The index of installed Appx packages and the search for a row's versions in it
    (packages/windows.go, indexAppxPackages and appxVersionsForRow). */
module AppxIndex {
  import opened Options
  import opened Keys
  import opened Text
  import opened DottedVersions
  import opened RegistryMerge

  /** installed is "" when no user has the package installed. */
  datatype AppxVersions = AppxVersions(installed: string, present: bool, staged: seq<string>)

  datatype Lookup = NotFound | Found(versions: AppxVersions, exact: bool)

  predicate NewerThan(installed: string, staged: string) {
    match CompareDotted(installed, staged) case Some(c) => c > 0 case None => false
  }

  predicate Numeric(v: string) { Components(v).Some? }

  // ----- the index of Appx packages

  datatype AppxPackage = AppxPackage(name: string, version: string, states: string)

  predicate IsComma(c: char) { c == ',' }

  /** The install states of a package, one for each user that knows it. */
  function States(s: string): (r: seq<string>)
    ensures r != []
  {
    var i := IndexWhere(s, IsComma);
    if i == |s| then [TrimSpace(s)] else [TrimSpace(s[..i])] + States(s[i + 1..])
  }

  function StatesOf(a: AppxPackage): seq<string> { States(ToLower(a.states)) }

  predicate HasState(states: seq<string>, state: string) { state in states }

  predicate IsAbsentState(state: string) { state == "" || state == "notinstalled" || state == "staged" }

  predicate HasPresentState(states: seq<string>) {
    exists k :: 0 <= k < |states| && !IsAbsentState(states[k])
  }

  predicate IsInstalled(a: AppxPackage) { HasState(StatesOf(a), "installed") }

  predicate IsPresent(a: AppxPackage) { HasPresentState(StatesOf(a)) }

  /** Staged for the machine, and no user has it. */
  predicate IsStagedOnly(a: AppxPackage) { HasState(StatesOf(a), "staged") && !IsPresent(a) }

  method ReadStates(a: AppxPackage) returns (installed: bool, present: bool, staged: bool)
    ensures installed == IsInstalled(a) && present == IsPresent(a)
    ensures staged == HasState(StatesOf(a), "staged")
  {
    installed, present, staged := false, false, false;
    var states := StatesOf(a);
    for k := 0 to |states|
      invariant installed == HasState(states[..k], "installed") && staged == HasState(states[..k], "staged")
      invariant present == HasPresentState(states[..k])
    {
      assert states[..k + 1] == states[..k] + [states[k]];
      assert forall j :: 0 <= j < k ==> states[..k + 1][j] == states[..k][j];
      assert states[..k + 1][k] == states[k];
      if states[k] == "" || states[k] == "notinstalled" {
        continue;
      }
      if states[k] == "staged" {
        staged := true;
      } else if states[k] == "installed" {
        installed, present := true, true;
      } else {
        present := true;
      }
    }
    assert states[..|states|] == states;
  }

  function JoinCommas(fields: seq<string>): string {
    if fields == [] then "" else if |fields| == 1 then fields[0] else fields[0] + "," + JoinCommas(fields[1..])
  }

  /** The states are the fields between commas, without the spaces around them. */
  lemma {:induction false} StatesAreFields(fields: seq<string>)
    requires fields != [] && forall i :: 0 <= i < |fields| ==> ',' !in fields[i]
    ensures |States(JoinCommas(fields))| == |fields|
    ensures forall i :: 0 <= i < |fields| ==> States(JoinCommas(fields))[i] == TrimSpace(fields[i])
  {
    hide TrimSpace;
    if |fields| > 1 {
      StatesAreFields(fields[1..]);
      CutComma(fields[0], JoinCommas(fields[1..]));
      hide IndexWhere;
    } else {
      IndexWhereIs(fields[0], IsComma, |fields[0]|);
    }
  }

  lemma CutComma(f: string, rest: string)
    requires ',' !in f
    ensures var s := f + "," + rest;
            IndexWhere(s, IsComma) == |f| < |s| && s[..|f|] == f && s[|f| + 1..] == rest
  {
    var s := f + "," + rest;
    assert forall i :: 0 <= i < |f| ==> s[i] == f[i] && f[i] in f;
    IndexWhereIs(s, IsComma, |f|);
  }

  /** A package is present when some user has a state other than none, staged and not
      installed, which makes it installed for some user or staged for the machine only. */
  lemma {:induction false} PresenceMeans(a: AppxPackage)
    ensures IsInstalled(a) <==> "installed" in StatesOf(a)
    ensures IsPresent(a) <==> exists x :: x in StatesOf(a) && x !in {"", "notinstalled", "staged"}
    ensures IsStagedOnly(a) <==>
              "staged" in StatesOf(a) && forall x :: x in StatesOf(a) ==> x in {"", "notinstalled", "staged"}
  {
    hide StatesOf;
    var states := StatesOf(a);
    if x :| x in states && x !in {"", "notinstalled", "staged"} {
      var k :| 0 <= k < |states| && states[k] == x;
      assert !IsAbsentState(states[k]);
    }
    if HasPresentState(states) {
      var k :| 0 <= k < |states| && !IsAbsentState(states[k]);
      assert states[k] in states;
    }
  }

  const NO_VERSIONS := AppxVersions("", false, [])

  /** What one more package of a name adds. */
  function AddVersion(v: AppxVersions, a: AppxPackage): AppxVersions {
    var w := v.(present := v.present || IsPresent(a));
    if IsInstalled(a) then
      if v.installed == "" || NewerThan(a.version, v.installed) then w.(installed := a.version) else w
    else if IsStagedOnly(a) then w.(staged := v.staged + [a.version])
    else w
  }

  function Versions(entries: seq<AppxPackage>): AppxVersions {
    if entries == [] then NO_VERSIONS
    else AddVersion(Versions(entries[..|entries| - 1]), entries[|entries| - 1])
  }

  /** The packages of a name that have a numeric version. */
  function Entries(appx: seq<AppxPackage>, name: string): seq<AppxPackage> {
    if appx == [] then []
    else
      var a := appx[|appx| - 1];
      Entries(appx[..|appx| - 1], name) + if Numeric(a.version) && NormalName(a.name) == name then [a] else []
  }

  ghost predicate IsIndex(byName: map<string, AppxVersions>, appx: seq<AppxPackage>) {
    && (forall n :: n in byName <==> Entries(appx, n) != [])
    && (forall n :: n in byName ==> byName[n] == Versions(Entries(appx, n)))
  }

  method IndexAppxPackages(appx: seq<AppxPackage>) returns (byName: map<string, AppxVersions>)
    ensures IsIndex(byName, appx)
  {
    hide AddVersion, Numeric, NormalName, IsIndex;
    byName := map[];
    EmptyIndex();
    for k := 0 to |appx|
      invariant IsIndex(byName, appx[..k])
    {
      var a := appx[k];
      IndexStep(byName, appx, k);
      if !Numeric(a.version) {
        continue;
      }
      var key := NormalName(a.name);
      var v := if key in byName then byName[key] else NO_VERSIONS;
      v := WithPackage(v, a);
      byName := byName[key := v];
    }
    assert appx[..|appx|] == appx;
  }

  method WithPackage(v: AppxVersions, a: AppxPackage) returns (w: AppxVersions)
    ensures w == AddVersion(v, a)
  {
    hide IsInstalled, IsPresent, StatesOf, CompareDotted;
    w := v;
    var installed, present, staged := ReadStates(a);
    if present {
      w := w.(present := true);
    }
    if installed {
      var c, ok := CompareDottedVersions(a.version, v.installed);
      if v.installed == "" || (ok && c > 0) {
        w := w.(installed := a.version);
      }
    } else if staged && !present {
      w := w.(staged := v.staged + [a.version]);
    }
  }

  lemma EmptyIndex()
    ensures IsIndex(map[], [])
  {
  }

  lemma EntriesStep(appx: seq<AppxPackage>, k: nat, n: string)
    requires k < |appx|
    ensures Entries(appx[..k + 1], n) ==
            if Numeric(appx[k].version) && NormalName(appx[k].name) == n then Entries(appx[..k], n) + [appx[k]]
            else Entries(appx[..k], n)
  {
    hide Numeric, NormalName;
    assert appx[..k + 1][..k] == appx[..k];
    assert Entries(appx[..k], n) + [] == Entries(appx[..k], n);
  }

  lemma VersionsAppend(entries: seq<AppxPackage>, a: AppxPackage)
    ensures Versions(entries + [a]) == AddVersion(Versions(entries), a) && Versions([]) == NO_VERSIONS
  {
    hide AddVersion;
    assert (entries + [a])[..|entries|] == entries;
  }

  lemma IndexAt(byName: map<string, AppxVersions>, appx: seq<AppxPackage>, n: string)
    requires IsIndex(byName, appx)
    ensures n in byName <==> Entries(appx, n) != []
    ensures n in byName ==> byName[n] == Versions(Entries(appx, n))
  {
  }

  lemma IndexEntry(byName: map<string, AppxVersions>, next: map<string, AppxVersions>, appx: seq<AppxPackage>,
                   k: nat, n: string)
    requires k < |appx| && IsIndex(byName, appx[..k])
    requires var key, a := NormalName(appx[k].name), appx[k];
             var v := if key in byName then byName[key] else NO_VERSIONS;
             next == if Numeric(a.version) then byName[key := AddVersion(v, a)] else byName
    ensures n in next <==> Entries(appx[..k + 1], n) != []
    ensures n in next ==> next[n] == Versions(Entries(appx[..k + 1], n))
  {
    IndexAt(byName, appx[..k], n);
    EntriesStep(appx, k, n);
    VersionsAppend(Entries(appx[..k], n), appx[k]);
    hide IsIndex, AddVersion, Numeric, NormalName, Versions, Entries;
  }

  lemma IndexStep(byName: map<string, AppxVersions>, appx: seq<AppxPackage>, k: nat)
    requires k < |appx| && IsIndex(byName, appx[..k])
    ensures var key, a := NormalName(appx[k].name), appx[k];
            var v := if key in byName then byName[key] else NO_VERSIONS;
            IsIndex(if Numeric(a.version) then byName[key := AddVersion(v, a)] else byName, appx[..k + 1])
  {
    hide AddVersion, Numeric, NormalName;
    var a, key := appx[k], NormalName(appx[k].name);
    var v := if key in byName then byName[key] else NO_VERSIONS;
    var next := if Numeric(a.version) then byName[key := AddVersion(v, a)] else byName;
    forall n
      ensures n in next <==> Entries(appx[..k + 1], n) != []
      ensures n in next ==> next[n] == Versions(Entries(appx[..k + 1], n))
    {
      IndexEntry(byName, next, appx, k, n);
    }
  }

  predicate AllNumeric(entries: seq<AppxPackage>) {
    forall k :: 0 <= k < |entries| ==> Numeric(entries[k].version)
  }

  lemma VersionsStep(entries: seq<AppxPackage>)
    requires entries != []
    ensures var v, w, a := Versions(entries[..|entries| - 1]), Versions(entries), entries[|entries| - 1];
            && w.present == (v.present || IsPresent(a))
            && w.staged == v.staged + (if !IsInstalled(a) && IsStagedOnly(a) then [a.version] else [])
            && w.installed == (if IsInstalled(a) && (v.installed == "" || NewerThan(a.version, v.installed))
                               then a.version else v.installed)
  {
    hide IsPresent, IsInstalled, IsStagedOnly, NewerThan;
  }

  lemma InitMembers(entries: seq<AppxPackage>)
    requires entries != []
    ensures forall a :: a in entries <==> a in entries[..|entries| - 1] || a == entries[|entries| - 1]
  {
    assert entries == entries[..|entries| - 1] + [entries[|entries| - 1]];
  }

  lemma {:induction false} PresentIs(entries: seq<AppxPackage>)
    ensures Versions(entries).present <==> exists a :: a in entries && IsPresent(a)
  {
    if entries != [] {
      PresentIs(entries[..|entries| - 1]);
      VersionsStep(entries);
      InitMembers(entries);
      hide IsPresent, Versions;
    }
  }

  lemma {:induction false} StagedIs(entries: seq<AppxPackage>)
    ensures forall x :: x in Versions(entries).staged <==>
              exists a :: a in entries && !IsInstalled(a) && IsStagedOnly(a) && a.version == x
  {
    if entries != [] {
      StagedIs(entries[..|entries| - 1]);
      VersionsStep(entries);
      InitMembers(entries);
      hide IsInstalled, IsStagedOnly, Versions;
    }
  }

  /** Which version is recorded as installed: one that is, and none is newer. */
  ghost predicate IsNewest(installed: string, entries: seq<AppxPackage>) {
    && (exists a :: a in entries && IsInstalled(a) && a.version == installed)
    && (forall a :: a in entries && IsInstalled(a) ==> !NewerThan(a.version, installed))
  }

  ghost predicate SomeInstalled(entries: seq<AppxPackage>) { exists a :: a in entries && IsInstalled(a) }

  lemma {:induction false} InstalledIs(entries: seq<AppxPackage>)
    requires AllNumeric(entries)
    ensures if SomeInstalled(entries) then IsNewest(Versions(entries).installed, entries)
            else Versions(entries).installed == ""
  {
    if entries != [] {
      var init, last := entries[..|entries| - 1], entries[|entries| - 1];
      InstalledIs(init);
      VersionsStep(entries);
      InitMembers(entries);
      hide IsInstalled, NewerThan, Versions, Numeric;
      if IsInstalled(last) {
        NewestNext(entries, Versions(init).installed);
      }
    }
  }

  /** One more installed version: the recorded one stays, or the new one takes its place. */
  lemma NewestNext(entries: seq<AppxPackage>, installed: string)
    requires entries != [] && AllNumeric(entries) && IsInstalled(entries[|entries| - 1])
    requires var init := entries[..|entries| - 1];
             if SomeInstalled(init) then IsNewest(installed, init) else installed == ""
    ensures var last := entries[|entries| - 1];
            var newer := installed == "" || NewerThan(last.version, installed);
            IsNewest(if newer then last.version else installed, entries)
  {
    var init, last := entries[..|entries| - 1], entries[|entries| - 1];
    InitMembers(entries);
    assert AllNumeric(init) && Numeric(last.version);
    NumericIsText(last.version);
    NotNewer(last.version, last.version, last.version);
    hide IsInstalled, NewerThan, AllNumeric, Numeric, IsNewest;
    if SomeInstalled(init) {
      NumbersHaveText(init);
      NewestHasText(init, installed);
      NoneBeats(init, installed, last.version);
      if !NewerThan(last.version, installed) {
        KeepNewest(entries, installed);
        return;
      }
    }
    TakeNewest(entries);
  }

  lemma NewestHasText(entries: seq<AppxPackage>, installed: string)
    requires IsNewest(installed, entries) && forall a :: a in entries ==> a.version != ""
    ensures installed != ""
  {
  }

  lemma KeepNewest(entries: seq<AppxPackage>, installed: string)
    requires entries != [] && IsNewest(installed, entries[..|entries| - 1])
    requires !NewerThan(entries[|entries| - 1].version, installed)
    ensures IsNewest(installed, entries)
  {
    InitMembers(entries);
    hide IsInstalled, NewerThan;
  }

  lemma TakeNewest(entries: seq<AppxPackage>)
    requires entries != [] && IsInstalled(entries[|entries| - 1])
    requires var version := entries[|entries| - 1].version;
             !NewerThan(version, version) &&
             forall a :: a in entries[..|entries| - 1] && IsInstalled(a) ==> !NewerThan(a.version, version)
    ensures IsNewest(entries[|entries| - 1].version, entries)
  {
    InitMembers(entries);
    hide IsInstalled, NewerThan;
  }

  lemma NoneBeats(entries: seq<AppxPackage>, installed: string, version: string)
    requires AllNumeric(entries) && IsNewest(installed, entries) && Numeric(version)
    ensures NewerThan(version, installed) ==>
              forall a :: a in entries && IsInstalled(a) ==> !NewerThan(a.version, version)
  {
    NumbersHaveText(entries);
    hide IsInstalled, NewerThan, AllNumeric, Numeric;
    forall a | a in entries && IsInstalled(a) && NewerThan(version, installed)
      ensures !NewerThan(a.version, version)
    {
      NotNewer(a.version, installed, version);
    }
  }

  lemma NumbersHaveText(entries: seq<AppxPackage>)
    requires AllNumeric(entries)
    ensures forall a :: a in entries ==> Numeric(a.version) && a.version != ""
  {
    forall a | a in entries ensures Numeric(a.version) && a.version != "" {
      NumericIsText(a.version);
    }
  }

  lemma NumericIsText(v: string)
    ensures Numeric(v) ==> v != ""
  {
  }

  /** A version not newer than one below another is not newer than that other. */
  lemma NotNewer(a: string, b: string, c: string)
    requires Numeric(a) && Numeric(b) && Numeric(c)
    ensures !NewerThan(a, b) && NewerThan(c, b) ==> !NewerThan(a, c)
    ensures !NewerThan(a, a)
  {
    CompareDottedOrderLaws(a, b, c);
    CompareDottedOrderLaws(b, c, b);
    CompareDottedOrderLaws(a, a, a);
    hide Components, CompareDotted;
  }

  /** What the entry of a name says: whether some user has the package, its newest installed
      version, and the versions that are staged and nobody has. */
  lemma {:induction false} IndexSays(byName: map<string, AppxVersions>, appx: seq<AppxPackage>, n: string)
    requires IsIndex(byName, appx) && n in byName
    ensures var v, entries := byName[n], Entries(appx, n);
            && (v.present <==> exists a :: a in entries && IsPresent(a))
            && (if SomeInstalled(entries) then IsNewest(v.installed, entries) else v.installed == "")
            && (forall x :: x in v.staged <==>
                  exists a :: a in entries && !IsInstalled(a) && IsStagedOnly(a) && a.version == x)
  {
    PresentIs(Entries(appx, n));
    StagedIs(Entries(appx, n));
    EntriesAreNumeric(appx, n);
    InstalledIs(Entries(appx, n));
  }

  lemma {:induction false} EntriesAreNumeric(appx: seq<AppxPackage>, n: string)
    ensures AllNumeric(Entries(appx, n))
    ensures forall a :: a in Entries(appx, n) <==> a in appx && Numeric(a.version) && NormalName(a.name) == n
  {
    if appx != [] {
      EntriesAreNumeric(appx[..|appx| - 1], n);
      EntriesStep(appx, |appx| - 1, n);
      assert appx[..|appx|] == appx;
      InitMembers(appx);
      hide Numeric, NormalName, Entries;
      OneMoreEntry(Entries(appx[..|appx| - 1], n), appx[|appx| - 1]);
    }
  }

  lemma OneMoreEntry(entries: seq<AppxPackage>, a: AppxPackage)
    ensures forall x :: x in entries + [a] <==> x in entries || x == a
    ensures AllNumeric(entries) && Numeric(a.version) ==> AllNumeric(entries + [a])
  {
    hide Numeric;
  }

  // ----- the versions of a row

  predicate IsAlnum(c: char) { IsDigit(c) || IsLetter(c) }

  /** The name in a package family name: letters, digits, dots and dashes, an underscore
      and a hash of thirteen lower-case letters and digits. */
  predicate IsFamilyName(id: string) {
    && |id| >= 15 && id[|id| - 14] == '_' && IsAlnum(id[0])
    && (forall i :: 0 <= i < |id| - 14 ==> IsAlnum(id[i]) || id[i] == '.' || id[i] == '-')
    && (forall i :: |id| - 13 <= i < |id| ==> IsDigit(id[i]) || IsLowerLetter(id[i]))
  }

  function FamilyPart(id: string): string
    requires IsFamilyName(id)
  {
    id[..|id| - 14]
  }

  /** A family name is a name, an underscore and a hash, and the name is read from it. */
  lemma {:induction false} FamilyMeans(name: string, hash: string)
    requires |hash| == 13
    ensures IsFamilyName(name + "_" + hash) <==>
              && name != "" && IsAlnum(name[0])
              && (forall i :: 0 <= i < |name| ==> IsAlnum(name[i]) || name[i] in ".-")
              && forall i :: 0 <= i < 13 ==> IsDigit(hash[i]) || IsLowerLetter(hash[i])
    ensures IsFamilyName(name + "_" + hash) ==> FamilyPart(name + "_" + hash) == name
  {
    var id := name + "_" + hash;
    assert id[|name|] == '_' && id[..|name|] == name;
    assert forall i :: 0 <= i < |name| ==> id[i] == name[i];
    assert forall i :: 0 <= i < 13 ==> id[|name| + 1 + i] == hash[i];
    hide IsAlnum, IsDigit, IsLowerLetter;
    if IsFamilyName(id) {
      forall i | 0 <= i < 13 ensures IsDigit(hash[i]) || IsLowerLetter(hash[i]) {
        assert id[|id| - 13 + i] == hash[i];
      }
    }
  }

  predicate LooksLikeAppxName(name: string) { '.' in name && ' ' !in name && '\t' !in name }

  /** The one name in the index that begins so. */
  ghost predicate IsOnlyMatch(byName: map<string, AppxVersions>, name: string, k: string) {
    name != "" && k in byName && HasPrefix(k, name) && forall j :: j in byName && HasPrefix(j, name) ==> j == k
  }

  /** The entry of a name, or of the one longer name that begins so. */
  ghost function VersionsFor(byName: map<string, AppxVersions>, name: string): Lookup {
    if name in byName then Found(byName[name], true)
    else if exists k :: IsOnlyMatch(byName, name, k) then
      var k :| IsOnlyMatch(byName, name, k);
      Found(byName[k], false)
    else NotFound
  }

  /** The search goes over the names in any order; the result is the same. */
  method AppxVersionsFor(byName: map<string, AppxVersions>, name: string) returns (l: Lookup)
    ensures l == VersionsFor(byName, name)
  {
    if name in byName {
      return Found(byName[name], true);
    }
    var names := byName.Keys;
    var found: Option<string> := None;
    while names != {}
      invariant names <= byName.Keys
      invariant found == None ==> forall j :: j in byName.Keys - names ==> name == "" || !HasPrefix(j, name)
      invariant found != None ==>
                  name != "" && found.value in byName.Keys - names && HasPrefix(found.value, name) &&
                  forall j :: j in byName.Keys - names && HasPrefix(j, name) ==> j == found.value
      decreases |names|
    {
      var k :| k in names;
      names := names - {k};
      if name != "" && HasPrefix(k, name) {
        if found != None {
          NoOnlyMatch(byName, name, k, found.value);
          return NotFound;
        }
        found := Some(k);
      }
    }
    if found == None {
      return NotFound;
    }
    assert IsOnlyMatch(byName, name, found.value);
    return Found(byName[found.value], false);
  }

  lemma NoOnlyMatch(byName: map<string, AppxVersions>, name: string, j: string, k: string)
    requires j in byName && k in byName && j != k && HasPrefix(j, name) && HasPrefix(k, name)
    ensures forall x :: !IsOnlyMatch(byName, name, x)
  {
  }

  /** appxVersionsForRow: by family name for a row that is winget's alone, else by a name
      that looks like a package's. */
  ghost function RowVersions(byName: map<string, AppxVersions>, p: Package, o: Origin): Lookup {
    if !o.registry && IsFamilyName(o.wingetID) && NormalName(FamilyPart(o.wingetID)) in byName then
      Found(byName[NormalName(FamilyPart(o.wingetID))], true)
    else if LooksLikeAppxName(p.name) then VersionsFor(byName, NormalName(p.name))
    else NotFound
  }

  method AppxVersionsForRow(byName: map<string, AppxVersions>, p: Package, o: Origin) returns (l: Lookup)
    ensures l == RowVersions(byName, p, o)
  {
    hide IsFamilyName, NormalName, VersionsFor;
    if !o.registry && IsFamilyName(o.wingetID) {
      var name := NormalName(FamilyPart(o.wingetID));
      if name in byName {
        return Found(byName[name], true);
      }
    }
    if LooksLikeAppxName(p.name) {
      l := AppxVersionsFor(byName, NormalName(p.name));
    } else {
      l := NotFound;
    }
  }

  /** Which entry a row finds: its family's, if it is winget's alone; else, if its name has a
      dot and no blanks, that name's or the one longer name's that begins so. */
  lemma {:induction false} RowFinds(byName: map<string, AppxVersions>, p: Package, o: Origin)
    ensures var n := ToLower(TrimSpace(p.name));
            var byFamily := !o.registry && IsFamilyName(o.wingetID) &&
                            ToLower(TrimSpace(FamilyPart(o.wingetID))) in byName;
            var byRow := !byFamily && '.' in p.name && ' ' !in p.name && '\t' !in p.name;
            match RowVersions(byName, p, o)
            case Found(v, exact) =>
              || (byFamily && exact && v == byName[ToLower(TrimSpace(FamilyPart(o.wingetID)))])
              || (byRow && exact && n in byName && v == byName[n])
              || (byRow && !exact && n !in byName && exists k :: IsOnlyMatch(byName, n, k) && v == byName[k])
            case NotFound => !byFamily && (byRow ==> n !in byName && !exists k :: IsOnlyMatch(byName, n, k))
  {
    hide IsFamilyName, TrimSpace, IsOnlyMatch;
  }

  /** The search as a function of a row. */
  ghost function Search(byName: map<string, AppxVersions>): (Package, Origin) -> Lookup {
    (p: Package, o: Origin) => RowVersions(byName, p, o)
  }
}
