/** The agent's configuration and its file as values (config/config.go): what each
    operation makes of them, and what every sequence of operations keeps. */
module ConfigState {
  import opened Options
  import opened Text
  import PkgVersion

  /** A decoded YAML value; Other is any value the code does not look into. */
  datatype Value = Bool(b: bool) | Text(s: string) | Number(n: int) | Nested(m: map<string, Value>) | Other

  type Integrations = map<string, Value>

  /** The settings but for the integrations; rest stands for those only copied around. */
  datatype Settings = Settings(server: string, updateInterval: int, reportOffset: int, refreshMode: string,
                               refreshMaxAge: int, dockerCheck: Option<bool>, dockerHours: int,
                               apkSecDB: Option<bool>, hostID: string, configVersion: string, rest: string)

  /** A readable config file: the keys it has. */
  datatype Document = Document(server: Option<string>, updateInterval: Option<int>, reportOffset: Option<int>,
                               refreshMode: Option<string>, refreshMaxAge: Option<int>,
                               dockerCheck: Option<bool>, dockerHours: Option<int>, apkSecDB: Option<bool>,
                               hostID: Option<string>, configVersion: Option<string>, rest: Option<string>,
                               integrations: Option<Integrations>)

  /** The config file: absent, not decodable, without any setting, or a document. */
  datatype File = Missing | Garbled(text: string) | Blank(text: string) | Readable(doc: Document)

  datatype LoadError = Unreadable | NoSettings

  datatype State = State(loadErr: Option<LoadError>, file: File, settings: Settings, integrations: Integrations)

  // ----- integrations

  const COMPLIANCE := "compliance"
  const FLAT_OPENSCAP := "compliance_openscap_enabled"
  const FLAT_DOCKER_BENCH := "compliance_docker_bench_enabled"
  const ENABLED := "enabled"
  const OPENSCAP := "openscap_enabled"
  const DOCKER_BENCH := "docker_bench_enabled"
  const SCAN_INTERVAL := "scan_interval"

  const AVAILABLE := ["docker", COMPLIANCE, "ssh-proxy-enabled", "rdp-proxy-enabled"]

  function NestedOf(i: Integrations): map<string, Value> {
    if COMPLIANCE in i && i[COMPLIANCE].Nested? then i[COMPLIANCE].m else map[]
  }

  /** The "enabled" entry that a flat compliance value becomes. */
  function FlatEnabled(i: Integrations): Value {
    if COMPLIANCE !in i then Text("on-demand")
    else
      match i[COMPLIANCE]
      case Bool(b) => Bool(b)
      case Text(s) => if s == "disabled" || s == "false" then Bool(false) else Text(s)
      case _ => Text("on-demand")
  }

  function FlatToggle(i: Integrations, key: string, otherwise: bool): Value {
    if key in i && i[key].Bool? then i[key] else Bool(otherwise)
  }

  function WithDefault(m: map<string, Value>, key: string, v: Value): map<string, Value> {
    if key in m then m else m[key := v]
  }

  function NestedCompliance(i: Integrations): map<string, Value> {
    WithDefault(
      WithDefault(
        WithDefault(
          WithDefault(NestedOf(i), ENABLED, FlatEnabled(i)),
          OPENSCAP, FlatToggle(i, FLAT_OPENSCAP, true)),
        DOCKER_BENCH, FlatToggle(i, FLAT_DOCKER_BENCH, false)),
      SCAN_INTERVAL, Number(1440))
  }

  /** ensureComplianceNestedLocked. */
  function EnsureNested(i: Integrations): Integrations {
    i[COMPLIANCE := Nested(NestedCompliance(i))] - {FLAT_OPENSCAP, FLAT_DOCKER_BENCH}
  }

  /** Every available integration is present; missing ones are off. */
  function WithAvailable(i: Integrations): Integrations {
    WithDefault(WithDefault(WithDefault(i, "docker", Bool(false)), "ssh-proxy-enabled", Bool(false)),
                "rdp-proxy-enabled", Bool(false))
  }

  /** What a save leaves in memory. */
  function Completed(i: Integrations): Integrations { WithAvailable(EnsureNested(i)) }

  /** What a load makes of the compliance texts. */
  function NormalText(v: Value): Value {
    if v == Text("on-demand") || v == Text("on_demand") then Text("on-demand")
    else if v == Text("true") then Bool(true)
    else if v == Text("false") then Bool(false)
    else v
  }

  function LoadedIntegrations(doc: Option<Integrations>): Integrations {
    var i := if doc == None then map[] else doc.value;
    var a := WithDefault(WithAvailable(i), COMPLIANCE, Text("on-demand"));
    EnsureNested(a[COMPLIANCE := NormalText(a[COMPLIANCE])])
  }

  datatype Mode = Disabled | OnDemand | Enabled

  /** getComplianceValLocked: the nested entry, else the flat one. */
  function ValueOf(i: Integrations, key: string, flat: string): Option<Value> {
    if key in NestedOf(i) then Some(NestedOf(i)[key])
    else if flat in i then Some(i[flat])
    else None
  }

  /** getComplianceModeLocked. */
  function ComplianceMode(i: Integrations): Mode {
    match ValueOf(i, ENABLED, COMPLIANCE)
    case Some(Bool(b)) => if b then Enabled else Disabled
    case Some(Text(s)) => if s == "true" then Enabled else if s == "false" then Disabled else OnDemand
    case _ => OnDemand
  }

  function Toggle(i: Integrations, key: string, flat: string, otherwise: bool): bool {
    match ValueOf(i, key, flat)
    case Some(Bool(b)) => b
    case _ => otherwise
  }

  function OpenscapEnabled(i: Integrations): bool { Toggle(i, OPENSCAP, FLAT_OPENSCAP, true) }

  function DockerBenchEnabled(i: Integrations): bool { Toggle(i, DOCKER_BENCH, FLAT_DOCKER_BENCH, false) }

  /** Nesting keeps the reported mode of every value but the flat text "disabled", which
      reports on-demand before and disabled after. */
  lemma NestingKeepsMode(i: Integrations)
    ensures ComplianceMode(EnsureNested(i)) == ComplianceMode(i) <==>
            !(COMPLIANCE in i && i[COMPLIANCE] == Text("disabled"))
    ensures ComplianceMode(Completed(i)) == ComplianceMode(EnsureNested(i))
  {
    NestedStays(i);
  }

  /** The flat text "disabled": on-demand before, disabled after. */
  lemma {:induction false} DisabledTextChangesMode()
    ensures var i: Integrations := map[COMPLIANCE := Text("disabled")];
            ComplianceMode(i) == OnDemand && ComplianceMode(EnsureNested(i)) == Disabled
  {
    var i: Integrations := map[COMPLIANCE := Text("disabled")];
    NestedStays(i);
    hide NestedCompliance, EnsureNested;
  }

  lemma NestedStays(i: Integrations)
    ensures NestedOf(EnsureNested(i)) == NestedCompliance(i)
    ensures NestedOf(Completed(i)) == NestedCompliance(i)
    ensures ENABLED in NestedCompliance(i) && OPENSCAP in NestedCompliance(i) && DOCKER_BENCH in NestedCompliance(i)
    ensures NestedCompliance(i)[ENABLED] == if ENABLED in NestedOf(i) then NestedOf(i)[ENABLED] else FlatEnabled(i)
  {
  }

  /** The scanner toggles report the same before and after, whatever was stored. */
  lemma NestingKeepsScanners(i: Integrations)
    ensures OpenscapEnabled(EnsureNested(i)) == OpenscapEnabled(i)
    ensures DockerBenchEnabled(EnsureNested(i)) == DockerBenchEnabled(i)
  {
    NestedStays(i);
  }

  lemma {:induction false} NestingIsIdempotent(i: Integrations)
    ensures EnsureNested(EnsureNested(i)) == EnsureNested(i)
    ensures Completed(Completed(i)) == Completed(i)
  {
    NestedAgain(EnsureNested(i), NestedCompliance(i));
    NestedAgain(Completed(i), NestedCompliance(i));
  }

  lemma NestedAgain(i: Integrations, n: map<string, Value>)
    requires COMPLIANCE in i && i[COMPLIANCE] == Nested(n) && FLAT_OPENSCAP !in i && FLAT_DOCKER_BENCH !in i
    requires ENABLED in n && OPENSCAP in n && DOCKER_BENCH in n && SCAN_INTERVAL in n
    ensures EnsureNested(i) == i
  {
  }

  /** What a load makes of the stored mode. */
  lemma {:induction false} LoadKeepsMode(i: Integrations)
    ensures ComplianceMode(LoadedIntegrations(Some(i))) == ComplianceMode(i) <==>
            !(COMPLIANCE in i && i[COMPLIANCE] == Text("disabled"))
  {
    var a := WithDefault(WithAvailable(i), COMPLIANCE, Text("on-demand"));
    var b := a[COMPLIANCE := NormalText(a[COMPLIANCE])];
    NestingKeepsMode(b);
    hide EnsureNested, NestedCompliance, WithAvailable;
    AvailableKeepsCompliance(i);
    SameModeByText(i, b);
  }

  /** Reading a compliance text early does not change the mode it stands for. */
  lemma SameModeByText(i: Integrations, b: Integrations)
    requires COMPLIANCE in b
    requires b[COMPLIANCE] == NormalText(if COMPLIANCE in i then i[COMPLIANCE] else Text("on-demand"))
    ensures ComplianceMode(b) == ComplianceMode(i)
    ensures b[COMPLIANCE] == Text("disabled") <==> COMPLIANCE in i && i[COMPLIANCE] == Text("disabled")
  {
  }

  lemma AvailableKeepsCompliance(i: Integrations)
    ensures COMPLIANCE in i <==> COMPLIANCE in WithAvailable(i)
    ensures COMPLIANCE in i ==> WithAvailable(i)[COMPLIANCE] == i[COMPLIANCE]
  {
  }

  // ----- saving

  /** How a save that was not refused goes. */
  datatype SaveAnswer = NoDirectories | WriteFails | Replaced

  function DockerHours(h: int): int { if h < 1 then 6 else h }

  /** What is written. */
  function Rendered(s: Settings, i: Integrations, version: string): Document {
    Document(Some(s.server), Some(s.updateInterval), Some(s.reportOffset), Some(s.refreshMode),
             Some(s.refreshMaxAge), Some(s.dockerCheck == None || s.dockerCheck.value),
             Some(DockerHours(s.dockerHours)), Some(s.apkSecDB == None || s.apkSecDB.value),
             if s.hostID == "" then None else Some(s.hostID),
             Some(if s.configVersion == "" then version else s.configVersion), Some(s.rest), Some(i))
  }

  /** saveConfigLocked: refused while the last load failed. */
  function Saved(s: State, answer: SaveAnswer, version: string): (State, bool) {
    if s.loadErr != None || answer == NoDirectories then (s, false)
    else
      var t := s.(integrations := Completed(s.integrations));
      if answer == WriteFails then (t, false)
      else (t.(file := Readable(Rendered(t.settings, t.integrations, version))), true)
  }

  // ----- loading

  const MIGRATIONS := [PkgVersion.Step("2.1.4", PkgVersion.Migrate214)]

  /** migrateConfig on the two settings it touches. */
  function Migrated(hostID: string, configVersion: string, version: string): (string, string) {
    if configVersion == version then (hostID, configVersion)
    else (PkgVersion.RunSteps(PkgVersion.Config(hostID, configVersion), MIGRATIONS).0.hostID, version)
  }

  function Or<T>(o: Option<T>, otherwise: T): T { if o == None then otherwise else o.value }

  function OrKeep<T>(o: Option<T>, otherwise: Option<T>): Option<T> { if o == None then otherwise else o }

  /** The settings before the migration: absent keys keep their values, but for the host ID
      and the version, which the file alone decides. */
  function Overlaid(s: Settings, doc: Document): Settings {
    Settings(Or(doc.server, s.server),
             if Or(doc.updateInterval, s.updateInterval) <= 0 then 60
             else Or(doc.updateInterval, s.updateInterval),
             Or(doc.reportOffset, s.reportOffset), Or(doc.refreshMode, s.refreshMode),
             Or(doc.refreshMaxAge, s.refreshMaxAge), OrKeep(doc.dockerCheck, s.dockerCheck),
             Or(doc.dockerHours, s.dockerHours), OrKeep(doc.apkSecDB, s.apkSecDB),
             TrimSpace(Or(doc.hostID, "")), TrimSpace(Or(doc.configVersion, "")), Or(doc.rest, s.rest))
  }

  /** The state a readable document puts in memory, before it is saved back. */
  function Loaded(s: State, doc: Document, version: string): State {
    var o := Overlaid(s.settings, doc);
    var (hostID, configVersion) := Migrated(o.hostID, o.configVersion, version);
    State(None, s.file, o.(hostID := hostID, configVersion := configVersion), LoadedIntegrations(doc.integrations))
  }

  /** LoadConfig; fails says whether a file that is there cannot be read this time. */
  function Load(s: State, fails: bool, answer: SaveAnswer, version: string): (State, bool) {
    if s.file == Missing then (s.(loadErr := None), true)
    else if fails || s.file.Garbled? then (s.(loadErr := Some(Unreadable)), false)
    else if s.file.Blank? then (s.(loadErr := Some(NoSettings)), false)
    else
      var (t, ok) := Saved(Loaded(s, s.file.doc, version), answer, version);
      (if ok then t
       else t.(settings := t.settings.(configVersion := Overlaid(s.settings, s.file.doc).configVersion)), true)
  }

  // ----- the other operations

  datatype HostIDResult = Ignored | Adopted | Match | Conflict

  datatype Op =
    | LoadConfig(fails: bool)
    | SaveConfig
    | SetPatchmonServer(url: string)
    | SetUpdateInterval(interval: int)
    | SetReportOffset(offset: int)
    | SetPackageCacheRefresh(mode: string, maxAge: int)
    | SetIntegrationEnabled(name: string, enabled: bool)
    | SetComplianceMode(mode: string)
    | SetComplianceScanners(openscap: bool, dockerBench: bool)
    | AdoptHostID(serverID: string)
    | SetHostID(id: string)
    | ClearHostID
    | OtherWriter(file: File)

  function SetNested(i: Integrations, key: string, v: Value): Integrations {
    EnsureNested(i)[COMPLIANCE := Nested(NestedCompliance(i)[key := v])]
  }

  function ModeValue(mode: string): Option<Value> {
    if mode == "disabled" then Some(Bool(false))
    else if mode == "on-demand" then Some(Text("on-demand"))
    else if mode == "enabled" then Some(Bool(true))
    else None
  }

  /** setHostIDLocked: on failure the config before it comes back, but the integrations,
      which the two configs share, may have been completed. */
  function HostIDSet(s: State, id: string, answer: SaveAnswer, version: string): (State, bool) {
    var (t, ok) := Saved(s.(settings := s.settings.(hostID := id)), answer, version);
    (if ok then t else t.(settings := s.settings), ok)
  }

  function Adopt(s: State, id: string, answer: SaveAnswer, version: string): (State, HostIDResult, bool) {
    if !PkgVersion.ValidHostID(id) then (s, Ignored, true)
    else if s.settings.hostID == id then (s, Match, true)
    else if s.settings.hostID == "" then
      var (t, ok) := HostIDSet(s, id, answer, version);
      (t, if ok then Adopted else Ignored, ok)
    else (s, Conflict, true)
  }

  function ValidRefresh(mode: string, maxAge: int): bool {
    (mode == "always" || mode == "if_stale" || mode == "never") && 1 <= maxAge <= 1440
  }

  /** The state after an operation, and whether it reports success. */
  function Applied(s: State, op: Op, answer: SaveAnswer, version: string): (State, bool) {
    match op
    case LoadConfig(fails) => Load(s, fails, answer, version)
    case SaveConfig => Saved(s, answer, version)
    case SetPatchmonServer(url) =>
      Saved(s.(loadErr := None, settings := s.settings.(server := url)), answer, version)
    case SetUpdateInterval(n) =>
      if n <= 0 then (s, false) else Saved(s.(settings := s.settings.(updateInterval := n)), answer, version)
    case SetReportOffset(n) =>
      if n < 0 then (s, false) else Saved(s.(settings := s.settings.(reportOffset := n)), answer, version)
    case SetPackageCacheRefresh(mode, maxAge) =>
      if !ValidRefresh(mode, maxAge) then (s, false)
      else Saved(s.(settings := s.settings.(refreshMode := mode, refreshMaxAge := maxAge)), answer, version)
    case SetIntegrationEnabled(name, enabled) =>
      Saved(s.(integrations := if name == COMPLIANCE then SetNested(s.integrations, ENABLED, Bool(enabled))
                               else s.integrations[name := Bool(enabled)]), answer, version)
    case SetComplianceMode(mode) =>
      if ModeValue(mode) == None then (s.(integrations := EnsureNested(s.integrations)), false)
      else Saved(s.(integrations := SetNested(s.integrations, ENABLED, ModeValue(mode).value)), answer, version)
    case SetComplianceScanners(a, b) =>
      Saved(s.(integrations := SetNested(SetNested(s.integrations, OPENSCAP, Bool(a)), DOCKER_BENCH, Bool(b))),
            answer, version)
    case AdoptHostID(id) => var (t, _, ok) := Adopt(s, id, answer, version); (t, ok)
    case SetHostID(id) => if !PkgVersion.ValidHostID(id) then (s, false) else HostIDSet(s, id, answer, version)
    case ClearHostID => HostIDSet(s, "", answer, version)
    case OtherWriter(file) => (s.(file := file), true)
  }

  /** A mode that was set is the mode reported, whether or not the save worked. */
  lemma {:induction false} ModeSetIsReported(s: State, mode: string, answer: SaveAnswer, version: string)
    requires mode in {"disabled", "on-demand", "enabled"}
    ensures ComplianceMode(Applied(s, SetComplianceMode(mode), answer, version).0.integrations) ==
            if mode == "disabled" then Disabled else if mode == "on-demand" then OnDemand else Enabled
  {
    hide Load, HostIDSet, Adopt, SetNested, ComplianceMode, Saved;
    SavedMode(s, ModeValue(mode).value, answer, version);
  }

  lemma SavedMode(s: State, v: Value, answer: SaveAnswer, version: string)
    ensures var i := SetNested(s.integrations, ENABLED, v);
            ComplianceMode(Saved(s.(integrations := i), answer, version).0.integrations) ==
            match v case Bool(b) => (if b then Enabled else Disabled)
                    case Text(t) => (if t == "true" then Enabled else if t == "false" then Disabled else OnDemand)
                    case _ => OnDemand
  {
    var i := SetNested(s.integrations, ENABLED, v);
    NestedStays(i);
    hide EnsureNested, NestedCompliance, Rendered, Completed;
    assert NestedOf(i)[ENABLED] == v;
  }

  // ----- what the setters store

  /** The file holds these settings and integrations. */
  predicate FileHolds(f: File, s: Settings, i: Integrations) {
    && f.Readable? && f.doc.integrations == Some(i) && f.doc.server == Some(s.server)
    && f.doc.updateInterval == Some(s.updateInterval) && f.doc.reportOffset == Some(s.reportOffset)
    && f.doc.refreshMode == Some(s.refreshMode) && f.doc.refreshMaxAge == Some(s.refreshMaxAge)
    && f.doc.hostID == (if s.hostID == "" then None else Some(s.hostID)) && f.doc.rest == Some(s.rest)
  }

  /** A save fails when it is refused, before it touches anything, or at the file; one that
      works leaves in the file what is in memory. */
  lemma SaveStores(s: State, answer: SaveAnswer, version: string)
    ensures var (t, ok) := Saved(s, answer, version);
            && (ok <==> s.loadErr == None && answer == Replaced)
            && t.settings == s.settings && t.loadErr == s.loadErr
            && (if ok then FileHolds(t.file, t.settings, t.integrations) else t.file == s.file)
            && (s.loadErr != None || answer == NoDirectories ==> t == s)
  {
    hide Completed;
  }

  /** Each setter stores its value, if it is allowed, whether or not the save works; a
      value that is not allowed changes nothing. */
  lemma {:induction false} SettersStore(s: State, op: Op, answer: SaveAnswer, version: string)
    ensures var (t, ok) := Applied(s, op, answer, version);
            match op
            case SetUpdateInterval(n) =>
              if n > 0 then t.settings == s.settings.(updateInterval := n) else t == s && !ok
            case SetReportOffset(n) =>
              if n >= 0 then t.settings == s.settings.(reportOffset := n) else t == s && !ok
            case SetPackageCacheRefresh(mode, maxAge) =>
              if mode in {"always", "if_stale", "never"} && 1 <= maxAge <= 1440
              then t.settings == s.settings.(refreshMode := mode, refreshMaxAge := maxAge) else t == s && !ok
            case SetPatchmonServer(url) => t.settings == s.settings.(server := url) && t.loadErr == None
            case SetIntegrationEnabled(_, _) => t.settings == s.settings
            case SetComplianceMode(mode) =>
              && t.settings == s.settings
              && (mode !in {"disabled", "on-demand", "enabled"} ==>
                    t == s.(integrations := EnsureNested(s.integrations)) && !ok)
            case SetComplianceScanners(_, _) => t.settings == s.settings
            case _ => true
    ensures var (t, ok) := Applied(s, op, answer, version);
            ok && !op.LoadConfig? && !op.AdoptHostID? && !op.OtherWriter? ==>
              FileHolds(t.file, t.settings, t.integrations)
  {
    hide Saved, SetNested, EnsureNested, FileHolds, Load, Adopt;
    forall u: State ensures var (t, ok) := Saved(u, answer, version);
                            && t.settings == u.settings && t.loadErr == u.loadErr
                            && (ok ==> FileHolds(t.file, t.settings, t.integrations))
    {
      SaveStores(u, answer, version);
    }
  }

  /** The keys that are no plain switches. */
  predicate IsComplianceKey(name: string) {
    name in {"compliance", "compliance_openscap_enabled", "compliance_docker_bench_enabled"}
  }

  /** A plain switch holds what was set, the other ones what they held; a switch that was
      missing may turn up as off. */
  lemma {:induction false} SwitchIsStored(s: State, name: string, on: bool, answer: SaveAnswer, version: string)
    requires !IsComplianceKey(name)
    ensures var i := Applied(s, SetIntegrationEnabled(name, on), answer, version).0.integrations;
            && name in i && i[name] == Bool(on)
            && (forall n :: n in s.integrations && n != name && !IsComplianceKey(n) ==>
                  n in i && i[n] == s.integrations[n])
            && (forall n :: n in i && n !in s.integrations && n != name && !IsComplianceKey(n) ==>
                  n in {"docker", "ssh-proxy-enabled", "rdp-proxy-enabled"} && i[n] == Bool(false))
  {
    hide NestedCompliance, Rendered, Load, Adopt, Completed;
    CompletedSwitches(s.integrations[name := Bool(on)]);
  }

  /** Completing changes no plain switch, but missing ones turn up as off. */
  lemma CompletedSwitches(i: Integrations)
    ensures forall n :: n in i && !IsComplianceKey(n) ==> n in Completed(i) && Completed(i)[n] == i[n]
    ensures forall n :: n in Completed(i) && n !in i && !IsComplianceKey(n) ==>
              n in {"docker", "ssh-proxy-enabled", "rdp-proxy-enabled"} && Completed(i)[n] == Bool(false)
    ensures "docker" in Completed(i) && "ssh-proxy-enabled" in Completed(i) && "rdp-proxy-enabled" in Completed(i)
  {
    hide NestedCompliance;
  }

  /** The scanners are as they were set, and the mode is the one before. */
  lemma {:induction false} ScannersAreStored(s: State, openscap: bool, dockerBench: bool, answer: SaveAnswer,
          version: string)
    ensures var i := Applied(s, SetComplianceScanners(openscap, dockerBench), answer, version).0.integrations;
            && OpenscapEnabled(i) == openscap && DockerBenchEnabled(i) == dockerBench
            && ComplianceMode(i) == ComplianceMode(EnsureNested(s.integrations))
  {
    var i := SetNested(s.integrations, OPENSCAP, Bool(openscap));
    var j := SetNested(i, DOCKER_BENCH, Bool(dockerBench));
    NestedSet(s.integrations, OPENSCAP, Bool(openscap));
    NestedSet(i, DOCKER_BENCH, Bool(dockerBench));
    NestedStays(s.integrations);
    ScannersSaved(s, openscap, dockerBench, answer, version);
    hide EnsureNested, NestedCompliance, SetNested, Applied, Saved, NestedOf, ComplianceMode, Toggle;
    SavedKeepsNested(s.(integrations := j), answer, version);
    var t := Saved(s.(integrations := j), answer, version).0;
    ReportedByNested(t.integrations, EnsureNested(s.integrations), openscap, dockerBench);
  }

  lemma ScannersSaved(s: State, openscap: bool, dockerBench: bool, answer: SaveAnswer, version: string)
    ensures var i := SetNested(s.integrations, OPENSCAP, Bool(openscap));
            Applied(s, SetComplianceScanners(openscap, dockerBench), answer, version) ==
            Saved(s.(integrations := SetNested(i, DOCKER_BENCH, Bool(dockerBench))), answer, version)
  {
    hide SetNested, Saved;
  }

  lemma ReportedByNested(i: Integrations, j: Integrations, openscap: bool, dockerBench: bool)
    requires ENABLED in NestedOf(j)
    requires NestedOf(i) == NestedOf(j)[OPENSCAP := Bool(openscap)][DOCKER_BENCH := Bool(dockerBench)]
    ensures OpenscapEnabled(i) == openscap && DockerBenchEnabled(i) == dockerBench
    ensures ComplianceMode(i) == ComplianceMode(j)
  {
  }

  lemma {:induction false} NestedSet(i: Integrations, key: string, v: Value)
    requires key in {ENABLED, OPENSCAP, DOCKER_BENCH}
    ensures NestedOf(SetNested(i, key, v)) == NestedCompliance(i)[key := v]
    ensures NestedCompliance(SetNested(i, key, v)) == NestedCompliance(i)[key := v]
  {
  }

  lemma {:induction false} SavedKeepsNested(s: State, answer: SaveAnswer, version: string)
    requires NestedOf(s.integrations) == NestedCompliance(s.integrations)
    ensures NestedOf(Saved(s, answer, version).0.integrations) == NestedOf(s.integrations)
  {
    NestedStays(s.integrations);
    hide NestedCompliance, EnsureNested, Rendered, Completed;
  }

  /** What is reported, and completed to, when nothing is stored. */
  lemma DefaultsReported()
    ensures ComplianceMode(map[]) == OnDemand && OpenscapEnabled(map[]) && !DockerBenchEnabled(map[])
    ensures NestedCompliance(map[]) ==
            map["enabled" := Text("on-demand"), "openscap_enabled" := Bool(true),
                "docker_bench_enabled" := Bool(false), "scan_interval" := Number(1440)]
  {
  }

  // ----- runs

  datatype Step = Step(op: Op, answer: SaveAnswer)

  /** The state after a sequence of operations. */
  function After(s: State, steps: seq<Step>, version: string): State {
    if steps == [] then s
    else
      var last := steps[|steps| - 1];
      Applied(After(s, steps[..|steps| - 1], version), last.op, last.answer, version).0
  }

  /** The file as other programs left it last. */
  function LeftByOthers(file: File, steps: seq<Step>): File {
    if steps == [] then file
    else if steps[|steps| - 1].op.OtherWriter? then steps[|steps| - 1].op.file
    else LeftByOthers(file, steps[..|steps| - 1])
  }

  /** The step may lift the refusal to save: a new server address, or a load that does not
      fail. */
  predicate Lifts(s: State, step: Step, version: string) {
    step.op.SetPatchmonServer? || (step.op.LoadConfig? && Load(s, step.op.fails, step.answer, version).1)
  }

  ghost predicate NeverLifted(s: State, steps: seq<Step>, version: string) {
    forall k :: 0 <= k < |steps| ==> !Lifts(After(s, steps[..k], version), steps[k], version)
  }

  /** After a failed load no operation changes the file, until the refusal is lifted. */
  lemma {:induction false} UnreadableFileIsKept(s: State, steps: seq<Step>, version: string)
    requires s.loadErr != None && NeverLifted(s, steps, version)
    ensures After(s, steps, version).file == LeftByOthers(s.file, steps)
    ensures After(s, steps, version).loadErr != None
  {
    if steps != [] {
      var init, last := steps[..|steps| - 1], steps[|steps| - 1];
      forall k | 0 <= k < |init| ensures !Lifts(After(s, init[..k], version), init[k], version) {
        assert init[..k] == steps[..k];
        assert !Lifts(After(s, steps[..k], version), steps[k], version);
      }
      UnreadableFileIsKept(s, init, version);
      assert !Lifts(After(s, steps[..|init|], version), last, version);
      RefusedStep(After(s, init, version), last, version);
    }
  }

  lemma RefusedStep(s: State, step: Step, version: string)
    requires s.loadErr != None && !Lifts(s, step, version)
    ensures var t := Applied(s, step.op, step.answer, version).0;
            t.loadErr != None && t.file == if step.op.OtherWriter? then step.op.file else s.file
  {
    hide EnsureNested, NestedCompliance, Completed, Migrated, LoadedIntegrations, Overlaid;
  }

  /** A load that failed leaves the refusal in place and everything else alone; when it is
      there, the one operation besides a load that can write is a new server address. */
  lemma WhoWritesUnreadable(s: State, step: Step, version: string)
    requires s.loadErr != None && !step.op.OtherWriter?
    ensures Applied(s, step.op, step.answer, version).0.file != s.file ==>
              step.op.SetPatchmonServer? || (step.op.LoadConfig? && !step.op.fails && s.file.Readable?)
    ensures step.op.LoadConfig? && !Applied(s, step.op, step.answer, version).1 ==>
              var t := Applied(s, step.op, step.answer, version).0;
              t.loadErr != None && t == s.(loadErr := t.loadErr)
  {
    hide EnsureNested, NestedCompliance, Completed, Migrated, LoadedIntegrations, Overlaid, Rendered;
  }

  // ----- host IDs

  /** Only explicit commands and loads replace a host ID that is set. */
  lemma {:induction false} HostIDIsKept(s: State, steps: seq<Step>, version: string)
    requires s.settings.hostID != ""
    requires forall k :: 0 <= k < |steps| ==>
               !steps[k].op.SetHostID? && !steps[k].op.ClearHostID? && !steps[k].op.LoadConfig?
    ensures After(s, steps, version).settings.hostID == s.settings.hostID
  {
    if steps != [] {
      HostIDIsKept(s, steps[..|steps| - 1], version);
      hide EnsureNested, NestedCompliance, Completed, Rendered;
    }
  }

  /** Adopting takes an empty host ID, a valid one from the server and a save that worked;
      then the file carries it. Otherwise the settings and the file stay as they are. */
  lemma AdoptOnlyFillsIn(s: State, id: string, answer: SaveAnswer, version: string)
    ensures var (t, r, ok) := Adopt(s, id, answer, version);
            && (r == Adopted <==> s.settings.hostID == "" && PkgVersion.ValidHostID(id) &&
                                  s.loadErr == None && answer == Replaced)
            && (r == Adopted ==> t.settings == s.settings.(hostID := id) &&
                                 t.file.Readable? && t.file.doc.hostID == Some(id))
            && (r != Adopted ==> t.settings == s.settings && t.file == s.file && t.loadErr == s.loadErr)
            && (r == Match <==> PkgVersion.ValidHostID(id) && s.settings.hostID == id)
            && (r == Conflict <==> PkgVersion.ValidHostID(id) && s.settings.hostID !in {"", id})
            && (!ok <==> PkgVersion.ValidHostID(id) && s.settings.hostID == "" &&
                         !(s.loadErr == None && answer == Replaced))
  {
    hide EnsureNested, NestedCompliance, Completed;
  }

  /** A failed host ID save restores the whole state exactly when the save was refused early
      or the shared integrations were complete already; it always restores the rest. */
  lemma FailedHostIDSave(s: State, id: string, answer: SaveAnswer, version: string)
    requires !HostIDSet(s, id, answer, version).1
    ensures HostIDSet(s, id, answer, version).0.(integrations := s.integrations) == s
    ensures HostIDSet(s, id, answer, version).0 == s <==>
            s.loadErr != None || answer == NoDirectories || Completed(s.integrations) == s.integrations
  {
    hide Completed;
  }

  /** A write that fails leaves the default config's integrations completed. */
  lemma {:induction false} FailedWriteCompletes(s: State, id: string, version: string)
    requires s.loadErr == None && s.integrations == map[]
    ensures var (t, ok) := HostIDSet(s, id, WriteFails, version);
            !ok && t != s && t.settings == s.settings && COMPLIANCE in t.integrations
  {
    assert COMPLIANCE in Completed(s.integrations);
  }

  // ----- what a load takes from the file

  /** A key the file has is taken from it, an absent one keeps what is in memory; a host ID
      is taken from the file alone, and an interval that is not positive becomes an hour. */
  lemma {:induction false} FileOverlays(s: Settings, doc: Document)
    ensures var o := Overlaid(s, doc);
            && o.server == (if doc.server == None then s.server else doc.server.value)
            && o.reportOffset == (if doc.reportOffset == None then s.reportOffset else doc.reportOffset.value)
            && o.refreshMode == (if doc.refreshMode == None then s.refreshMode else doc.refreshMode.value)
            && o.refreshMaxAge == (if doc.refreshMaxAge == None then s.refreshMaxAge else doc.refreshMaxAge.value)
            && o.dockerHours == (if doc.dockerHours == None then s.dockerHours else doc.dockerHours.value)
            && o.rest == (if doc.rest == None then s.rest else doc.rest.value)
            && o.dockerCheck == (if doc.dockerCheck == None then s.dockerCheck else doc.dockerCheck)
            && o.apkSecDB == (if doc.apkSecDB == None then s.apkSecDB else doc.apkSecDB)
            && o.hostID == TrimSpace(if doc.hostID == None then "" else doc.hostID.value)
            && var n := if doc.updateInterval == None then s.updateInterval else doc.updateInterval.value;
               o.updateInterval == if n > 0 then n else 60
  {
    hide TrimSpace;
  }

  /** A load takes the plain switches the file has, and turns the missing ones off. */
  lemma {:induction false} LoadTakesSwitches(doc: Option<Integrations>)
    ensures var i, stored := LoadedIntegrations(doc), if doc == None then map[] else doc.value;
            && (forall n :: n in stored && !IsComplianceKey(n) ==> n in i && i[n] == stored[n])
            && (forall n :: n in i && n !in stored && !IsComplianceKey(n) ==>
                  n in {"docker", "ssh-proxy-enabled", "rdp-proxy-enabled"} && i[n] == Bool(false))
            && "docker" in i && "ssh-proxy-enabled" in i && "rdp-proxy-enabled" in i && COMPLIANCE in i
  {
    hide NestedCompliance;
  }

  /** What a file without integrations turns into, and the two spellings of on-demand. */
  lemma {:induction false} DefaultsLoaded()
    ensures NestedOf(LoadedIntegrations(None)) ==
            map["enabled" := Text("on-demand"), "openscap_enabled" := Bool(true),
                "docker_bench_enabled" := Bool(false), "scan_interval" := Number(1440)]
    ensures LoadedIntegrations(Some(map["compliance" := Text("on_demand")])) == LoadedIntegrations(None)
    ensures LoadedIntegrations(Some(map["compliance" := Text("on-demand")])) == LoadedIntegrations(None)
  {
    var a := WithDefault(WithAvailable(map[]), COMPLIANCE, Text("on-demand"));
    assert NormalText(a[COMPLIANCE]) == Text("on-demand") && a[COMPLIANCE := Text("on-demand")] == a;
    NestedStays(a);
    assert NestedOf(a) == map[] && FlatEnabled(a) == Text("on-demand");
    hide EnsureNested, FlatEnabled;
    SpellingLoadsAlike(Text("on_demand"));
    SpellingLoadsAlike(Text("on-demand"));
  }

  lemma {:induction false} SpellingLoadsAlike(v: Value)
    requires v == Text("on_demand") || v == Text("on-demand")
    ensures LoadedIntegrations(Some(map["compliance" := v])) == LoadedIntegrations(None)
  {
    hide EnsureNested;
    var t := Text("on-demand");
    var a, b := WithAvailable(map["compliance" := v]), WithDefault(WithAvailable(map[]), COMPLIANCE, t);
    assert a[COMPLIANCE] == v && NormalText(v) == t && WithDefault(a, COMPLIANCE, t) == a;
    assert a[COMPLIANCE := t] == b == b[COMPLIANCE := t];
  }

  /** No file keeps what is in memory; one that cannot be read or has no settings fails and
      keeps it too; any other is loaded, whether or not it can be saved back. */
  lemma {:induction false} LoadOutcome(s: State, fails: bool, answer: SaveAnswer, version: string)
    ensures var (t, ok) := Load(s, fails, answer, version);
            && (ok <==> s.file == Missing || (!fails && s.file.Readable?))
            && (ok <==> t.loadErr == None)
            && (s.file == Missing || !ok ==> t == s.(loadErr := t.loadErr))
            && (s.file.Readable? && ok ==>
                  t.settings.(hostID := "", configVersion := "") ==
                  Overlaid(s.settings, s.file.doc).(hostID := "", configVersion := ""))
  {
    hide Overlaid, LoadedIntegrations, Completed, Migrated, Rendered;
  }

  // ----- a saved config loads back

  /** The settings with the defaults a save writes out. */
  function Explicit(s: Settings): Settings {
    s.(dockerCheck := Some(s.dockerCheck == None || s.dockerCheck.value), dockerHours := DockerHours(s.dockerHours),
       apkSecDB := Some(s.apkSecDB == None || s.apkSecDB.value))
  }

  /** The version a save writes, as a load reads it. */
  function SavedVersion(s: Settings, version: string): string {
    TrimSpace(if s.configVersion == "" then version else s.configVersion)
  }

  /** A host ID without spaces around it, which is a proper one unless no step will run. */
  predicate HostIDStays(s: Settings, version: string) {
    && TrimSpace(s.hostID) == s.hostID
    && (s.hostID == "" || PkgVersion.ValidHostID(s.hostID) || SavedVersion(s, version) == version ||
        !PkgVersion.Applies(MIGRATIONS[0], SavedVersion(s, version)))
  }

  lemma MigratedIs(hostID: string, configVersion: string, version: string)
    ensures var step := configVersion != version && PkgVersion.Applies(MIGRATIONS[0], configVersion);
            Migrated(hostID, configVersion, version) ==
            (if step then PkgVersion.Migrate214(PkgVersion.Config(hostID, configVersion)).hostID else hostID,
             version)
  {
    var c := PkgVersion.Config(hostID, configVersion);
    assert MIGRATIONS[..|MIGRATIONS| - 1] == [];
    assert PkgVersion.RunSteps(c, []) == (c, []);
    hide PkgVersion.Applies, PkgVersion.Migrate214;
  }

  lemma {:induction false} HostIDStaysExactly(s: Settings, version: string)
    ensures Migrated(TrimSpace(s.hostID), SavedVersion(s, version), version).0 == s.hostID <==>
            HostIDStays(s, version)
    ensures Migrated(TrimSpace(s.hostID), SavedVersion(s, version), version).1 == version
  {
    MigratedIs(TrimSpace(s.hostID), SavedVersion(s, version), version);
    PkgVersion.TrimSpaceIdempotent(s.hostID);
    TrimNothing();
    hide Migrated, SavedVersion, TrimSpace, PkgVersion.Applies, PkgVersion.ValidHostID;
  }

  lemma RenderedOverlays(s: Settings, i: Integrations, memory: Settings, version: string)
    ensures Overlaid(memory, Rendered(s, i, version)) ==
            Explicit(s).(updateInterval := if s.updateInterval <= 0 then 60 else s.updateInterval,
                         hostID := TrimSpace(s.hostID), configVersion := SavedVersion(s, version))
  {
    hide TrimSpace;
    assert TrimSpace("") == "" by { TrimNothing(); }
  }

  lemma TrimNothing()
    ensures TrimSpace("") == ""
  {
  }

  lemma {:induction false} RenderedLoads(s: Settings, i: Integrations, memory: State, version: string)
    ensures var l := Loaded(memory, Rendered(s, i, version), version);
            && l.integrations == LoadedIntegrations(Some(i)) && l.loadErr == None
            && l.settings.(updateInterval := s.updateInterval, hostID := s.hostID) ==
               Explicit(s).(configVersion := version)
            && (l.settings.updateInterval == s.updateInterval <==> s.updateInterval > 0)
            && (l.settings.hostID == s.hostID <==> HostIDStays(s, version))
  {
    HostIDStaysExactly(s, version);
    RenderedOverlays(s, i, memory.settings, version);
    hide LoadedIntegrations, Overlaid, Migrated, TrimSpace, HostIDStays, SavedVersion;
  }

  lemma {:induction false} LoadReads(s: State, version: string)
    requires s.file.Readable?
    ensures var l := Loaded(s, s.file.doc, version);
            var u := Load(s, false, Replaced, version).0;
            u.settings == l.settings && u.integrations == Completed(l.integrations) && u.loadErr == None
  {
    hide Loaded, Completed, Overlaid, Rendered;
    assert Loaded(s, s.file.doc, version).loadErr == None by { LoadedIsFine(s, version); }
  }

  lemma LoadedIsFine(s: State, version: string)
    requires s.file.Readable?
    ensures Loaded(s, s.file.doc, version).loadErr == None
  {
    hide LoadedIntegrations, Overlaid, Migrated;
  }

  /** A config that was saved loads back as it was: the same integrations, and the same
      settings with their defaults made explicit and the version of the program. Only the
      interval and the host ID can come back changed, exactly when the interval is not
      positive or the host ID does not stay. */
  lemma {:induction false} SavedLoadsBack(s: State, memory: State, version: string)
    requires s.loadErr == None
    ensures var t := Saved(s, Replaced, version).0;
            t.file.Readable? &&
            var u := Load(memory.(file := t.file), false, Replaced, version).0;
            && u.integrations == t.integrations && u.loadErr == None
            && u.settings.(updateInterval := s.settings.updateInterval, hostID := s.settings.hostID) ==
               Explicit(s.settings).(configVersion := version)
            && (u.settings == Explicit(s.settings).(configVersion := version) <==>
                s.settings.updateInterval > 0 && HostIDStays(s.settings, version))
  {
    hide Completed, Rendered, Load, Loaded, LoadedIntegrations, Explicit, HostIDStays;
    var t := Saved(s, Replaced, version).0;
    var m := memory.(file := t.file);
    RenderedLoads(s.settings, t.integrations, m, version);
    LoadReads(m, version);
    CompletedLoadsBack(s.integrations);
    ExplicitKeeps(s.settings);
  }

  lemma ExplicitKeeps(s: Settings)
    ensures Explicit(s).updateInterval == s.updateInterval && Explicit(s).hostID == s.hostID
  {
  }

  lemma {:induction false} CompletedLoadsBack(i: Integrations)
    ensures LoadedIntegrations(Some(Completed(i))) == Completed(i)
    ensures Completed(Completed(i)) == Completed(i)
  {
    NestedStays(i);
    NestingIsIdempotent(i);
    NestedAgain(Completed(i), NestedCompliance(i));
  }
}
