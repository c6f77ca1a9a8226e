/** The configuration manager (config/config.go): the config object, which loads and host
    ID changes replace and setters update, its integrations map, which a host ID change
    shares with the config before it, and the file as one cell. */
module ConfigManager {
  import opened Options
  import opened Text
  import opened ConfigState
  import PkgVersion

  class IntegrationMap {
    var values: Integrations

    constructor (values: Integrations)
      ensures this.values == values
    {
      this.values := values;
    }

    /** ensureComplianceNestedLocked. */
    method EnsureComplianceNested()
      modifies this
      ensures values == EnsureNested(old(values))
    {
      var nested: map<string, Value> := map[];
      if COMPLIANCE in values && values[COMPLIANCE].Nested? {
        nested := values[COMPLIANCE].m;
      }
      if ENABLED !in nested {
        if COMPLIANCE in values {
          match values[COMPLIANCE] {
            case Bool(b) => nested := nested[ENABLED := Bool(b)];
            case Text(s) =>
              if s == "disabled" || s == "false" {
                nested := nested[ENABLED := Bool(false)];
              } else {
                nested := nested[ENABLED := Text(s)];
              }
            case _ => nested := nested[ENABLED := Text("on-demand")];
          }
        } else {
          nested := nested[ENABLED := Text("on-demand")];
        }
      }
      assert nested == WithDefault(NestedOf(values), ENABLED, FlatEnabled(values));
      if OPENSCAP !in nested {
        nested := nested[OPENSCAP := FlatToggle(values, FLAT_OPENSCAP, true)];
      }
      if DOCKER_BENCH !in nested {
        nested := nested[DOCKER_BENCH := FlatToggle(values, FLAT_DOCKER_BENCH, false)];
      }
      if SCAN_INTERVAL !in nested {
        nested := nested[SCAN_INTERVAL := Number(1440)];
      }
      values := values[COMPLIANCE := Nested(nested)];
      values := values - {FLAT_OPENSCAP, FLAT_DOCKER_BENCH};
    }

    /** Turns the texts that name a mode into their values. */
    method ReadComplianceText()
      requires COMPLIANCE in values
      modifies this
      ensures values == old(values)[COMPLIANCE := NormalText(old(values)[COMPLIANCE])]
    {
      match values[COMPLIANCE] {
        case Text(s) =>
          if s == "on-demand" || s == "on_demand" {
            values := values[COMPLIANCE := Text("on-demand")];
          } else if s == "true" {
            values := values[COMPLIANCE := Bool(true)];
          } else if s == "false" {
            values := values[COMPLIANCE := Bool(false)];
          }
        case _ =>
      }
    }

    /** Adds the available integrations that are missing. */
    method AddAvailable()
      modifies this
      ensures values == WithDefault(WithAvailable(old(values)), COMPLIANCE, Text("on-demand"))
    {
      for k := 0 to |AVAILABLE|
        invariant values == AddMissing(old(values), AVAILABLE[..k])
      {
        assert AVAILABLE[..k + 1][..k] == AVAILABLE[..k];
        if AVAILABLE[k] !in values {
          if AVAILABLE[k] == COMPLIANCE {
            values := values[AVAILABLE[k] := Text("on-demand")];
          } else {
            values := values[AVAILABLE[k] := Bool(false)];
          }
        }
      }
      assert AVAILABLE[..|AVAILABLE|] == AVAILABLE;
      MissingAreAvailable(old(values));
    }
  }

  function AddMissing(i: Integrations, names: seq<string>): Integrations {
    if names == [] then i
    else
      var name := names[|names| - 1];
      WithDefault(AddMissing(i, names[..|names| - 1]), name,
                  if name == COMPLIANCE then Text("on-demand") else Bool(false))
  }

  lemma MissingAreAvailable(i: Integrations)
    ensures AddMissing(i, AVAILABLE) == WithDefault(WithAvailable(i), COMPLIANCE, Text("on-demand"))
  {
    AddOne(i, [], "docker");
    AddOne(i, ["docker"], COMPLIANCE);
    AddOne(i, ["docker", COMPLIANCE], "ssh-proxy-enabled");
    AddOne(i, ["docker", COMPLIANCE, "ssh-proxy-enabled"], "rdp-proxy-enabled");
    assert AVAILABLE == ["docker", COMPLIANCE, "ssh-proxy-enabled"] + ["rdp-proxy-enabled"];
    assert ["docker", COMPLIANCE, "ssh-proxy-enabled"] == ["docker", COMPLIANCE] + ["ssh-proxy-enabled"];
    assert ["docker", COMPLIANCE] == ["docker"] + [COMPLIANCE];
    assert ["docker"] == [] + ["docker"];
    hide AddMissing;
  }

  lemma AddOne(i: Integrations, names: seq<string>, name: string)
    ensures AddMissing(i, names + [name]) ==
            WithDefault(AddMissing(i, names), name, if name == COMPLIANCE then Text("on-demand") else Bool(false))
    ensures AddMissing(i, []) == i
  {
    assert (names + [name])[..|names|] == names;
  }

  class Config {
    var settings: Settings
    const integrations: IntegrationMap

    constructor (settings: Settings, integrations: IntegrationMap)
      ensures this.settings == settings && this.integrations == integrations
    {
      this.settings, this.integrations := settings, integrations;
    }
  }

  datatype ReadAnswer = NotThere | Fails | Empty | Decoded(doc: Document)

  class Disk {
    var file: File

    /** A file that is there may fail to be read at any time. */
    method ReadConfig() returns (read: ReadAnswer, ghost fails: bool)
      ensures read == match file
                      case Missing => NotThere
                      case Garbled(_) => Fails
                      case Blank(_) => if fails then Fails else Empty
                      case Readable(doc) => if fails then Fails else Decoded(doc)
    {
      var locked: bool := *;
      fails := locked;
      match file {
        case Missing => read := NotThere;
        case Garbled(_) => read := Fails;
        case Blank(_) => read := if locked then Fails else Empty;
        case Readable(doc) => read := if locked then Fails else Decoded(doc);
      }
    }

    method SetupDirectories() returns (ok: bool)
    {
      ok := *;
    }

    /** Replaces the file as a whole, or leaves it alone. */
    method Replace(doc: Document) returns (ok: bool)
      modifies this
      ensures file == if ok then Readable(doc) else old(file)
    {
      ok := *;
      if ok {
        file := Readable(doc);
      }
    }
  }

  class Manager {
    const disk: Disk
    const version: string
    var config: Config
    var loadErr: Option<LoadError>

    ghost function State(): State
      reads this, config, config.integrations, disk
    {
      ConfigState.State(loadErr, disk.file, config.settings, config.integrations.values)
    }

    constructor (disk: Disk, version: string, settings: Settings)
      ensures this.disk == disk && this.version == version && fresh(config) && fresh(config.integrations)
      ensures State() == ConfigState.State(None, disk.file, settings, map[])
    {
      this.disk, this.version := disk, version;
      var integrations := new IntegrationMap(map[]);
      config := new Config(settings, integrations);
      loadErr := None;
    }

    method SaveConfigLocked() returns (ok: bool, ghost answer: SaveAnswer)
      modifies config.integrations, disk
      ensures (State(), ok) == Saved(old(State()), answer, version)
    {
      hide EnsureNested, NestedCompliance;
      answer := Replaced;
      if loadErr != None {
        return false, answer;
      }
      var dirs := disk.SetupDirectories();
      if !dirs {
        return false, NoDirectories;
      }
      config.integrations.EnsureComplianceNested();
      config.integrations.AddAvailable();
      CompletedHasCompliance(old(config.integrations.values));
      ok := disk.Replace(Rendered(config.settings, config.integrations.values, version));
      answer := if ok then Replaced else WriteFails;
    }

    lemma CompletedHasCompliance(i: Integrations)
      ensures WithDefault(WithAvailable(EnsureNested(i)), COMPLIANCE, Text("on-demand")) == Completed(i)
    {
    }

    /** A config that was handed out keeps its content: a load puts a new one in place. */
    method LoadConfig() returns (ok: bool, ghost fails: bool, ghost answer: SaveAnswer)
      modifies this`config, this`loadErr, disk
      ensures (State(), ok) == Applied(old(State()), ConfigState.Op.LoadConfig(fails), answer, version)
      ensures config == old(config) || (fresh(config) && fresh(config.integrations))
    {
      hide EnsureNested, NestedCompliance, Completed, LoadedIntegrations;
      answer := Replaced;
      var read;
      read, fails := disk.ReadConfig();
      match read {
        case NotThere =>
          loadErr := None;
          return true, fails, answer;
        case Fails =>
          loadErr := Some(Unreadable);
          return false, fails, answer;
        case Empty =>
          loadErr := Some(NoSettings);
          return false, fails, answer;
        case Decoded(doc) =>
          ghost var before := State();
          var onDisk := TakeDocument(doc);
          assert State() == Loaded(before, doc, version);
          ok, answer := SaveConfigLocked();
          if !ok {
            config.settings := config.settings.(configVersion := onDisk);
          }
          ok := true;
      }
    }

    /** Puts a decoded document in memory, normalised and migrated; gives the file's own
        version. */
    method TakeDocument(doc: Document) returns (onDisk: string)
      requires disk.file == Readable(doc)
      modifies this`config, this`loadErr
      ensures State() == Loaded(old(State()), doc, version)
      ensures onDisk == Overlaid(old(config.settings), doc).configVersion
      ensures fresh(config) && fresh(config.integrations)
    {
      hide EnsureNested, NestedCompliance;
      loadErr := None;
      var integrations := new IntegrationMap(if doc.integrations == None then map[] else doc.integrations.value);
      integrations.AddAvailable();
      integrations.ReadComplianceText();
      integrations.EnsureComplianceNested();
      assert integrations.values == LoadedIntegrations(doc.integrations);
      var settings := Overlaid(config.settings, doc);
      onDisk := settings.configVersion;
      var migrated, ran :=
        PkgVersion.MigrateConfig(PkgVersion.Config(settings.hostID, onDisk), version, MIGRATIONS);
      hide LoadedIntegrations, Overlaid;
      settings := settings.(hostID := migrated.hostID, configVersion := migrated.configVersion);
      config := new Config(settings, integrations);
    }

    /** On failure the config before it is back, as it was but for the shared integrations. */
    method SetHostIDLocked(id: string) returns (ok: bool, ghost answer: SaveAnswer)
      modifies this`config, config.integrations, disk
      ensures (State(), ok) == HostIDSet(old(State()), id, answer, version)
      ensures if ok then fresh(config) && config.integrations == old(config.integrations) else config == old(config)
    {
      hide Completed;
      var prev := config;
      config := new Config(prev.settings.(hostID := id), prev.integrations);
      ok, answer := SaveConfigLocked();
      if !ok {
        config := prev;
      }
    }

    method AdoptHostID(serverID: string) returns (result: HostIDResult, ok: bool, ghost answer: SaveAnswer)
      modifies this`config, config.integrations, disk
      ensures (State(), result, ok) == Adopt(old(State()), serverID, answer, version)
    {
      hide Completed, PkgVersion.ValidHostID;
      answer := Replaced;
      if !PkgVersion.ValidHostID(serverID) {
        return Ignored, true, answer;
      }
      if config.settings.hostID == serverID {
        return Match, true, answer;
      }
      if config.settings.hostID == "" {
        ok, answer := SetHostIDLocked(serverID);
        return if ok then Adopted else Ignored, ok, answer;
      }
      return Conflict, true, answer;
    }

    method SetHostID(id: string) returns (ok: bool, ghost answer: SaveAnswer)
      modifies this`config, config.integrations, disk
      ensures (State(), ok) == Applied(old(State()), ConfigState.Op.SetHostID(id), answer, version)
    {
      hide Completed, PkgVersion.ValidHostID;
      answer := Replaced;
      if !PkgVersion.ValidHostID(id) {
        return false, answer;
      }
      ok, answer := SetHostIDLocked(id);
    }

    method ClearHostID() returns (ok: bool, ghost answer: SaveAnswer)
      modifies this`config, config.integrations, disk
      ensures (State(), ok) == Applied(old(State()), ConfigState.Op.ClearHostID, answer, version)
    {
      hide Completed;
      ok, answer := SetHostIDLocked("");
    }

    method SaveConfig() returns (ok: bool, ghost answer: SaveAnswer)
      modifies config.integrations, disk
      ensures (State(), ok) == Applied(old(State()), ConfigState.Op.SaveConfig, answer, version)
    {
      ok, answer := SaveConfigLocked();
    }

    /** The one setter that gives up a file that could not be read. */
    method SetPatchmonServer(url: string) returns (ok: bool, ghost answer: SaveAnswer)
      modifies this`loadErr, config, config.integrations, disk
      ensures (State(), ok) == Applied(old(State()), ConfigState.Op.SetPatchmonServer(url), answer, version)
    {
      hide Completed;
      loadErr := None;
      config.settings := config.settings.(server := url);
      ok, answer := SaveConfigLocked();
    }

    method SetUpdateInterval(interval: int) returns (ok: bool, ghost answer: SaveAnswer)
      modifies config, config.integrations, disk
      ensures (State(), ok) == Applied(old(State()), ConfigState.Op.SetUpdateInterval(interval), answer, version)
    {
      hide Completed;
      answer := Replaced;
      if interval <= 0 {
        return false, answer;
      }
      config.settings := config.settings.(updateInterval := interval);
      ok, answer := SaveConfigLocked();
    }

    method SetReportOffset(offset: int) returns (ok: bool, ghost answer: SaveAnswer)
      modifies config, config.integrations, disk
      ensures (State(), ok) == Applied(old(State()), ConfigState.Op.SetReportOffset(offset), answer, version)
    {
      hide Completed;
      answer := Replaced;
      if offset < 0 {
        return false, answer;
      }
      config.settings := config.settings.(reportOffset := offset);
      ok, answer := SaveConfigLocked();
    }

    method SetPackageCacheRefresh(mode: string, maxAge: int) returns (ok: bool, ghost answer: SaveAnswer)
      modifies config, config.integrations, disk
      ensures (State(), ok) ==
              Applied(old(State()), ConfigState.Op.SetPackageCacheRefresh(mode, maxAge), answer, version)
    {
      hide Completed;
      answer := Replaced;
      if mode != "always" && mode != "if_stale" && mode != "never" {
        return false, answer;
      }
      if maxAge < 1 || maxAge > 1440 {
        return false, answer;
      }
      config.settings := config.settings.(refreshMode := mode, refreshMaxAge := maxAge);
      ok, answer := SaveConfigLocked();
    }

    method SetIntegrationEnabled(name: string, enabled: bool) returns (ok: bool, ghost answer: SaveAnswer)
      modifies config.integrations, disk
      ensures (State(), ok) ==
              Applied(old(State()), ConfigState.Op.SetIntegrationEnabled(name, enabled), answer, version)
    {
      hide Completed, NestedCompliance;
      if name == COMPLIANCE {
        SetNestedValue(ENABLED, Bool(enabled));
      } else {
        config.integrations.values := config.integrations.values[name := Bool(enabled)];
      }
      ok, answer := SaveConfigLocked();
    }

    method SetNestedValue(key: string, v: Value)
      modifies config.integrations
      ensures config.integrations.values == SetNested(old(config.integrations.values), key, v)
    {
      config.integrations.EnsureComplianceNested();
      hide NestedCompliance;
      var i := config.integrations.values;
      config.integrations.values := i[COMPLIANCE := Nested(i[COMPLIANCE].m[key := v])];
    }

    method SetComplianceMode(mode: string) returns (ok: bool, ghost answer: SaveAnswer)
      modifies config.integrations, disk
      ensures (State(), ok) == Applied(old(State()), ConfigState.Op.SetComplianceMode(mode), answer, version)
    {
      hide Completed, NestedCompliance;
      answer := Replaced;
      if mode != "disabled" && mode != "on-demand" && mode != "enabled" {
        config.integrations.EnsureComplianceNested();
        return false, answer;
      }
      SetNestedValue(ENABLED, ModeValue(mode).value);
      ok, answer := SaveConfigLocked();
    }

    method SetComplianceScanners(openscap: bool, dockerBench: bool) returns (ok: bool, ghost answer: SaveAnswer)
      modifies config.integrations, disk
      ensures (State(), ok) ==
              Applied(old(State()), ConfigState.Op.SetComplianceScanners(openscap, dockerBench), answer, version)
    {
      hide Completed, NestedCompliance, EnsureNested;
      SetNestedValue(OPENSCAP, Bool(openscap));
      SetNestedValue(DOCKER_BENCH, Bool(dockerBench));
      ok, answer := SaveConfigLocked();
    }
  }
}
