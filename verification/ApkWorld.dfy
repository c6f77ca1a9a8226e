/** What relies on the Alpine order: the holds in /etc/apk/world (apk_world.go) and
    the security-fix test (apk_secdb.go). legacy selects apk-tools 2's order. */
module ApkWorld {
  import opened Options
  import opened Keys
  import opened Text
  import opened ApkVersion
  import opened ApkGrammar
  import opened ApkReadable

  datatype Constraint = Constraint(raw: string, name: string, op: string, version: string)

  datatype Hold = Hold(name: string, installed: string, available: string, constraint: string)

  predicate IsOpChar(c: char) { c in "<>=~" }

  predicate ValidOp(op: string) {
    op in ["=", "<", "<=", ">", ">=", "~", "=~", ">~", "<~"]
  }

  // ----- parsing

  /** The name before a tag such as @edge. */
  function Untagged(name: string): string { name[..IndexWhere(name, IsAt)] }

  predicate IsAt(c: char) { c == '@' }

  /** Where the operator of an entry starts and ends. */
  function OpStart(entry: string): nat { IndexWhere(entry, IsOpChar) }

  function OpEnd(entry: string): (r: nat)
    ensures OpStart(entry) <= r <= |entry|
  {
    OpStart(entry) + PrefixLen(entry[OpStart(entry)..], IsOpChar)
  }

  /** The constraint an entry of the world file stands for, if it pins a version. */
  ghost function ParseEntry(entry: string): Option<Constraint> {
    var i, j := OpStart(entry), OpEnd(entry);
    var c := Constraint(entry, Untagged(entry[..i]), entry[i..j], entry[j..]);
    if HasPrefix(entry, "!") || i == 0 || i == |entry| then None
    else if c.name == "" || !Valid(c.version) || !ValidOp(c.op) then None
    else Some(c)
  }

  ghost function ParseEntries(entries: seq<string>): seq<Constraint> {
    if entries == [] then []
    else
      var last := |entries| - 1;
      ParseEntries(entries[..last]) +
      match ParseEntry(entries[last]) case Some(c) => [c] case None => []
  }

  /** ParseAPKWorld, on the whitespace-separated entries of the file. */
  method ParseAPKWorld(entries: seq<string>) returns (out: seq<Constraint>)
    ensures out == ParseEntries(entries)
  {
    hide ParseEntry;
    out := [];
    for k := 0 to |entries|
      invariant out == ParseEntries(entries[..k])
    {
      assert entries[..k + 1][..k] == entries[..k];
      var c := ParseWorldEntry(entries[k]);
      if c != None {
        out := out + [c.value];
      }
    }
    assert entries[..|entries|] == entries;
  }

  /** The body of the loop: one entry, or none where the source continues. */
  method ParseWorldEntry(entry: string) returns (c: Option<Constraint>)
    ensures c == ParseEntry(entry)
  {
    hide Valid, IsOpChar, ValidOp, Untagged;
    if HasPrefix(entry, "!") {
      return None;
    }
    var i := OpStart(entry);
    if i == 0 || i == |entry| {
      return None;
    }
    var j := i;
    while j < |entry| && IsOpChar(entry[j])
      invariant i <= j <= |entry|
      invariant forall m :: i <= m < j ==> IsOpChar(entry[m])
    {
      j := j + 1;
    }
    PrefixLenIs(entry[i..], IsOpChar, j - i);
    var name, op, version := Untagged(entry[..i]), entry[i..j], entry[j..];
    var ok := APKVersionValid(version);
    if name == "" || !ok || !ValidOp(op) {
      return None;
    }
    return Some(Constraint(entry, name, op, version));
  }

  lemma OpBounds(left: string, op: string, version: string)
    requires forall i :: 0 <= i < |left| ==> !IsOpChar(left[i])
    requires op != "" && forall i :: 0 <= i < |op| ==> IsOpChar(op[i])
    requires version != "" && !IsOpChar(version[0])
    ensures OpStart(left + op + version) == |left| && OpEnd(left + op + version) == |left| + |op|
  {
    var entry := left + op + version;
    assert entry[|left|] == op[0];
    assert entry[..|left|] == left;
    assert OpStart(entry) == |left|;
    assert entry[|left|..] == op + version;
    PrefixLenIs(op + version, IsOpChar, |op|);
  }

  /** Name, operator and version written together are read back, tag or no tag. */
  lemma ParseEntryInvertsPrint(name: string, tag: string, op: string, version: string)
    requires name != "" && name[0] != '!' && (tag == "" || tag[0] == '@')
    requires forall i :: 0 <= i < |name| ==> !IsOpChar(name[i]) && name[i] != '@'
    requires forall i :: 0 <= i < |tag| ==> !IsOpChar(tag[i])
    requires ValidOp(op) && Valid(version)
    ensures var entry := name + tag + op + version;
            ParseEntry(entry) == Some(Constraint(entry, name, op, version))
  {
    hide Valid, ValidOp, OpStart, OpEnd, Untagged;
    ValidStartsWithDigit(version);
    OpsAreOpChars(op);
    OpBounds(name + tag, op, version);
    UntaggedIs(name, tag);
    var entry := name + tag + op + version;
    var i, j := |name + tag|, |name + tag| + |op|;
    assert entry[..i] == name + tag && entry[i..j] == op && entry[j..] == version;
    assert entry[0] == name[0];
  }

  lemma UntaggedIs(name: string, tag: string)
    requires '@' !in name && (tag == "" || tag[0] == '@')
    ensures Untagged(name + tag) == name
  {
    assert forall i :: 0 <= i < |name| ==> (name + tag)[i] == name[i] && name[i] in name;
    assert tag != "" ==> (name + tag)[|name|] == tag[0];
    IndexWhereIs(name + tag, IsAt, |name|);
  }

  lemma OpsAreOpChars(op: string)
    requires ValidOp(op)
    ensures op != "" && forall i :: 0 <= i < |op| ==> IsOpChar(op[i])
  {
  }

  lemma ValidStartsWithDigit(version: string)
    requires Valid(version)
    ensures version != "" && !IsOpChar(version[0])
  {
    assert PrefixLen(version, IsDigit) > 0;
  }

  // ----- constraints

  predicate FuzzyMatch(version: string, prefix: string) {
    HasPrefix(version, prefix) && (|version| == |prefix| || !IsDigit(version[|prefix|]))
  }

  /** The operator without its fuzzy marks. */
  function PlainOp(op: string): string {
    TrimRight(TrimLeft(op, c => c == '~'), c => c == '~')
  }

  /** How a comparison result answers an operator. */
  predicate OpAllows(op: string, r: int) {
    if op == "=" || op == "" then r == 0
    else if op == "<" then r < 0
    else if op == "<=" then r <= 0
    else if op == ">" then r > 0
    else op == ">=" && r >= 0
  }

  ghost predicate Allows(c: Constraint, version: string, legacy: bool) {
    && Valid(version)
    && (('~' in c.op && FuzzyMatch(version, c.version)) ||
        OpAllows(PlainOp(c.op), Compare(version, c.version, legacy)))
  }

  /** A fuzzy match stops between parts: "~1.2" matches "1.2.3" and not "1.20". */
  lemma {:induction false} FuzzyMeans(version: string, prefix: string)
    ensures FuzzyMatch(version, prefix) <==>
            exists rest: string :: version == prefix + rest && (rest == "" || !IsDigit(rest[0]))
  {
    if FuzzyMatch(version, prefix) {
      assert version == prefix + version[|prefix|..];
    }
  }

  /** What "~" allows, with the prefix read as a version or not. */
  lemma {:induction false} FuzzyAllows(c: Constraint, version: string, legacy: bool)
    requires c.op == "~"
    ensures Allows(c, version, legacy) <==>
            Valid(version) &&
            (Compare(version, c.version, legacy) == 0 ||
             exists rest: string :: version == c.version + rest && (rest == "" || !IsDigit(rest[0])))
  {
    FuzzyMeans(version, c.version);
    assert PlainOp("~") == "" by { TildeIsPlain(); }
    hide PlainOp, Valid, Compare, FuzzyMatch;
  }

  lemma TildeIsPlain()
    ensures PlainOp("~") == ""
  {
    PrefixLenIs("~", c => c == '~', 1);
  }

  method AllowsVersion(c: Constraint, version: string, legacy: bool) returns (ok: bool)
    ensures ok <==> Allows(c, version, legacy)
  {
    var valid := APKVersionValid(version);
    if !valid {
      return false;
    }
    if '~' in c.op && FuzzyMatch(version, c.version) {
      return true;
    }
    var r := CompareAPKVersions(version, c.version, legacy);
    return OpAllows(PlainOp(c.op), r);
  }

  function Get(m: map<string, string>, k: string): string { if k in m then m[k] else "" }

  /** The installed version breaks the constraint: apk refuses every transaction. */
  ghost predicate IsConflict(c: Constraint, installed: map<string, string>, legacy: bool) {
    c.name in installed && !Allows(c, installed[c.name], legacy)
  }

  /** The installed version is allowed and the available one is not. */
  ghost predicate IsHold(c: Constraint, installed: map<string, string>, available: map<string, string>,
                         legacy: bool) {
    && c.name in installed && Allows(c, installed[c.name], legacy)
    && Get(available, c.name) != "" && !Allows(c, Get(available, c.name), legacy)
  }

  function HoldOf(c: Constraint, installed: map<string, string>, available: map<string, string>): Hold
    requires c.name in installed
  {
    Hold(c.name, installed[c.name], Get(available, c.name), c.raw)
  }

  ghost function Holds(world: seq<Constraint>, installed: map<string, string>, available: map<string, string>,
                       legacy: bool): seq<Hold> {
    if world == [] then []
    else
      var last := |world| - 1;
      Holds(world[..last], installed, available, legacy) +
      if IsHold(world[last], installed, available, legacy)
      then [HoldOf(world[last], installed, available)] else []
  }

  ghost function Conflicts(world: seq<Constraint>, installed: map<string, string>,
                           available: map<string, string>, legacy: bool): seq<Hold> {
    if world == [] then []
    else
      var last := |world| - 1;
      Conflicts(world[..last], installed, available, legacy) +
      if IsConflict(world[last], installed, legacy)
      then [HoldOf(world[last], installed, available)] else []
  }

  method APKWorldHolds(world: seq<Constraint>, installed: map<string, string>, available: map<string, string>,
                       legacy: bool)
    returns (holds: seq<Hold>, conflicts: seq<Hold>)
    ensures holds == Holds(world, installed, available, legacy)
    ensures conflicts == Conflicts(world, installed, available, legacy)
  {
    hide Allows;
    holds, conflicts := [], [];
    for k := 0 to |world|
      invariant holds == Holds(world[..k], installed, available, legacy)
      invariant conflicts == Conflicts(world[..k], installed, available, legacy)
    {
      assert world[..k + 1][..k] == world[..k];
      var c := world[k];
      if c.name !in installed {
        continue;
      }
      var cur := installed[c.name];
      var h := Hold(c.name, cur, Get(available, c.name), c.raw);
      var allowed := AllowsVersion(c, cur, legacy);
      if !allowed {
        conflicts := conflicts + [h];
      } else if h.available != "" {
        var next := AllowsVersion(c, h.available, legacy);
        if !next {
          holds := holds + [h];
        }
      }
    }
    assert world[..|world|] == world;
  }

  /** With an upgrade available, a lower bound holds back only a version apk cannot read. */
  lemma {:induction false} LowerBoundNeverHolds(c: Constraint, installed: map<string, string>,
          available: map<string, string>, legacy: bool)
    requires c.op == ">" || c.op == ">="
    requires c.name in installed && Allows(c, installed[c.name], legacy)
    requires Get(available, c.name) != ""
    requires Compare(installed[c.name], Get(available, c.name), legacy) < 0
    ensures IsHold(c, installed, available, legacy) <==> !Valid(Get(available, c.name))
  {
    LowerBoundAllows(c, legacy);
    hide Compare, Valid, Allows;
    CompareOrderLaws(c.version, installed[c.name], Get(available, c.name), legacy);
    CompareOrderLaws(installed[c.name], c.version, c.version, legacy);
    CompareOrderLaws(Get(available, c.name), c.version, c.version, legacy);
  }

  lemma LowerBoundAllows(c: Constraint, legacy: bool)
    requires c.op == ">" || c.op == ">="
    ensures forall b :: Allows(c, b, legacy) <==>
              Valid(b) &&
              (Compare(b, c.version, legacy) > 0 || (c.op == ">=" && Compare(b, c.version, legacy) == 0))
  {
    PlainAllows(c, legacy);
    hide Compare, Valid, Allows;
  }

  /** A lower bound holds back a newer version that apk cannot read. */
  lemma {:induction false} UnreadableIsHeldBack(legacy: bool)
    ensures var c, installed, available :=
              Constraint("a>=1", "a", ">=", "1"), map["a" := "1"], map["a" := "2!"];
            IsHold(c, installed, available, legacy) && Compare("1", "2!", legacy) < 0
  {
    hide Valid, Compare, PlainOp, FuzzyMatch, VersionKey;
    TwoBangIsUnreadable();
    OneBelowTwoBang(legacy);
    PlainOpIs(">=");
    CompareOrderLaws("1", "1", "1", legacy);
  }

  lemma {:induction false} TwoBangIsUnreadable()
    ensures Valid("1") && !Valid("2!")
  {
    var one, two := Start("1"), Start("2!");
    PrefixLenIs("1", IsDigit, 1);
    PrefixLenIs("2!", IsDigit, 1);
    assert one.s == "" && NextOf(one).t.kind == END;
    assert two.s == "!" && NextOf(two).t.kind == INVALID;
    assert Accepts(NextOf(one)) && !Accepts(NextOf(two));
  }

  lemma {:induction false} OneBelowTwoBang(legacy: bool)
    ensures Compare("1", "2!", legacy) < 0
  {
    var one, two := Start("1"), Start("2!");
    PrefixLenIs("1", IsDigit, 1);
    PrefixLenIs("2!", IsDigit, 1);
    assert "1"[..1] == "1" && "2!"[..1] == "2" && "1"[..0] == "" && "2"[..0] == "";
    assert one.t.number == 1 && two.t.number == 2;
    CompareStep(one, two, legacy);
  }

  /** An exact pin that allows the installed version holds back every upgrade. */
  lemma {:induction false} ExactPinHolds(c: Constraint, installed: map<string, string>,
                                         available: map<string, string>, legacy: bool)
    requires c.op == "="
    requires c.name in installed && Allows(c, installed[c.name], legacy)
    requires Get(available, c.name) != ""
    requires Compare(installed[c.name], Get(available, c.name), legacy) < 0
    ensures IsHold(c, installed, available, legacy)
  {
    PlainOpIs(c.op);
    hide Compare, Valid, VersionKey, PlainOp;
    CompareOrderLaws(installed[c.name], Get(available, c.name), c.version, legacy);
    CompareOrderLaws(Get(available, c.name), c.version, installed[c.name], legacy);
    CompareOrderLaws(installed[c.name], c.version, c.version, legacy);
  }

  /** An operator without a fuzzy mark is its own plain form. */
  lemma PlainOpIs(op: string)
    requires '~' !in op
    ensures PlainOp(op) == op
  {
    assert op == op[0..];
  }

  lemma PlainAllows(c: Constraint, legacy: bool)
    requires '~' !in c.op
    ensures forall b :: Allows(c, b, legacy) <==> Valid(b) && OpAllows(c.op, Compare(b, c.version, legacy))
  {
    PlainOpIs(c.op);
    hide Compare, Valid, PlainOp, FuzzyMatch, OpAllows;
  }

  /** No version from a on is allowed. */
  ghost predicate StaysHeld(c: Constraint, a: string, legacy: bool) {
    forall b :: b != "" && Compare(a, b, legacy) <= 0 ==> !Allows(c, b, legacy)
  }

  /** An upper bound keeps holding back everything from a on exactly when the bound cannot
      be read at all, or a starts like a version and the bound does not allow what can be
      read of a; for <= and a valid bound, exactly when a is above the bound. */
  lemma {:induction false} UpperBoundStaysExactly(c: Constraint, a: string, legacy: bool)
    requires c.op == "<" || c.op == "<="
    ensures StaysHeld(c, a, legacy) <==>
            !StartsReadable(c.version) || (StartsReadable(a) && !Allows(c, ReadablePrefix(a), legacy))
    ensures c.op == "<=" && Valid(c.version) ==> (StaysHeld(c, a, legacy) <==> Compare(a, c.version, legacy) > 0)
  {
    if !StartsReadable(c.version) {
      UnreadableBoundAllowsNone(c, legacy);
    } else if StartsReadable(a) {
      PrefixDecides(c, a, legacy);
    } else {
      LowIsAllowed(c, a, legacy);
    }
    if c.op == "<=" && Valid(c.version) {
      AtOrBelowBound(c, a, legacy);
    }
  }

  lemma {:induction false} UnreadableBoundAllowsNone(c: Constraint, legacy: bool)
    requires (c.op == "<" || c.op == "<=") && !StartsReadable(c.version)
    ensures (forall b :: !Allows(c, b, legacy)) && !Valid(c.version)
  {
    BoundAllows(c, legacy);
    forall b ensures Valid(b) ==> StartsReadable(b) { }
    hide Compare, Valid, Allows, StartsReadable;
    forall b ensures !Allows(c, b, legacy) {
      if Valid(b) {
        UnreadableIsLowest(c.version, b, legacy);
        CompareOrderLaws(c.version, b, b, legacy);
      }
    }
  }

  lemma {:induction false} PrefixDecides(c: Constraint, a: string, legacy: bool)
    requires (c.op == "<" || c.op == "<=") && StartsReadable(a)
    ensures StaysHeld(c, a, legacy) <==> !Allows(c, ReadablePrefix(a), legacy)
  {
    BoundAllows(c, legacy);
    PrefixIsText(a);
    var p := ReadablePrefix(a);
    hide Compare, Valid, Allows, StartsReadable, ReadablePrefix;
    CompareOrderLaws(p, p, p, legacy);
    if Allows(c, p, legacy) {
      PrefixIsLeastAbove(a, p, legacy);
    }
    forall b | Compare(a, b, legacy) <= 0 && Allows(c, b, legacy) ensures Allows(c, p, legacy) {
      PrefixIsLeastAbove(a, b, legacy);
      CompareOrderLaws(p, b, c.version, legacy);
    }
  }

  lemma {:induction false} LowIsAllowed(c: Constraint, a: string, legacy: bool)
    requires (c.op == "<" || c.op == "<=") && StartsReadable(c.version) && !StartsReadable(a)
    ensures !StaysHeld(c, a, legacy)
  {
    BoundAllows(c, legacy);
    var b := Low(|c.version| + 1);
    LowIsLower(c.version, legacy);
    ValidIsText(b);
    hide Compare, Allows, Low;
    UnreadableIsLowest(a, b, legacy);
  }

  /** For <=, the bound itself is allowed, so no version up to it stays held back. */
  lemma {:induction false} AtOrBelowBound(c: Constraint, a: string, legacy: bool)
    requires c.op == "<=" && Valid(c.version)
    ensures StaysHeld(c, a, legacy) <==> Compare(a, c.version, legacy) > 0
  {
    BoundAllows(c, legacy);
    ValidIsText(c.version);
    hide Compare, Valid, Allows;
    CompareOrderLaws(c.version, c.version, c.version, legacy);
    forall b | Compare(a, b, legacy) <= 0 && Allows(c, b, legacy) ensures Compare(a, c.version, legacy) <= 0 {
      CompareOrderLaws(a, b, c.version, legacy);
    }
  }

  lemma BoundAllows(c: Constraint, legacy: bool)
    requires c.op == "<" || c.op == "<="
    ensures forall b :: Allows(c, b, legacy) <==>
              Valid(b) &&
              (Compare(b, c.version, legacy) < 0 || (c.op == "<=" && Compare(b, c.version, legacy) == 0))
  {
    PlainAllows(c, legacy);
    hide Compare, Valid, Allows;
  }

  lemma ValidIsText(v: string)
    requires Valid(v)
    ensures v != ""
  {
  }

  lemma PrefixIsText(a: string)
    requires StartsReadable(a)
    ensures ReadablePrefix(a) != ""
  {
  }

  /** A hold by an upper bound lasts, whatever comes later, exactly when what can be read
      of the held-back version is not allowed either. */
  lemma {:induction false} UpperBoundPersistsExactly(c: Constraint, installed: map<string, string>,
          available: map<string, string>, legacy: bool)
    requires (c.op == "<" || c.op == "<=") && IsHold(c, installed, available, legacy)
    ensures var a := Get(available, c.name);
            (forall later ::
               Get(later, c.name) != "" && Compare(a, Get(later, c.name), legacy) <= 0 ==>
                 IsHold(c, installed, later, legacy)) <==>
            StartsReadable(a) && !Allows(c, ReadablePrefix(a), legacy)
  {
    var a := Get(available, c.name);
    UpperBoundStaysExactly(c, a, legacy);
    hide Compare, Allows, StartsReadable, ReadablePrefix, Valid;
    if !StartsReadable(c.version) {
      UnreadableBoundAllowsNone(c, legacy);
    }
    LaterIsHeld(c, installed, available, legacy);
  }

  lemma {:induction false} LaterIsHeld(c: Constraint, installed: map<string, string>,
                                       available: map<string, string>, legacy: bool)
    requires IsHold(c, installed, available, legacy)
    ensures (forall later ::
               Get(later, c.name) != "" && Compare(Get(available, c.name), Get(later, c.name), legacy) <= 0 ==>
                 IsHold(c, installed, later, legacy)) <==> StaysHeld(c, Get(available, c.name), legacy)
  {
    hide Compare, Allows;
    var a := Get(available, c.name);
    if !StaysHeld(c, a, legacy) {
      var b :| b != "" && Compare(a, b, legacy) <= 0 && Allows(c, b, legacy);
      var later := map[c.name := b];
      assert Get(later, c.name) == b && !IsHold(c, installed, later, legacy);
    }
  }

  /** A readable version that an upper bound holds back stays held back with all newer ones. */
  lemma {:induction false} UpperBoundPersists(c: Constraint, installed: map<string, string>,
          available: map<string, string>, later: map<string, string>, legacy: bool)
    requires c.op == "<" || c.op == "<="
    requires IsHold(c, installed, available, legacy) && Valid(Get(available, c.name))
    requires Get(later, c.name) != ""
    requires Compare(Get(available, c.name), Get(later, c.name), legacy) <= 0
    ensures IsHold(c, installed, later, legacy)
  {
    BoundAllows(c, legacy);
    hide Compare, Valid, Allows;
    var a, b := Get(available, c.name), Get(later, c.name);
    CompareOrderLaws(c.version, a, b, legacy);
    CompareOrderLaws(a, c.version, b, legacy);
    CompareOrderLaws(c.version, b, a, legacy);
  }

  /** The unreadable "1!" is held back by "<=2", the newer "2" is not. */
  lemma {:induction false} UnreadableHoldEnds(legacy: bool)
    ensures var c, installed := Constraint("a<=2", "a", "<=", "2"), map["a" := "1"];
            IsHold(c, installed, map["a" := "1!"], legacy) && Compare("1!", "2", legacy) < 0 &&
            !IsHold(c, installed, map["a" := "2"], legacy)
  {
    OneBelowTwo(legacy);
    BangsAreUnreadable();
    CompareOrderLaws("2", "2", "2", legacy);
    var c := Constraint("a<=2", "a", "<=", "2");
    BoundAllows(c, legacy);
    hide Valid, Compare, Allows;
  }

  lemma {:induction false} BangsAreUnreadable()
    ensures Valid("1") && Valid("2") && !Valid("1!")
  {
    NumberAlone("1");
    NumberAlone("2");
    assert "1" + "!" == "1!";
    hide Valid;
  }

  /** And "2!" is below "2", yet "<2" holds back it and all newer versions. */
  lemma {:induction false} UnreadableHoldLasts(legacy: bool)
    ensures Compare("2!", "2", legacy) < 0 && StaysHeld(Constraint("a<2", "a", "<", "2"), "2!", legacy)
  {
    NumberAlone("2");
    assert "2" + "!" == "2!";
    BangIsBelow(legacy);
    CompareOrderLaws("2", "2", "2", legacy);
    var c := Constraint("a<2", "a", "<", "2");
    BoundAllows(c, legacy);
    hide Valid, Compare, Allows, StartsReadable, ReadablePrefix, StaysHeld;
    assert !Allows(c, "2", legacy);
    UpperBoundStaysExactly(c, "2!", legacy);
  }

  /** A digit, and the digit with an error behind it. */
  lemma {:induction false} NumberAlone(d: string)
    requires |d| == 1 && IsDigit(d[0])
    ensures Valid(d) && !Valid(d + "!") && StartsReadable(d + "!") && ReadablePrefix(d + "!") == d
    ensures Start(d).t == Start(d + "!").t && Start(d).t.number == DigitValue(d[0])
  {
    StartOf(d, "");
    StartOf(d, "!");
    assert d + "" == d && d[..0] == "";
    var l, m := Start(d), Start(d + "!");
    assert NextOf(l).t.kind == END && NextOf(m).t.kind == INVALID;
    assert Accepts(NextOf(l)) && !Accepts(NextOf(m));
    assert Taken(m) == "";
  }

  lemma {:induction false} OneBelowTwo(legacy: bool)
    ensures Compare("1", "2", legacy) < 0 && Compare("1!", "2", legacy) < 0
  {
    NumberAlone("1");
    NumberAlone("2");
    assert "1" + "!" == "1!";
    hide KeyFrom, NextOf;
    CompareStep(Start("1"), Start("2"), legacy);
    CompareStep(Start("1!"), Start("2"), legacy);
  }

  lemma {:induction false} BangIsBelow(legacy: bool)
    ensures Compare("2!", "2", legacy) < 0
  {
    StartOf("2", "");
    StartOf("2", "!");
    assert "2" + "!" == "2!" && "2" + "" == "2";
    var l, m := Start("2!"), Start("2");
    assert NextOf(l).t.kind == INVALID && NextOf(m).t.kind == END;
    hide KeyFrom;
    CompareStep(l, m, legacy);
    CompareStop(NextOf(l), NextOf(m), legacy);
  }

  /** What the entry of the world file tells of a package: its name, its installed version,
      its available one if there is one, and the entry itself. */
  predicate Tells(h: Hold, c: Constraint, installed: map<string, string>, available: map<string, string>) {
    && c.name in installed && h.name == c.name && h.installed == installed[c.name] && h.constraint == c.raw
    && h.available == if c.name in available then available[c.name] else ""
  }

  /** The holds are told of the constraints that allow the installed version and not the
      available one, which there must be; conflicts of those that do not allow the
      installed one. */
  lemma {:induction false} HoldsTell(world: seq<Constraint>, installed: map<string, string>,
                                     available: map<string, string>, legacy: bool)
    ensures forall h :: h in Holds(world, installed, available, legacy) <==>
              exists c :: c in world && Tells(h, c, installed, available) && Allows(c, h.installed, legacy) &&
                          h.available != "" && !Allows(c, h.available, legacy)
    ensures forall h :: h in Conflicts(world, installed, available, legacy) <==>
              exists c :: c in world && Tells(h, c, installed, available) && !Allows(c, h.installed, legacy)
  {
    if world != [] {
      var init, last := world[..|world| - 1], world[|world| - 1];
      HoldsTell(init, installed, available, legacy);
      hide Allows;
      assert forall c :: c in world <==> c in init || c == last by {
        assert world == init + [last];
      }
      LastTells(last, installed, available, legacy);
      hide Tells, IsHold, IsConflict;
    }
  }

  lemma {:induction false} LastTells(c: Constraint, installed: map<string, string>,
                                     available: map<string, string>, legacy: bool)
    ensures forall h :: Tells(h, c, installed, available) <==>
              c.name in installed && h == HoldOf(c, installed, available)
    ensures IsHold(c, installed, available, legacy) <==>
              exists h :: Tells(h, c, installed, available) && Allows(c, h.installed, legacy) &&
                          h.available != "" && !Allows(c, h.available, legacy)
    ensures IsConflict(c, installed, legacy) <==>
              exists h :: Tells(h, c, installed, available) && !Allows(c, h.installed, legacy)
  {
    hide Allows;
    if c.name in installed {
      assert Tells(HoldOf(c, installed, available), c, installed, available);
    }
  }

  // ----- security fixes

  ghost predicate CrossesFix(fix: string, installed: string, available: string, legacy: bool) {
    Compare(installed, fix, legacy) < 0 && Compare(fix, available, legacy) <= 0
  }

  ghost predicate FixesSecurity(fixes: seq<string>, installed: string, available: string, legacy: bool) {
    && Valid(installed) && Valid(available)
    && exists k :: 0 <= k < |fixes| && CrossesFix(fixes[k], installed, available, legacy)
  }

  method APKFixesSecurity(fixes: seq<string>, installed: string, available: string, legacy: bool)
    returns (found: bool)
    ensures found <==> FixesSecurity(fixes, installed, available, legacy)
  {
    hide Compare, Valid;
    var v := APKVersionValid(installed);
    var w := APKVersionValid(available);
    if !v || !w {
      return false;
    }
    for k := 0 to |fixes|
      invariant forall m :: 0 <= m < k ==> !CrossesFix(fixes[m], installed, available, legacy)
    {
      var x := CompareAPKVersions(installed, fixes[k], legacy);
      if x < 0 {
        var y := CompareAPKVersions(fixes[k], available, legacy);
        if y <= 0 {
          assert CrossesFix(fixes[k], installed, available, legacy);
          return true;
        }
      }
    }
    return false;
  }

  lemma {:induction false} CrossesFixSplits(fix: string, a: string, b: string, c: string, legacy: bool)
    requires Compare(a, b, legacy) <= 0 && Compare(b, c, legacy) <= 0
    ensures CrossesFix(fix, a, c, legacy) <==>
            CrossesFix(fix, a, b, legacy) || CrossesFix(fix, b, c, legacy)
  {
    hide Compare, VersionKey;
    CompareOrderLaws(b, fix, c, legacy);
    CompareOrderLaws(fix, b, c, legacy);
    CompareOrderLaws(a, b, fix, legacy);
  }

  /** An upgrade crosses a fix exactly when one of the two halves of any split does. */
  lemma {:induction false} FixesSecuritySplits(fixes: seq<string>, a: string, b: string, c: string,
          legacy: bool)
    requires Valid(a) && Valid(b) && Valid(c)
    requires Compare(a, b, legacy) <= 0 && Compare(b, c, legacy) <= 0
    ensures FixesSecurity(fixes, a, c, legacy) <==>
            FixesSecurity(fixes, a, b, legacy) || FixesSecurity(fixes, b, c, legacy)
  {
    hide Compare, Valid, CrossesFix;
    forall k | 0 <= k < |fixes|
      ensures CrossesFix(fixes[k], a, c, legacy) <==>
              CrossesFix(fixes[k], a, b, legacy) || CrossesFix(fixes[k], b, c, legacy)
    {
      CrossesFixSplits(fixes[k], a, b, c, legacy);
    }
  }

  /** A fix counts when the available version reaches it, and not when the installed one
      has it already. */
  lemma {:induction false} FixAtBounds(installed: string, available: string, legacy: bool)
    requires Valid(installed) && Valid(available) && Compare(installed, available, legacy) < 0
    ensures FixesSecurity([available], installed, available, legacy)
    ensures !FixesSecurity([installed], installed, available, legacy)
  {
    hide Compare, Valid;
    CompareOrderLaws(installed, installed, installed, legacy);
    CompareOrderLaws(available, available, available, legacy);
    assert CrossesFix([available][0], installed, available, legacy);
  }
}
