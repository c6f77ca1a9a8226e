/** What comparing two written kernel releases gives, on their parts, and the line a
    release belongs to. */
module KernelWritten {
  import opened Keys
  import opened Text
  import opened Decimal
  import opened Kernel

  predicate Breaks(s: string) { forall i :: 0 <= i < |s| ==> s[i] in ".-+" }

  predicate IsPart(s: string) { s != "" && forall i :: 0 <= i < |s| ==> s[i] !in ".-+" }

  /** Parts with breaks before, between and after them. */
  predicate IsWritten(parts: seq<string>, breaks: seq<string>) {
    && |breaks| == |parts| + 1
    && (forall i :: 0 <= i < |parts| ==> IsPart(parts[i]))
    && (forall i :: 0 <= i < |breaks| ==> Breaks(breaks[i]))
    && forall i :: 0 < i < |parts| ==> breaks[i] != ""
  }

  function Print(parts: seq<string>, breaks: seq<string>): string
    requires |breaks| == |parts| + 1
  {
    if parts == [] then breaks[0] else breaks[0] + (parts[0] + Print(parts[1..], breaks[1..]))
  }

  lemma PartThen(lead: string, part: string, rest: string)
    requires Breaks(lead) && IsPart(part) && (rest == "" || rest[0] in ".-+")
    ensures var s := lead + (part + rest);
            var t := TrimLeft(s, IsPartBreak);
            t == part + rest && PrefixLen(t, IsPartChar) == |part| && t[..|part|] == part && t[|part|..] == rest
  {
    var s := lead + (part + rest);
    PrefixLenIs(s, IsPartBreak, |lead|);
    assert s[|lead|..] == part + rest;
    PrefixLenIs(part + rest, IsPartChar, |part|);
  }

  /** The parts are read back, and nothing else is. */
  lemma {:induction false} ParseInvertsPrint(parts: seq<string>, breaks: seq<string>)
    requires IsWritten(parts, breaks)
    ensures ParseKernelVersion(Print(parts, breaks)) == parts
  {
    if parts == [] {
      PrefixLenIs(breaks[0], IsPartBreak, |breaks[0]|);
    } else {
      var rest := Print(parts[1..], breaks[1..]);
      RestIsWritten(parts, breaks);
      ParseInvertsPrint(parts[1..], breaks[1..]);
      hide TrimLeft, PrefixLen, Breaks, IsPart, IsWritten;
      PartThen(breaks[0], parts[0], rest);
      assert parts == [parts[0]] + parts[1..];
    }
  }

  lemma RestIsWritten(parts: seq<string>, breaks: seq<string>)
    requires IsWritten(parts, breaks) && parts != []
    ensures IsWritten(parts[1..], breaks[1..]) && Breaks(breaks[0]) && IsPart(parts[0])
    ensures var rest := Print(parts[1..], breaks[1..]); rest == "" || rest[0] in ".-+"
  {
    if |parts| > 1 {
      assert breaks[1..][0] == breaks[1] != "";
    }
  }

  // ----- what decides

  /** A number: digits that fit an int. */
  predicate IsNumberPart(part: string) { AllDigits(part) && Value(part) <= 0x7fff_ffff_ffff_ffff }

  /** Numbers compare as numbers and are above labels, which compare as text. */
  function PartOrder(a: string, b: string): int {
    if IsNumberPart(a) && IsNumberPart(b) then CompareInts(Value(a), Value(b))
    else if IsNumberPart(a) then 1
    else if IsNumberPart(b) then -1
    else CompareStrings(a, b)
  }

  /** The first part that differs decides; else the release with more parts is newer. */
  function PartsOrder(a: seq<string>, b: seq<string>): int {
    if a == [] then (if b == [] then 0 else -1)
    else if b == [] then 1
    else if PartOrder(a[0], b[0]) != 0 then PartOrder(a[0], b[0])
    else PartsOrder(a[1..], b[1..])
  }

  lemma NumbersAreNumbers(part: string)
    requires IsPart(part)
    ensures IsNumber(part) <==> IsNumberPart(part)
    ensures IsNumberPart(part) ==> Atoi(part).0 == Value(part)
  {
    assert part[0] !in ".-+";
  }

  lemma {:induction false} PartsCompare(a: seq<string>, b: seq<string>)
    requires (forall i :: 0 <= i < |a| ==> IsPart(a[i])) && forall i :: 0 <= i < |b| ==> IsPart(b[i])
    ensures CompareKeys(PartKeys(a), PartKeys(b)) == PartsOrder(a, b)
  {
    hide IsPart, IsNumber, IsNumberPart, PartKey, Atoi, CompareStrings, Value;
    if a != [] && b != [] {
      NumbersAreNumbers(a[0]);
      NumbersAreNumbers(b[0]);
      PartsCompareAsKeys(a[0], b[0]);
      PartsCompare(a[1..], b[1..]);
      CompareAt(a, b, 0);
      assert PartKeys(a)[0..] == PartKeys(a) && PartKeys(a)[1..] == PartKeys(a[1..]);
      assert PartKeys(b)[0..] == PartKeys(b) && PartKeys(b)[1..] == PartKeys(b[1..]);
    }
  }

  /** Comparing written releases compares their parts, whatever breaks stand between. */
  lemma {:induction false} WrittenCompare(a: seq<string>, breaks: seq<string>, b: seq<string>,
                                          breaks': seq<string>)
    requires IsWritten(a, breaks) && IsWritten(b, breaks')
    ensures Compare(Print(a, breaks), Print(b, breaks')) == PartsOrder(a, b)
  {
    ParseInvertsPrint(a, breaks);
    ParseInvertsPrint(b, breaks');
    hide Print, ParseKernelVersion, PartKeys, PartsOrder;
    PartsCompare(a, b);
  }

  // ----- the line of a release

  /** A Raspberry Pi variant: v7, v7l, v8. */
  ghost predicate IsPi(part: string) {
    exists d: string :: d != "" && AllDigits(d) && (part == "v" + d || part == "v" + d + "l")
  }

  lemma {:induction false} PiMeans(part: string)
    ensures IsPiVariant(part) <==> IsPi(part)
  {
    if IsPiVariant(part) {
      var d := part[1..][..PrefixLen(part[1..], IsDigit)];
      assert d != "" && AllDigits(d) && part[1..] == d + part[1..][|d|..];
      assert part == "v" + d || part == "v" + d + "l";
    }
    if d: string :| d != "" && AllDigits(d) && (part == "v" + d || part == "v" + d + "l") {
      assert part[1..] == d || part[1..] == d + "l";
      PrefixLenIs(part[1..], IsDigit, |d|);
    }
  }

  /** A label is a Pi variant as it is, else the part without digits and underscores at its
      end. */
  lemma {:induction false} LabelMeans(core: string, tail: string)
    requires core == "" || !(IsDigit(core[|core| - 1]) || core[|core| - 1] == '_')
    requires forall i :: 0 <= i < |tail| ==> IsDigit(tail[i]) || tail[i] == '_'
    ensures IsPi(core + tail) ==> Label(core + tail) == core + tail
    ensures !IsPi(core + tail) ==> Label(core + tail) == core
  {
    PiMeans(core + tail);
    TailTrimmed(core, tail);
    hide IsPi, IsPiVariant;
  }

  lemma {:induction false} TailTrimmed(core: string, tail: string)
    requires core == "" || !(IsDigit(core[|core| - 1]) || core[|core| - 1] == '_')
    requires forall i :: 0 <= i < |tail| ==> IsDigit(tail[i]) || tail[i] == '_'
    ensures TrimRight(core + tail, IsLabelTail) == core
    decreases |tail|
  {
    var s := core + tail;
    if tail == "" {
      assert s == core;
    } else {
      TailTrimmed(core, tail[..|tail| - 1]);
      assert s[..|s| - 1] == core + tail[..|tail| - 1];
    }
  }

  /** The line of a written release: the labels of its parts that are no numbers, joined
      with dashes. */
  function Line(parts: seq<string>): string {
    if parts == [] then ""
    else if IsNumberPart(parts[0]) then Line(parts[1..])
    else if AllNumbers(parts[1..]) then Label(parts[0])
    else Label(parts[0]) + "-" + Line(parts[1..])
  }

  predicate AllNumbers(parts: seq<string>) { forall i :: 0 <= i < |parts| ==> IsNumberPart(parts[i]) }

  lemma LabelsBack(parts: seq<string>, last: string)
    ensures Labels(parts + [last]) == Labels(parts) + if IsNumber(last) then [] else [Label(last)]
  {
    assert (parts + [last])[..|parts|] == parts;
  }

  lemma {:induction false} LabelsFront(parts: seq<string>)
    requires parts != []
    ensures Labels(parts) == (if IsNumber(parts[0]) then [] else [Label(parts[0])]) + Labels(parts[1..])
  {
    hide IsNumber, Label;
    var init := parts[..|parts| - 1];
    var last := parts[|parts| - 1];
    if init != [] {
      LabelsFront(init);
      LabelsBack(init[1..], last);
      assert parts[1..] == init[1..] + [last] && init[0] == parts[0];
    } else {
      assert parts[1..] == [] && Labels([]) == [];
    }
  }

  lemma {:induction false} LineOfParts(parts: seq<string>)
    requires forall i :: 0 <= i < |parts| ==> IsPart(parts[i])
    ensures Join(Labels(parts)) == Line(parts)
    ensures Labels(parts) == [] <==> AllNumbers(parts)
  {
    hide IsNumber, Label, IsNumberPart, IsPart;
    if parts != [] {
      LabelsFront(parts);
      NumbersAreNumbers(parts[0]);
      LineOfParts(parts[1..]);
      var rest := Labels(parts[1..]);
      assert [Label(parts[0])] + rest != [];
      if !IsNumberPart(parts[0]) {
        assert ([Label(parts[0])] + rest)[1..] == rest;
      }
      assert [] + rest == rest;
      assert AllNumbers(parts) <==> IsNumberPart(parts[0]) && AllNumbers(parts[1..]) by { FirstNumbers(parts); }
    }
  }

  lemma FirstNumbers(parts: seq<string>)
    requires parts != []
    ensures AllNumbers(parts) <==> IsNumberPart(parts[0]) && AllNumbers(parts[1..])
  {
    hide IsNumberPart;
    assert forall i :: 0 < i < |parts| ==> parts[i] == parts[1..][i - 1];
  }

  lemma {:induction false} LineOfWritten(parts: seq<string>, breaks: seq<string>)
    requires IsWritten(parts, breaks)
    ensures Flavour(Print(parts, breaks)) == Line(parts)
  {
    ParseInvertsPrint(parts, breaks);
    hide Print, ParseKernelVersion, Line, Labels, Join;
    LineOfParts(parts);
  }

  /** A usable release starts with digits, a dot and a digit. */
  lemma {:induction false} CoreMeans(release: string)
    ensures HasVersionCore(release) <==>
            exists n :: 0 < n < |release| - 1 && AllDigits(release[..n]) && release[n] == '.' &&
                        IsDigit(release[n + 1])
  {
    if n :| 0 < n < |release| - 1 && AllDigits(release[..n]) && release[n] == '.' && IsDigit(release[n + 1]) {
      assert forall i :: 0 <= i < n ==> release[i] == release[..n][i];
      PrefixLenIs(release, IsDigit, n);
    }
    if HasVersionCore(release) {
      assert AllDigits(release[..PrefixLen(release, IsDigit)]);
    }
  }
}
