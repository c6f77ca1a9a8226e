/** Windows versions written with dots: which numbers are read from one, and which of two
    is older. */
module DottedWritten {
  import opened Options
  import opened Keys
  import opened Text
  import opened Decimal
  import opened PkgVersion
  import opened PkgWritten
  import opened DottedVersions

  /** A field: no dot, no space, and no v in front. */
  predicate IsField(f: string) {
    (forall i :: 0 <= i < |f| ==> f[i] != '.' && !IsSpace(f[i])) && (f == "" || f[0] != 'v')
  }

  predicate AreFields(fields: seq<string>) {
    fields != [] && fields != [""] && forall i :: 0 <= i < |fields| ==> IsField(fields[i])
  }

  /** Digits whose number fits 64 bits. */
  predicate Fits(f: string) { f != "" && AllDigits(f) && Value(f) < 0x1_0000_0000_0000_0000 }

  predicate AllFit(fields: seq<string>) { forall i :: 0 <= i < |fields| ==> Fits(fields[i]) }

  function Numbers(fields: seq<string>): (r: seq<int>)
    requires AllFit(fields)
    ensures |r| == |fields| && forall i :: 0 <= i < |r| ==> r[i] == Value(fields[i])
  {
    seq(|fields|, i requires 0 <= i < |fields| => Value(fields[i]))
  }

  lemma {:induction false} FieldsAreNumbers(fields: seq<string>)
    ensures ParseFields(fields) == if AllFit(fields) then Some(Numbers(fields)) else None
  {
    if fields != [] {
      var init, last := fields[..|fields| - 1], fields[|fields| - 1];
      FieldsAreNumbers(init);
      assert fields == init + [last];
      assert AllFit(fields) <==> AllFit(init) && Fits(last);
      hide Value;
      if AllFit(fields) {
        assert Numbers(fields) == Numbers(init) + [Value(last)];
      }
    }
  }

  lemma {:induction false} JoinedStart(fields: seq<string>)
    requires AreFields(fields)
    ensures JoinDots(fields) != "" && JoinDots(fields)[0] != 'v'
    ensures forall i :: 0 <= i < |JoinDots(fields)| ==> !IsSpace(JoinDots(fields)[i])
  {
    JoinedNoSpaces(fields);
    if |fields| > 1 {
      assert JoinDots(fields) == fields[0] + "." + JoinDots(fields[1..]);
    }
  }

  lemma {:induction false} JoinedNoSpaces(fields: seq<string>)
    requires forall i :: 0 <= i < |fields| ==> IsField(fields[i])
    ensures forall i :: 0 <= i < |JoinDots(fields)| ==> !IsSpace(JoinDots(fields)[i])
  {
    if |fields| > 1 {
      JoinedNoSpaces(fields[1..]);
      assert !IsSpace('.');
    }
  }

  /** The numbers of a written version, with or without a v; none, if a field is no number
      of 64 bits. */
  lemma {:induction false} ComponentsOfWritten(fields: seq<string>)
    requires AreFields(fields)
    ensures Components(JoinDots(fields)) == if AllFit(fields) then Some(Numbers(fields)) else None
    ensures Components("v" + JoinDots(fields)) == Components(JoinDots(fields))
  {
    var s := JoinDots(fields);
    JoinedStart(fields);
    SpacelessV();
    hide JoinDots, IsSpace, AllFit;
    NoSpaceAround(s);
    NoSpaceAround("v" + s);
    DroppedV(s);
    FieldsOfJoin(fields);
    FieldsAreNumbers(fields);
    hide TrimSpace, TrimV;
  }

  /** The installed version is older exactly when some number is lower where the two first
      differ; missing numbers count as 0. */
  lemma {:induction false} WrittenIsOlder(installed: seq<string>, available: seq<string>)
    requires AreFields(installed) && AreFields(available) && AllFit(installed) && AllFit(available)
    ensures InstalledIsOlder(JoinDots(installed), JoinDots(available)) <==>
            exists k: nat :: LowerFirstAt(Numbers(installed), Numbers(available), k)
    ensures VersionsEqual(JoinDots(installed), JoinDots(available)) <==>
            forall k: nat :: At(Numbers(installed), k) == At(Numbers(available), k)
  {
    hide Components, InstalledIsOlder, VersionsEqual, JoinDots, AllFit, ComparePadded, LowerFirstAt, At, AreFields;
    PaddedMeans(Numbers(installed), Numbers(available));
    ComparesPadded(installed, available);
  }

  lemma {:induction false} ComparesPadded(a: seq<string>, b: seq<string>)
    requires AreFields(a) && AreFields(b) && AllFit(a) && AllFit(b)
    ensures InstalledIsOlder(JoinDots(a), JoinDots(b)) <==> ComparePadded(Numbers(a), Numbers(b)) < 0
    ensures VersionsEqual(JoinDots(a), JoinDots(b)) <==> ComparePadded(Numbers(a), Numbers(b)) == 0
  {
    hide CompareDotted, IsUnknownVersion, JoinDots, AllFit, AreFields, ComparePadded, TrimSpace, ToLower;
    KnownVersion(a);
    CompareOfWritten(a, b);
  }

  lemma {:induction false} CompareOfWritten(a: seq<string>, b: seq<string>)
    requires AreFields(a) && AreFields(b) && AllFit(a) && AllFit(b)
    ensures CompareDotted(JoinDots(a), JoinDots(b)) == Some(ComparePadded(Numbers(a), Numbers(b)))
  {
    hide Components, JoinDots, AllFit, AreFields, ComparePadded;
    ComponentsOfWritten(a);
    ComponentsOfWritten(b);
  }

  lemma {:induction false} KnownVersion(fields: seq<string>)
    requires AreFields(fields) && AllFit(fields)
    ensures !IsUnknownVersion(JoinDots(fields))
  {
    var s := JoinDots(fields);
    JoinedStart(fields);
    NoSpaceAround(s);
    assert IsDigit(s[0]);
    assert ToLower(s)[0] == s[0];
    hide JoinDots;
  }

  /** Otherwise: an unknown installed version is not older than anything, and one that is
      no number, or is compared with one, is left to winget. */
  lemma {:induction false} OlderOtherwise(installed: string, available: string)
    ensures ToLower(TrimSpace(installed)) in {"", "unknown"} ==> !InstalledIsOlder(installed, available)
    ensures ToLower(TrimSpace(installed)) !in {"", "unknown"} &&
            (Components(installed) == None || Components(available) == None) ==>
              InstalledIsOlder(installed, available)
    ensures Components(installed) == None || Components(available) == None ==>
              (VersionsEqual(installed, available) <==>
               ToLower(TrimSpace(installed)) == ToLower(TrimSpace(available)))
  {
    hide Components, TrimSpace;
    assert ToLower(TrimSpace(installed)) == "" <==> TrimSpace(installed) == "";
  }
}
