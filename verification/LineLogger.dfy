/** The line logger of script output (windows_patch_logic.go, lineLogger): chunks come in,
    lines go out. A char stands for a byte. */
module LineLogger {
  import opened Text

  const NEWLINE := '\n'
  const MAX_PENDING := 65536

  predicate IsNewline(c: char) { c == NEWLINE }

  /** The complete lines of a text, and the unfinished rest. */
  function Cut(s: string): (r: (seq<string>, string))
    ensures |r.1| <= |s|
  {
    var i := IndexWhere(s, IsNewline);
    if i == |s| then ([], s)
    else
      var (lines, rest) := Cut(s[i + 1..]);
      ([s[..i]] + lines, rest)
  }

  /** A whole text as lines; an unfinished rest is a line of its own. */
  function Lines(s: string): seq<string> {
    var (lines, rest) := Cut(s);
    if rest == "" then lines else lines + [rest]
  }

  /** What has been cut off, and what waits for its newline. */
  datatype State = State(lines: seq<string>, pending: string)

  /** One Write: the complete lines go, and so does a rest that is too long. */
  function Written(st: State, p: string): State {
    var (lines, rest) := Cut(st.pending + p);
    if |rest| > MAX_PENDING then State(st.lines + lines + [rest], "")
    else State(st.lines + lines, rest)
  }

  function Flushed(st: State): seq<string> {
    if st.pending == "" then st.lines else st.lines + [st.pending]
  }

  predicate IsBlank(c: char) { c == ' ' || c == '\t' }

  // ----- the logger

  class Logger {
    const limit: int
    const strip: string -> string
    var pending: string
    var captured: string
    var logged: seq<string>
    ghost var lines: seq<string>

    /** captured and the log are what the lines so far make of them. */
    ghost predicate Valid()
      reads this
    {
      captured == Captured(lines, strip, limit) && logged == Shown(lines, strip)
    }

    constructor (strip: string -> string, limit: int)
      ensures Valid() && lines == [] && pending == ""
      ensures this.strip == strip && this.limit == limit
    {
      this.strip, this.limit := strip, limit;
      pending, captured, logged, lines := "", "", [], [];
    }

    method Emit(raw: string)
      requires Valid()
      modifies this`captured, this`logged, this`lines
      ensures Valid() && lines == old(lines) + [raw]
    {
      lines := lines + [raw];
      assert lines[..|lines| - 1] == old(lines);
      var line := TrimRight(strip(raw), IsBlank);
      if TrimSpace(line) == "" {
        return;
      }
      if |captured| < limit {
        captured := captured + line + "\n";
      }
      logged := logged + [line + "\n"];
    }

    method Write(p: string)
      requires Valid()
      modifies this
      ensures Valid() && State(lines, pending) == Written(old(State(lines, pending)), p)
    {
      hide Captured, Shown, Cut, TrimRight;
      pending := pending + p;
      while true
        invariant Valid()
        invariant lines + Cut(pending).0 == old(lines) + Cut(old(pending) + p).0
        invariant Cut(pending).1 == Cut(old(pending) + p).1
        decreases |pending|
      {
        var i := IndexWhere(pending, IsNewline);
        if i == |pending| {
          CutUnbroken(pending);
          break;
        }
        assert pending == pending[..i] + [NEWLINE] + pending[i + 1..];
        CutAt(pending, pending[..i], pending[i + 1..]);
        Emit(pending[..i]);
        pending := pending[i + 1..];
      }
      if |pending| > MAX_PENDING {
        Emit(pending);
        pending := "";
      }
    }

    method Flush()
      requires Valid()
      modifies this
      ensures Valid() && pending == "" && lines == Flushed(old(State(lines, pending)))
    {
      hide Captured, Shown;
      if |pending| > 0 {
        Emit(pending);
        pending := "";
      }
    }
  }

  // ----- what the lines turn into

  function Shape(raw: string, strip: string -> string): string { TrimRight(strip(raw), IsBlank) }

  /** Every line that is not blank, shaped. */
  function Shown(lines: seq<string>, strip: string -> string): seq<string> {
    if lines == [] then [] else Shown(lines[..|lines| - 1], strip) + ShowsAs(lines[|lines| - 1], strip)
  }

  function ShowsAs(raw: string, strip: string -> string): seq<string> {
    if TrimSpace(Shape(raw, strip)) == "" then [] else [Shape(raw, strip) + "\n"]
  }

  /** The same lines, until the limit is reached. */
  function Captured(lines: seq<string>, strip: string -> string, limit: int): string {
    if lines == [] then ""
    else
      var line, before := Shape(lines[|lines| - 1], strip), Captured(lines[..|lines| - 1], strip, limit);
      if TrimSpace(line) == "" || |before| >= limit then before else before + line + "\n"
  }

  function Joined(lines: seq<string>): string {
    if lines == [] then "" else Joined(lines[..|lines| - 1]) + lines[|lines| - 1]
  }

  /** Each line shows on its own, in turn. */
  lemma {:induction false} ShownAppend(a: seq<string>, b: seq<string>, strip: string -> string)
    ensures Shown(a + b, strip) == Shown(a, strip) + Shown(b, strip)
  {
    hide ShowsAs;
    if b == [] {
      assert a + b == a;
    } else {
      var s := a + b;
      assert s[..|s| - 1] == a + b[..|b| - 1] && s[|s| - 1] == b[|b| - 1];
      ShownAppend(a, b[..|b| - 1], strip);
    }
  }

  lemma {:induction false} ShapeIs(text: string, blanks: string)
    requires forall i :: 0 <= i < |blanks| ==> blanks[i] == ' ' || blanks[i] == '\t'
    requires text == "" || (text[|text| - 1] != ' ' && text[|text| - 1] != '\t')
    ensures TrimRight(text + blanks, IsBlank) == text
    decreases |blanks|
  {
    var s := text + blanks;
    if blanks == "" {
      assert s == text;
    } else {
      ShapeIs(text, blanks[..|blanks| - 1]);
      assert s[..|s| - 1] == text + blanks[..|blanks| - 1];
    }
  }

  lemma {:induction false} TrimmedAway(s: string)
    ensures TrimSpace(s) == "" <==> forall i :: 0 <= i < |s| ==> IsSpace(s[i])
  {
    var n := PrefixLen(s, IsSpace);
    var t := s[n..];
    if forall i :: 0 <= i < |s| ==> IsSpace(s[i]) {
      PrefixLenIs(s, IsSpace, |s|);
      assert t == "";
    }
  }

  /** A line shows without the blanks at its end, unless it is all space; then it does
      not show. */
  lemma {:induction false} ShownOne(raw: string, strip: string -> string, text: string, blanks: string)
    requires strip(raw) == text + blanks
    requires forall i :: 0 <= i < |blanks| ==> blanks[i] == ' ' || blanks[i] == '\t'
    requires text == "" || (text[|text| - 1] != ' ' && text[|text| - 1] != '\t')
    ensures Shown([raw], strip) == if forall i :: 0 <= i < |text| ==> IsSpace(text[i]) then [] else [text + "\n"]
  {
    ShapeIs(text, blanks);
    TrimmedAway(text);
    hide TrimRight, TrimSpace, IsSpace;
    assert [raw][..0] == [];
  }

  /** The captured text is a run of whole shown lines from the first on: all of them if
      the limit is not reached, and none begins behind the limit. */
  lemma {:induction false} CapturedIsPrefixOfShown(lines: seq<string>, strip: string -> string, limit: int)
    returns (k: nat)
    ensures Covers(Captured(lines, strip, limit), Shown(lines, strip), k, limit)
  {
    if lines == [] {
      k := 0;
    } else {
      var init := lines[..|lines| - 1];
      k := CapturedIsPrefixOfShown(init, strip, limit);
      CapturedStep(lines, strip, limit);
      var last := ShowsAs(lines[|lines| - 1], strip);
      hide Captured, Shown, ShowsAs, Joined;
      CoversMore(Captured(init, strip, limit), Shown(init, strip), last, k, limit);
      if last != [] && |Captured(init, strip, limit)| < limit {
        k := |Shown(lines, strip)|;
      }
    }
  }

  /** The text is the first k lines; the limit is why there are no more. */
  predicate Covers(text: string, shown: seq<string>, k: nat, limit: int) {
    && k <= |shown| && text == Joined(shown[..k]) && (|text| < limit ==> k == |shown|)
    && (k > 0 ==> |Joined(shown[..k - 1])| < limit)
  }

  lemma {:induction false} CoversMore(text: string, before: seq<string>, last: seq<string>, k: nat, limit: int)
    requires Covers(text, before, k, limit) && |last| <= 1
    ensures var more := last != [] && |text| < limit;
            Covers(if more then text + last[0] else text, before + last, if more then |before| + 1 else k, limit)
  {
    hide Joined;
    var more := last != [] && |text| < limit;
    if more {
      JoinedLast(before, last[0]);
      assert before + last == before + [last[0]] && before[..|before|] == before;
    } else {
      FrontOf(before, last, k);
    }
  }

  lemma CapturedStep(lines: seq<string>, strip: string -> string, limit: int)
    requires lines != []
    ensures var before := Captured(lines[..|lines| - 1], strip, limit);
            var last := ShowsAs(lines[|lines| - 1], strip);
            |last| <= 1 &&
            Captured(lines, strip, limit) ==
            (if last == [] || |before| >= limit then before else before + last[0]) &&
            Shown(lines, strip) == Shown(lines[..|lines| - 1], strip) + last
  {
    hide Shape, TrimSpace;
  }

  lemma FrontOf(before: seq<string>, last: seq<string>, k: nat)
    requires k <= |before|
    ensures (before + last)[..k] == before[..k] && (k > 0 ==> (before + last)[..k - 1] == before[..k - 1])
    ensures before[..|before|] == before
  {
  }

  lemma JoinedLast(before: seq<string>, line: string)
    ensures var all := before + [line];
            all[..|all|] == all && all[..|all| - 1] == before && Joined(all) == Joined(before) + line
  {
  }

  // ----- chunks

  /** The state after writing the chunks in turn. */
  function After(chunks: seq<string>): State {
    if chunks == [] then State([], "") else Written(After(chunks[..|chunks| - 1]), chunks[|chunks| - 1])
  }

  function Concat(chunks: seq<string>): string {
    if chunks == [] then "" else Concat(chunks[..|chunks| - 1]) + chunks[|chunks| - 1]
  }

  predicate Unbroken(s: string) { forall k :: 0 <= k < |s| ==> s[k] != NEWLINE }

  lemma CutUnbroken(s: string)
    requires Unbroken(s)
    ensures Cut(s) == ([], s)
  {
  }

  lemma CutAt(s: string, line: string, rest: string)
    requires Unbroken(line) && s == line + [NEWLINE] + rest
    ensures Cut(s).0 == [line] + Cut(rest).0 && Cut(s).1 == Cut(rest).1
  {
    var i := IndexWhere(s, IsNewline);
    assert s[|line|] == NEWLINE;
    assert forall k :: 0 <= k < |line| ==> s[k] == line[k];
    assert i == |line|;
    assert s[..i] == line && s[i + 1..] == rest;
  }

  /** The first line of a text and what follows it, if it has a newline. */
  lemma FirstLine(s: string) returns (line: string, rest: string)
    ensures Unbroken(line) && |line| + |rest| <= |s|
    ensures if Unbroken(s) then line == s else s == line + [NEWLINE] + rest && |rest| < |s|
  {
    var i := IndexWhere(s, IsNewline);
    if i == |s| {
      line, rest := s, "";
    } else {
      line, rest := s[..i], s[i + 1..];
    }
  }

  function Terminated(lines: seq<string>): string {
    if lines == [] then "" else lines[0] + [NEWLINE] + Terminated(lines[1..])
  }

  /** The lines are the text's own, in order, and hold no newline. */
  lemma {:induction false} CutLosesNothing(s: string)
    ensures s == Terminated(Cut(s).0) + Cut(s).1
    ensures forall k :: 0 <= k < |Cut(s).0| ==> Unbroken(Cut(s).0[k])
    ensures Unbroken(Cut(s).1)
    decreases |s|
  {
    hide Cut;
    var line, rest := FirstLine(s);
    if Unbroken(s) {
      CutUnbroken(s);
    } else {
      CutAt(s, line, rest);
      CutLosesNothing(rest);
      assert Cut(s).0[1..] == Cut(rest).0;
    }
  }

  /** Cutting a text piece by piece. */
  lemma {:induction false} CutAppend(s: string, p: string)
    ensures Cut(s + p).0 == Cut(s).0 + Cut(Cut(s).1 + p).0 && Cut(s + p).1 == Cut(Cut(s).1 + p).1
    decreases |s|
  {
    hide Cut;
    var line, rest := FirstLine(s);
    if Unbroken(s) {
      CutUnbroken(s);
    } else {
      CutAt(s, line, rest);
      assert s + p == line + [NEWLINE] + (rest + p);
      CutAt(s + p, line, rest + p);
      CutAppend(rest, p);
    }
  }

  /** What an unfinished line in front of a text changes: the text of its first line only. */
  lemma CutBehind(a: string, p: string)
    requires Unbroken(a)
    ensures |Cut(a + p).0| == |Cut(p).0|
    ensures Cut(a + p).1 == if Cut(p).0 == [] then a + p else Cut(p).1
  {
    hide Cut;
    var line, rest := FirstLine(p);
    if Unbroken(p) {
      CutUnbroken(p);
      CutUnbroken(a + p);
    } else {
      CutAt(p, line, rest);
      assert a + p == (a + line) + [NEWLINE] + rest;
      CutAt(a + p, a + line, rest);
    }
  }

  // ----- when chunking shows

  /** How many writes so far gave up an unfinished rest. */
  function GivenUp(chunks: seq<string>): nat {
    if chunks == [] then 0
    else
      var init, p := chunks[..|chunks| - 1], chunks[|chunks| - 1];
      GivenUp(init) + if |Cut(After(init).pending + p).1| > MAX_PENDING then 1 else 0
  }

  /** Input came after a rest was given up. */
  predicate Late(chunks: seq<string>) {
    chunks != [] &&
    var init := chunks[..|chunks| - 1];
    Late(init) || (GivenUp(init) > 0 && chunks[|chunks| - 1] != "")
  }

  /** How the lines cut so far compare with the cut w of the whole input so far. */
  predicate Tracks(st: State, w: (seq<string>, string), given: nat, late: bool) {
    && Unbroken(st.pending) && |st.pending| <= MAX_PENDING && Unbroken(w.1)
    && |st.lines| == |w.0| + given
    && (given == 0 ==> st == State(w.0, w.1))
    && (given > 0 && !late ==> st == State(w.0 + [w.1], "") && w.1 != "")
    && (late ==> given > 0)
    && (late && w.1 != "" ==> st.pending != "" || given >= 2)
  }

  lemma TracksOn(st: State, w: (seq<string>, string), given: nat, late: bool, p: string)
    requires Tracks(st, w, given, late)
    ensures var (more, rest) := Cut(w.1 + p);
            Tracks(Written(st, p), (w.0 + more, rest),
                   given + if |Cut(st.pending + p).1| > MAX_PENDING then 1 else 0,
                   late || (given > 0 && p != ""))
  {
    CutLosesNothing(st.pending + p);
    CutLosesNothing(w.1 + p);
    hide Cut, Unbroken, Tracks;
    if p == "" {
      TracksNothing(st, w, given, late);
    } else if given > 0 {
      RestsAgree(st, w, given, late, p);
      TracksGivenUp(st, w, given, late, p);
    } else {
      TracksExactly(st, w, given, late, p);
    }
  }

  lemma TracksNothing(st: State, w: (seq<string>, string), given: nat, late: bool)
    requires Tracks(st, w, given, late)
    ensures Cut(st.pending + "") == ([], st.pending) && Cut(w.1 + "") == ([], w.1)
    ensures |st.pending| <= MAX_PENDING
    ensures Tracks(Written(st, ""), (w.0 + Cut(w.1 + "").0, Cut(w.1 + "").1), given, late)
  {
    assert st.pending + "" == st.pending && w.1 + "" == w.1;
    CutUnbroken(st.pending);
    CutUnbroken(w.1);
    hide Cut, Unbroken;
    assert w.0 + [] == w.0 && st.lines + [] == st.lines;
  }

  lemma TracksExactly(st: State, w: (seq<string>, string), given: nat, late: bool, p: string)
    requires Tracks(st, w, given, late) && given == 0
    requires Unbroken(Cut(w.1 + p).1)
    ensures var (more, rest) := Cut(w.1 + p);
            Tracks(Written(st, p), (w.0 + more, rest), if |Cut(st.pending + p).1| > MAX_PENDING then 1 else 0, late)
  {
    hide Cut;
    CutUnbrokenEmpty();
    hide Unbroken;
  }

  lemma RestsAgree(st: State, w: (seq<string>, string), given: nat, late: bool, p: string)
    requires Tracks(st, w, given, late) && p != ""
    ensures |Cut(st.pending + p).0| == |Cut(w.1 + p).0|
    ensures Cut(w.1 + p).1 != "" ==> Cut(st.pending + p).1 != ""
  {
    CutBehind(st.pending, p);
    CutBehind(w.1, p);
    hide Cut, Unbroken;
  }

  lemma TracksGivenUp(st: State, w: (seq<string>, string), given: nat, late: bool, p: string)
    requires Tracks(st, w, given, late) && given > 0 && p != ""
    requires |Cut(st.pending + p).0| == |Cut(w.1 + p).0|
    requires Cut(w.1 + p).1 != "" ==> Cut(st.pending + p).1 != ""
    requires Unbroken(Cut(w.1 + p).1) && Unbroken(Cut(st.pending + p).1)
    ensures var (more, rest) := Cut(w.1 + p);
            Tracks(Written(st, p), (w.0 + more, rest),
                   given + if |Cut(st.pending + p).1| > MAX_PENDING then 1 else 0, true)
  {
    hide Cut;
    CutUnbrokenEmpty();
    hide Unbroken;
  }

  lemma CutUnbrokenEmpty()
    ensures Unbroken("")
  {
  }

  /** Every line but the given-up rests is a line of the whole input. */
  lemma {:induction false} AfterTracksWhole(chunks: seq<string>)
    ensures Tracks(After(chunks), Cut(Concat(chunks)), GivenUp(chunks), Late(chunks))
  {
    if chunks != [] {
      var init, p := chunks[..|chunks| - 1], chunks[|chunks| - 1];
      AfterTracksWhole(init);
      TracksOn(After(init), Cut(Concat(init)), GivenUp(init), Late(init), p);
      CutAppend(Concat(init), p);
      hide Cut, Tracks;
      assert Cut(Concat(chunks)) == (Cut(Concat(chunks)).0, Cut(Concat(chunks)).1);
    }
  }

  /** The unfinished rest of the input after its first k chunks. */
  function RestAfter(chunks: seq<string>, k: nat): string
    requires k <= |chunks|
  {
    Cut(Concat(chunks[..k])).1
  }

  /** Some prefix of the chunks leaves a rest that is too long, and more input follows. */
  ghost predicate Overflows(chunks: seq<string>) {
    exists k :: 0 <= k <= |chunks| && |RestAfter(chunks, k)| > MAX_PENDING &&
                Concat(chunks[..k]) != Concat(chunks)
  }

  ghost predicate TooLong(chunks: seq<string>) {
    exists k :: 0 <= k <= |chunks| && |RestAfter(chunks, k)| > MAX_PENDING
  }

  /** A rest is given up exactly when some rest of the input is too long. */
  lemma {:induction false} GivenUpIsTooLong(chunks: seq<string>)
    ensures GivenUp(chunks) > 0 <==> TooLong(chunks)
  {
    if chunks == [] {
      CutUnbroken("");
    } else {
      var init, p := chunks[..|chunks| - 1], chunks[|chunks| - 1];
      GivenUpIsTooLong(init);
      AfterTracksWhole(init);
      CutAppend(Concat(init), p);
      PrefixRests(chunks);
      hide Cut, Concat, After;
    }
  }

  lemma PrefixRests(chunks: seq<string>)
    requires chunks != []
    ensures TooLong(chunks) <==> TooLong(chunks[..|chunks| - 1]) || |Cut(Concat(chunks)).1| > MAX_PENDING
  {
    var init := chunks[..|chunks| - 1];
    hide Cut, Concat;
    assert chunks[..|chunks|] == chunks;
    forall k | 0 <= k <= |init| ensures RestAfter(chunks, k) == RestAfter(init, k) {
      assert chunks[..k] == init[..k];
    }
    if k :| 0 <= k <= |init| && |RestAfter(init, k)| > MAX_PENDING {
      assert |RestAfter(chunks, k)| > MAX_PENDING;
    }
    if |Cut(Concat(chunks)).1| > MAX_PENDING {
      assert |RestAfter(chunks, |chunks|)| > MAX_PENDING;
    }
  }

  lemma {:induction false} ConcatGrows(chunks: seq<string>, k: nat)
    requires k <= |chunks|
    ensures Concat(chunks[..k]) <= Concat(chunks)
  {
    if k < |chunks| {
      var init := chunks[..|chunks| - 1];
      ConcatGrows(init, k);
      assert init[..k] == chunks[..k];
    } else {
      assert chunks[..k] == chunks;
    }
  }

  lemma OverflowsNext(chunks: seq<string>)
    requires chunks != []
    ensures var init := chunks[..|chunks| - 1];
            Overflows(chunks) <==> Overflows(init) || (TooLong(init) && chunks[|chunks| - 1] != "")
  {
    var init, p := chunks[..|chunks| - 1], chunks[|chunks| - 1];
    assert Concat(chunks) == Concat(init) + p;
    assert chunks[..|chunks|] == chunks;
    hide Cut, Concat;
    forall k | 0 <= k <= |init|
      ensures RestAfter(chunks, k) == RestAfter(init, k) && chunks[..k] == init[..k]
      ensures Concat(init[..k]) != Concat(init) + p <==> Concat(init[..k]) != Concat(init) || p != ""
    {
      assert chunks[..k] == init[..k];
      ConcatGrows(init, k);
      if Concat(init[..k]) != Concat(init) {
        assert |Concat(init[..k])| < |Concat(init)|;
      }
    }
    hide RestAfter;
    if Overflows(init) {
      var k :| 0 <= k <= |init| && |RestAfter(init, k)| > MAX_PENDING && Concat(init[..k]) != Concat(init);
      assert |RestAfter(chunks, k)| > MAX_PENDING && Concat(chunks[..k]) != Concat(chunks);
    }
    if TooLong(init) && p != "" {
      var k :| 0 <= k <= |init| && |RestAfter(init, k)| > MAX_PENDING;
      assert |RestAfter(chunks, k)| > MAX_PENDING && Concat(chunks[..k]) != Concat(chunks);
    }
  }

  lemma {:induction false} LateIsOverflow(chunks: seq<string>)
    ensures Late(chunks) <==> Overflows(chunks)
  {
    if chunks != [] {
      LateIsOverflow(chunks[..|chunks| - 1]);
      GivenUpIsTooLong(chunks[..|chunks| - 1]);
      OverflowsNext(chunks);
      hide Overflows, TooLong, GivenUp;
    }
  }

  /** The lines do not depend on how the input is split exactly when no rest overflows
      before the end of the input. */
  lemma {:induction false} ChunkingDoesNotMatter(chunks: seq<string>)
    ensures Flushed(After(chunks)) == Lines(Concat(chunks)) <==> !Overflows(chunks)
  {
    AfterTracksWhole(chunks);
    LateIsOverflow(chunks);
    hide Cut, Concat, After, Late, Overflows;
    assert |Lines(Concat(chunks))| == |Cut(Concat(chunks)).0| + if Cut(Concat(chunks)).1 == "" then 0 else 1;
  }

  function Filled(n: nat): (s: string)
    ensures |s| == n && Unbroken(s)
  {
    seq(n, i => 'x')
  }

  /** At the limit the rest is kept: with a second chunk it is still one line. */
  lemma {:induction false} LimitKeepsLine()
    ensures var long := Filled(65536); Flushed(After([long, "x"])) == [long + "x"]
  {
    var long := Filled(65536);
    hide Filled;
    AfterTwo(long, "x");
    CutUnbroken(long);
    CutUnbroken(long + "x");
    hide Cut, Unbroken;
    assert "" + long == long;
  }

  /** A first chunk without a newline and one character above the limit: with a second
      chunk, one line becomes two. */
  lemma {:induction false} OverflowBreaksLine()
    ensures var long := Filled(65537);
            Flushed(After([long, "x"])) == [long, "x"] && Lines(Concat([long, "x"])) == [long + "x"]
  {
    hide Filled, Flushed, After, Lines, Concat;
    OverflowBreaks(Filled(65537));
  }

  lemma {:induction false} OverflowBreaks(long: string)
    requires Unbroken(long) && |long| == 65537
    ensures Flushed(After([long, "x"])) == [long, "x"] && Lines(Concat([long, "x"])) == [long + "x"]
  {
    AfterTwo(long, "x");
    CutUnbroken(long);
    CutUnbroken("x");
    CutUnbroken(long + "x");
    hide Cut, Unbroken;
    assert "" + long == long && "" + "x" == "x" && [] + [] + [long] == [long];
  }

  lemma AfterTwo(p: string, q: string)
    ensures After([p, q]) == Written(Written(State([], ""), p), q) && Concat([p, q]) == p + q
  {
    assert [p, q][..1] == [p] && [p][..0] == [];
    assert After([p]) == Written(After([]), p);
    assert After([p, q]) == Written(After([p]), q);
    assert Concat([p]) == "" + p == p;
    assert Concat([p, q]) == Concat([p]) + q;
  }
}
