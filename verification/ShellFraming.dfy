/**
 Cutting a command's output out of a persistent shell's screen (cmd/sta/terminal_tools.go):
 the command line prints a start mark and an end mark around the output, the second one with
 the exit code.
 */
module ShellFraming {
  import opened Common
  import opened TextTrim

  const StartMark := "__SHUTU_PERSISTENT_START_"
  const EndMark := "__SHUTU_PERSISTENT_END_"

  // ---------- Searching ----------

  /** strings.Index. */
  function Index(s: string, p: string): Option<nat> {
    if p <= s then Some(0)
    else if s == "" then None
    else if Index(s[1..], p).Some? then Some(Index(s[1..], p).value + 1)
    else None
  }

  /** strings.LastIndex. */
  function LastIndex(s: string, p: string): Option<nat> {
    if s != "" && LastIndex(s[1..], p).Some? then Some(LastIndex(s[1..], p).value + 1)
    else if p <= s then Some(0)
    else None
  }

  predicate OccursAt(s: string, p: string, i: nat) {
    i <= |s| && p <= s[i..]
  }

  /** The first occurrence of `p` is at `i`. */
  predicate FirstAt(s: string, p: string, i: nat) {
    OccursAt(s, p, i) && forall j | 0 <= j < i :: !OccursAt(s, p, j)
  }

  predicate LastAt(s: string, p: string, i: nat) {
    OccursAt(s, p, i) && forall j | i < j <= |s| :: !OccursAt(s, p, j)
  }

  lemma OccursInTail(s: string, p: string, i: nat)
    requires s != ""
    ensures OccursAt(s, p, i + 1) <==> OccursAt(s[1..], p, i)
  {
    if i < |s| { assert s[i + 1..] == s[1..][i..]; }
  }

  lemma {:induction false} IndexIsFirst(s: string, p: string)
    ensures Index(s, p).Some? ==> FirstAt(s, p, Index(s, p).value)
    ensures Index(s, p).None? ==> forall i | 0 <= i <= |s| :: !OccursAt(s, p, i)
  {
    assert s[0..] == s;
    if !(p <= s) && s != "" {
      IndexIsFirst(s[1..], p);
      forall i: nat | i < |s| ensures OccursAt(s, p, i + 1) <==> OccursAt(s[1..], p, i) { OccursInTail(s, p, i); }
      forall i: nat | 0 < i <= |s| ensures OccursAt(s, p, i) <==> OccursAt(s[1..], p, i - 1) {}
    }
  }

  lemma {:induction false} LastIndexIsLast(s: string, p: string)
    ensures LastIndex(s, p).Some? ==> LastAt(s, p, LastIndex(s, p).value)
    ensures LastIndex(s, p).None? ==> forall i | 0 <= i <= |s| :: !OccursAt(s, p, i)
  {
    assert s[0..] == s;
    if s != "" {
      LastIndexIsLast(s[1..], p);
      forall i: nat | i < |s| ensures OccursAt(s, p, i + 1) <==> OccursAt(s[1..], p, i) { OccursInTail(s, p, i); }
      forall i: nat | 0 < i <= |s| ensures OccursAt(s, p, i) <==> OccursAt(s[1..], p, i - 1) {}
    }
  }

  /** A position that is first is the one found. */
  lemma FirstIsFound(s: string, p: string, i: nat)
    requires FirstAt(s, p, i)
    ensures Index(s, p) == Some(i)
  {
    IndexIsFirst(s, p);
  }

  lemma LastIsFound(s: string, p: string, i: nat)
    requires LastAt(s, p, i)
    ensures LastIndex(s, p) == Some(i)
  {
    LastIndexIsLast(s, p);
  }

  // ---------- The result ----------

  /** strings.TrimRight of the line break characters. */
  function TrimBreaks(s: string): string {
    if s != "" && (s[|s| - 1] == '\r' || s[|s| - 1] == '\n') then TrimBreaks(s[..|s| - 1]) else s
  }

  function WithCode(body: string, statusLine: string): string {
    match Index(statusLine, "\n")
    case None => body
    case Some(newline) =>
      IndexIsFirst(statusLine, "\n");
      var status := Trim(statusLine[..newline]);
      match LastIndex(status, ":")
      case None => body
      case Some(colon) =>
        LastIndexIsLast(status, ":");
        var code := Trim(status[colon + 1..]);
        if code != "" && code != "0" then body + "\n[exit code: " + code + "]" else body
  }

  function Cut(content: string): string {
    match Index(content, EndMark)
    case None => Trim(content)
    case Some(end) =>
      IndexIsFirst(content, EndMark);
      WithCode(TrimBreaks(content[..end]), content[end..])
  }

  /** What is returned from a text that begins with the line of the start mark. */
  function BehindLine(tail: string): string {
    match Index(tail, "\n")
    case None => ""
    case Some(lineEnd) =>
      IndexIsFirst(tail, "\n");
      Cut(tail[lineEnd + 1..])
  }

  function Result(viewport: string): string {
    match LastIndex(viewport, StartMark)
    case None => viewport
    case Some(start) =>
      LastIndexIsLast(viewport, StartMark);
      BehindLine(viewport[start..])
  }

  // ---------- What a framed screen gives ----------

  /** Nonces and exit codes: visible at both ends, and free of line breaks and colons. */
  predicate Plain(s: string) {
    '\n' !in s && ':' !in s && Trim(s) == s
  }

  /** A terminal may end its lines with a carriage return and a line feed. */
  predicate IsReturn(ret: string) {
    ret == "" || ret == "\r"
  }

  /** What one command leaves on the screen behind `before`, and what has come since. */
  datatype Frame = Frame(before: string, nonce: string, output: string, code: string, ret: string, after: string) {
    predicate Valid() {
      Plain(nonce) && Plain(code) && code != "" && IsReturn(ret)
    }

    function StatusLine(): string { EndMark + nonce + ":" + code + ret }

    function Content(): string { output + (StatusLine() + "\n" + after) }

    function StartLine(): string { StartMark + nonce + "__" + ret }

    function Screen(): string { before + (StartLine() + "\n" + Content()) }

    function Outcome(): string {
      if code == "0" then TrimBreaks(output) else TrimBreaks(output) + "\n[exit code: " + code + "]"
    }
  }

  lemma BreakIsFirst(line: string, after: string)
    requires '\n' !in line
    ensures var s := line + "\n" + after;
      Index(s, "\n") == Some(|line|) && s[..|line|] == line && s[|line| + 1..] == after
  {
    var s := line + "\n" + after;
    assert s[|line|..] == "\n" + after;
    forall j | 0 <= j < |line| ensures !OccursAt(s, "\n", j) { assert s[j..][0] == line[j]; }
    FirstIsFound(s, "\n", |line|);
  }

  lemma ColonIsLast(front: string, code: string)
    requires ':' !in code
    ensures var s := front + ":" + code; LastIndex(s, ":") == Some(|front|) && s[|front| + 1..] == code
  {
    var s := front + ":" + code;
    assert s[|front|..] == ":" + code;
    forall j | |front| < j <= |s| ensures !OccursAt(s, ":", j) {
      if j < |s| { assert s[j..][0] == code[j - |front| - 1]; }
    }
    LastIsFound(s, ":", |front|);
  }

  lemma LineIsTrimmed(front: string, code: string, ret: string)
    requires front != "" && !IsSpace(front[0]) && code != "" && Trim(code) == code && IsReturn(ret)
    ensures Trim(front + ":" + code + ret) == front + ":" + code
  {
    var line := front + ":" + code;
    TrimLeftStarts(line + ret);
    TrimLeftStarts(code);
    assert line[|line| - 1] == code[|code| - 1];
    assert ret == "" ==> line + ret == line;
    assert ret == "\r" ==> (line + ret)[..|line|] == line;
  }

  /** The line of the end mark gives its exit code. */
  lemma CodeIsRead(f: Frame, body: string)
    requires f.Valid()
    ensures WithCode(body, f.StatusLine() + "\n" + f.after)
         == if f.code == "0" then body else body + "\n[exit code: " + f.code + "]"
  {
    var front := EndMark + f.nonce;
    assert '\n' !in f.StatusLine();
    BreakIsFirst(f.StatusLine(), f.after);
    LineIsTrimmed(front, f.code, f.ret);
    ColonIsLast(front, f.code);
  }

  /** Between the marks of one command the output is cut out, with its exit code unless that is zero. */
  lemma ContentIsCut(f: Frame)
    requires f.Valid() && FirstAt(f.Content(), EndMark, |f.output|)
    ensures Cut(f.Content()) == f.Outcome()
  {
    FirstIsFound(f.Content(), EndMark, |f.output|);
    assert f.Content()[..|f.output|] == f.output && f.Content()[|f.output|..] == f.StatusLine() + "\n" + f.after;
    CodeIsRead(f, TrimBreaks(f.output));
  }

  lemma StartIsFound(f: Frame)
    requires f.Valid() && LastAt(f.Screen(), StartMark, |f.before|)
    ensures Result(f.Screen()) == Cut(f.Content())
  {
    LastIsFound(f.Screen(), StartMark, |f.before|);
    ScreenTail(f);
    LineIsSkipped(f.StartLine(), f.Content());
  }

  lemma ScreenTail(f: Frame)
    requires f.Valid()
    ensures f.Screen()[|f.before|..] == f.StartLine() + "\n" + f.Content() && '\n' !in f.StartLine()
  {}

  lemma LineIsSkipped(line: string, content: string)
    requires '\n' !in line
    ensures BehindLine(line + "\n" + content) == Cut(content)
  {
    BreakIsFirst(line, content);
  }

  // ---------- When the outcome is what is returned ----------

  /** Trailing line breaks go, and nothing in front of a character that is none. */
  lemma {:induction false} TrimBreaksKeeps(s: string, i: nat)
    requires i < |s| && s[i] != '\r' && s[i] != '\n'
    ensures i < |TrimBreaks(s)|
  {
    if s[|s| - 1] == '\r' || s[|s| - 1] == '\n' { TrimBreaksKeeps(s[..|s| - 1], i); }
  }

  /** What is trimmed are all the line breaks at the end, and nothing else. */
  lemma {:induction false} TrimBreaksIsPrefix(s: string)
    ensures TrimBreaks(s) <= s
    ensures var t := TrimBreaks(s); t != "" ==> t[|t| - 1] != '\r' && t[|t| - 1] != '\n'
    ensures forall i | |TrimBreaks(s)| <= i < |s| :: s[i] == '\r' || s[i] == '\n'
  {
    if s != "" && (s[|s| - 1] == '\r' || s[|s| - 1] == '\n') { TrimBreaksIsPrefix(s[..|s| - 1]); }
  }

  lemma CodeAtMost(body: string, statusLine: string)
    ensures var r := WithCode(body, statusLine); r == body || body + "\n[exit code: " <= r
  {}

  /** A body that stops before the breaks in front of an underscore is not the whole, with an exit code or without. */
  lemma StopsShort(body: string, cut: string, whole: string, end: nat)
    requires cut == body || body + "\n[exit code: " <= cut
    requires |body| <= end < |whole| && whole[end] == '_'
    requires forall i | |body| <= i < end :: whole[i] == '\r' || whole[i] == '\n'
    ensures cut != whole
  {
    if body + "\n[exit code: " <= cut {
      assert cut[|body|] == (body + "\n[exit code: ")[|body|] == '\n';
      assert cut[|body| + 1] == (body + "\n[exit code: ")[|body| + 1] == '[';
    }
  }

  /** An output cut off before an underscore cannot come out whole, whatever exit code is read behind it. */
  lemma CutIsLost(output: string, end: nat, cut: string, whole: string)
    requires end < |output| && output[end] == '_'
    requires var body := TrimBreaks(output[..end]); cut == body || body + "\n[exit code: " <= cut
    requires TrimBreaks(output) <= whole
    ensures cut != whole
  {
    var front := output[..end];
    var body := TrimBreaks(front);
    TrimBreaksKeeps(output, end);
    TrimBreaksIsPrefix(output);
    TrimBreaksIsPrefix(front);
    assert whole[end] == output[end] && forall i | 0 <= i < end :: whole[i] == output[i] == front[i];
    StopsShort(body, cut, whole, end);
  }

  lemma EarlyEndIsLost(f: Frame, end: nat)
    requires FirstAt(f.Content(), EndMark, end) && end < |f.output|
    ensures Cut(f.Content()) != f.Outcome()
  {
    CutAtFirst(f.Content(), end);
    assert f.Content()[end..][0] == EndMark[0] == '_';
    assert f.Content()[..end] == f.output[..end];
    assert TrimBreaks(f.output) <= f.Outcome();
    CutIsLost(f.output, end, Cut(f.Content()), f.Outcome());
  }

  lemma OwnEndOccurs(f: Frame)
    ensures OccursAt(f.Content(), EndMark, |f.output|)
  {
    assert f.Content()[|f.output|..] == f.StatusLine() + "\n" + f.after;
  }

  /** Behind the right start mark, the outcome is returned exactly if the first end mark is the command's own. */
  lemma ContentIsCutExactlyWhen(f: Frame)
    requires f.Valid()
    ensures Cut(f.Content()) == f.Outcome() <==> FirstAt(f.Content(), EndMark, |f.output|)
  {
    OwnEndOccurs(f);
    IndexIsFirst(f.Content(), EndMark);
    var end := Index(f.Content(), EndMark).value;
    if end == |f.output| { ContentIsCut(f); } else { EarlyEndIsLost(f, end); }
  }

  /**
   A screen on which the last start mark is the one the command printed gives the command's
   output without its last line breaks, and its exit code unless that is zero, exactly if the
   first end mark behind it is the command's own too.
   */
  lemma ScreenIsCutExactlyWhen(f: Frame)
    requires f.Valid() && LastAt(f.Screen(), StartMark, |f.before|)
    ensures Result(f.Screen()) == f.Outcome() <==> FirstAt(f.Content(), EndMark, |f.output|)
  {
    StartIsFound(f);
    ContentIsCutExactlyWhen(f);
  }

  // ---------- An output that prints a start mark ----------

  predicate Holds(s: string, p: string) {
    exists i | 0 <= i <= |s| :: OccursAt(s, p, i)
  }

  lemma PartsHoldLess(s: string, lo: nat, hi: nat, p: string)
    requires lo <= hi <= |s| && Holds(s[lo..hi], p)
    ensures Holds(s, p)
  {
    var part := s[lo..hi];
    var i :| 0 <= i <= |part| && OccursAt(part, p, i);
    assert p == part[i..][..|p|] == s[lo + i..][..|p|];
    assert OccursAt(s, p, lo + i);
  }

  lemma {:induction false} TrimLeftIsSuffix(s: string) returns (lo: nat)
    ensures lo <= |s| && TrimLeft(s) == s[lo..]
  {
    lo := 0;
    if s != "" && IsSpace(s[0]) {
      lo := TrimLeftIsSuffix(s[1..]);
      lo := lo + 1;
    }
  }

  lemma TrimHoldsLess(s: string, p: string)
    requires Holds(Trim(s), p)
    ensures Holds(s, p)
  {
    var lo := TrimLeftIsSuffix(s);
    assert Trim(s) == s[lo..lo + |Trim(s)|];
    PartsHoldLess(s, lo, lo + |Trim(s)|, p);
  }

  /** A start mark in a text made with other characters between lies in one of the two parts. */
  lemma MarkIsNotAcross(a: string, between: string, b: string)
    requires between != "" && forall c | c in between :: c !in StartMark
    requires Holds(a + between + b, StartMark)
    ensures Holds(a, StartMark) || Holds(b, StartMark)
  {
    var s := a + between + b;
    forall j | |a| <= j < |a| + |between| ensures s[j] in between { assert s[j] == between[j - |a|]; }
    var i :| 0 <= i <= |s| && OccursAt(s, StartMark, i);
    var first := if i < |a| then |a| - i else 0;
    if first < |StartMark| {
      assert s[i..][first] == s[i + first] == StartMark[first] && s[i + first] in StartMark;
    }
    if first >= |StartMark| {
      assert a[i..][..|StartMark|] == s[i..][..|StartMark|];
      assert OccursAt(a, StartMark, i);
    } else {
      var j := i - |a| - |between|;
      assert b[j..] == s[i..];
      assert OccursAt(b, StartMark, j);
    }
  }

  lemma TrimmedPartHoldsNoMark(s: string, lo: nat, hi: nat)
    requires lo <= hi <= |s| && !Holds(s, StartMark)
    ensures !Holds(Trim(s[lo..hi]), StartMark)
  {
    if Holds(Trim(s[lo..hi]), StartMark) {
      TrimHoldsLess(s[lo..hi], StartMark);
      PartsHoldLess(s, lo, hi, StartMark);
    }
  }

  lemma CodeHoldsNoMark(body: string, statusLine: string)
    requires !Holds(body, StartMark) && !Holds(statusLine, StartMark)
    ensures !Holds(WithCode(body, statusLine), StartMark)
  {
    if Index(statusLine, "\n").Some? {
      IndexIsFirst(statusLine, "\n");
      var newline := Index(statusLine, "\n").value;
      var status := Trim(statusLine[..newline]);
      assert statusLine[0..newline] == statusLine[..newline];
      TrimmedPartHoldsNoMark(statusLine, 0, newline);
      if LastIndex(status, ":").Some? {
        LastIndexIsLast(status, ":");
        var colon := LastIndex(status, ":").value;
        assert status[colon + 1..|status|] == status[colon + 1..];
        TrimmedPartHoldsNoMark(status, colon + 1, |status|);
        FramedCodeHoldsNoMark(body, Trim(status[colon + 1..]));
      }
    }
  }

  lemma FramedCodeHoldsNoMark(body: string, code: string)
    requires !Holds(body, StartMark) && !Holds(code, StartMark)
    ensures !Holds(body + "\n[exit code: " + code + "]", StartMark)
  {
    var s := body + "\n[exit code: " + code + "]";
    assert s == body + "\n[exit code: " + (code + "]") && code + "]" == code + "]" + "";
    if Holds(s, StartMark) {
      MarkIsNotAcross(body, "\n[exit code: ", code + "]");
      MarkIsNotAcross(code, "]", "");
    }
  }

  lemma BehindTheLastMark(s: string, start: nat, from: nat)
    requires LastAt(s, StartMark, start) && start < from <= |s|
    ensures !Holds(s[from..], StartMark)
  {
    forall i | 0 <= i <= |s| - from ensures !OccursAt(s[from..], StartMark, i) {
      assert s[from..][i..] == s[from + i..];
      assert !OccursAt(s, StartMark, from + i);
    }
  }

  lemma CutBehindHoldsNoMark(tail: string, from: nat)
    requires LastAt(tail, StartMark, 0) && 0 < from <= |tail|
    ensures !Holds(Cut(tail[from..]), StartMark)
  {
    BehindTheLastMark(tail, 0, from);
    CutHoldsNoMark(tail[from..]);
  }

  lemma BehindLineIsCut(tail: string) returns (from: nat)
    ensures BehindLine(tail) == "" || (0 < from <= |tail| && BehindLine(tail) == Cut(tail[from..]))
  {
    from := 0;
    match Index(tail, "\n")
    case None =>
    case Some(lineEnd) =>
      IndexIsFirst(tail, "\n");
      from := lineEnd + 1;
  }

  lemma EmptyHoldsNothing(mark: string)
    requires mark != ""
    ensures !Holds("", mark)
  {}

  lemma BehindLineHoldsNoMark(tail: string)
    requires LastAt(tail, StartMark, 0)
    ensures !Holds(BehindLine(tail), StartMark)
  {
    EmptyHoldsNothing(StartMark);
    var from := BehindLineIsCut(tail);
    if BehindLine(tail) != "" { CutBehindHoldsNoMark(tail, from); }
  }

  /** What is returned from a marked screen never holds a start mark. */
  lemma ResultHoldsNoMark(viewport: string, start: nat)
    requires LastAt(viewport, StartMark, start)
    ensures !Holds(Result(viewport), StartMark)
  {
    LastIsFound(viewport, StartMark, start);
    var tail := viewport[start..];
    assert tail[0..] == tail;
    forall i | 0 < i <= |tail| ensures !OccursAt(tail, StartMark, i) {
      assert tail[i..] == viewport[start + i..];
      assert !OccursAt(viewport, StartMark, start + i);
    }
    BehindLineHoldsNoMark(tail);
  }

  lemma CutHoldsNoMark(content: string)
    requires !Holds(content, StartMark)
    ensures !Holds(Cut(content), StartMark)
  {
    if Index(content, EndMark).None? {
      if Holds(Trim(content), StartMark) { TrimHoldsLess(content, StartMark); }
    } else {
      IndexIsFirst(content, EndMark);
      var end := Index(content, EndMark).value;
      var body := TrimBreaks(content[..end]);
      TrimBreaksIsPrefix(content[..end]);
      assert body == content[0..|body|] && content[end..] == content[end..|content|];
      if Holds(body, StartMark) { PartsHoldLess(content, 0, |body|, StartMark); }
      if Holds(content[end..], StartMark) { PartsHoldLess(content, end, |content|, StartMark); }
      CodeHoldsNoMark(body, content[end..]);
    }
  }

  /** The start mark at a position of the screen is the command's own, or lies inside its output. */
  predicate InOutput(f: Frame, at: nat) {
    var head := |f.before| + |f.StartLine()| + 1;
    head <= at && at + |StartMark| <= head + |f.output|
  }

  lemma OutcomeHoldsMark(f: Frame, at: nat)
    requires InOutput(f, at) && OccursAt(f.Screen(), StartMark, at)
    ensures Holds(f.Outcome(), StartMark)
  {
    var head := |f.before| + |f.StartLine()| + 1;
    var i, n := at - head, |StartMark|;
    assert f.Screen()[head..head + |f.output|] == f.output;
    assert f.Screen()[at..][..n] == StartMark && f.output[i..i + n] == f.Screen()[at..][..n];
    TrimBreaksHolds(f.output, i);
    var kept := TrimBreaks(f.output);
    assert kept <= f.Outcome() && kept == f.Outcome()[0..|kept|];
    PartsHoldLess(f.Outcome(), 0, |kept|, StartMark);
  }

  lemma TrimBreaksHolds(s: string, i: nat)
    requires i + |StartMark| <= |s| && s[i..i + |StartMark|] == StartMark
    ensures Holds(TrimBreaks(s), StartMark)
  {
    var n := |StartMark|;
    assert s[i + n - 1] == s[i..i + n][n - 1] == StartMark[n - 1] == '_';
    TrimBreaksKeeps(s, i + n - 1);
    TrimBreaksIsPrefix(s);
    var kept := TrimBreaks(s);
    assert kept[i..][..n] == s[i..i + n];
    assert OccursAt(kept, StartMark, i);
  }

  /**
   The exact condition, for a screen whose last start mark is the command's own or one that
   its output prints: the outcome is returned exactly if the output prints no start mark and
   the first end mark is the command's own.
   */
  lemma OutputIsReturnedExactlyWhen(f: Frame, at: nat)
    requires f.Valid() && LastAt(f.Screen(), StartMark, at) && (at == |f.before| || InOutput(f, at))
    ensures Result(f.Screen()) == f.Outcome() <==> at == |f.before| && FirstAt(f.Content(), EndMark, |f.output|)
  {
    if at == |f.before| {
      ScreenIsCutExactlyWhen(f);
    } else {
      ResultHoldsNoMark(f.Screen(), at);
      OutcomeHoldsMark(f, at);
    }
  }

  // ---------- Screens without both marks ----------

  /** Without a start mark the screen is returned as it is. */
  lemma UnmarkedScreenIsReturned(viewport: string)
    requires !Holds(viewport, StartMark)
    ensures Result(viewport) == viewport
  {
    LastIndexIsLast(viewport, StartMark);
  }

  /** Nothing is returned while the line of the last start mark has not ended. */
  lemma UnfinishedLineGivesNothing(viewport: string, start: nat)
    requires LastAt(viewport, StartMark, start) && '\n' !in viewport[start..]
    ensures Result(viewport) == ""
  {
    LastIsFound(viewport, StartMark, start);
    NoBreakFound(viewport[start..]);
  }

  /** While no end mark has come, what stands behind that line is returned, trimmed. */
  lemma UnfinishedOutputIsTrimmed(viewport: string, start: nat, line: string, content: string)
    requires LastAt(viewport, StartMark, start) && viewport[start..] == line + "\n" + content
    requires '\n' !in line && !Holds(content, EndMark)
    ensures Result(viewport) == Trim(content)
  {
    LastIsFound(viewport, StartMark, start);
    BreakFound(line, content);
    assert viewport[start..][|line| + 1..] == content;
    IndexIsFirst(content, EndMark);
  }

  lemma NoBreakFound(line: string)
    requires '\n' !in line
    ensures Index(line, "\n").None?
  {
    IndexIsFirst(line, "\n");
    forall i | 0 <= i <= |line| ensures !OccursAt(line, "\n", i) {
      if i < |line| { assert line[i..][0] == line[i]; }
    }
  }

  lemma BreakFound(mark: string, content: string)
    requires '\n' !in mark
    ensures Index(mark + "\n" + content, "\n") == Some(|mark|)
  {
    var s := mark + "\n" + content;
    assert s[|mark|..] == "\n" + content;
    forall i | 0 <= i < |mark| ensures !OccursAt(s, "\n", i) { assert s[i..][0] == mark[i]; }
    FirstIsFound(s, "\n", |mark|);
  }

  // ---------- Two screens ----------

  /** A start mark has an A, so that none begins behind the last A of a screen. */
  lemma LastMark(front: string, tail: string)
    requires 'A' !in tail
    ensures LastAt(front + StartMark + tail, StartMark, |front|)
  {
    var s := front + StartMark + tail;
    assert s[|front|..] == StartMark + tail && StartMark <= StartMark + tail;
    forall i | |front| < i <= |s| ensures !OccursAt(s, StartMark, i) {
      if i + 21 < |s| {
        assert s[i..][21] == s[i + 21];
        assert i + 21 < |front| + |StartMark| ==> s[i + 21] == StartMark[i + 21 - |front|];
        assert i + 21 >= |front| + |StartMark| ==> s[i + 21] == tail[i + 21 - |front| - |StartMark|];
        assert s[i + 21] != StartMark[21];
      }
    }
  }

  /** A command that prints an end mark loses its output. */
  lemma PrintedEndMarkIsLost(f: Frame)
    requires f == Frame("", "n", EndMark, "0", "", "")
    ensures f.Valid() && LastAt(f.Screen(), StartMark, 0) && Result(f.Screen()) != f.Outcome()
  {
    SinglesAreTrimmed();
    NoEarlyEnd(f);
    OwnStartIsLast(f);
    ScreenIsCutExactlyWhen(f);
  }

  lemma NoEarlyEnd(f: Frame)
    requires EndMark <= f.output
    ensures !FirstAt(f.Content(), EndMark, |f.output|)
  {
    assert f.Content()[0..] == f.Content() && EndMark <= f.Content();
    assert OccursAt(f.Content(), EndMark, 0);
  }

  /** Without an A in anything else, the start mark of the command is the last one. */
  lemma OwnStartIsLast(f: Frame)
    requires 'A' !in f.nonce && 'A' !in f.output && 'A' !in f.code && 'A' !in f.ret && 'A' !in f.after
    ensures LastAt(f.Screen(), StartMark, |f.before|)
  {
    var tail := f.nonce + "__" + f.ret + "\n" + f.Content();
    assert f.Screen() == f.before + StartMark + tail;
    LastMark(f.before, tail);
  }

  /** And so does one that prints a start mark. */
  lemma PrintedStartMarkIsLost(f: Frame)
    requires f == Frame("", "n", StartMark, "0", "", "")
    ensures f.Valid() && LastAt(f.Screen(), StartMark, 29) && Result(f.Screen()) != f.Outcome()
  {
    SinglesAreTrimmed();
    var front, tail := f.StartLine() + "\n", f.StatusLine() + "\n";
    assert f.Screen() == front + StartMark + tail;
    LastMark(front, tail);
    OutputIsReturnedExactlyWhen(f, 29);
  }

  lemma SinglesAreTrimmed()
    ensures Trim("n") == "n" && Trim("0") == "0"
  {
    TrimLeftStarts("n");
    TrimLeftStarts("0");
  }

  /** The nonce is not looked at: an output that prints an end mark of its own is cut off there. */
  lemma OwnMarkCutsOff(f: Frame, a: string)
    requires f.Valid() && a <= f.output
    requires FirstAt(f.Content(), EndMark, |a|) && LastAt(f.Screen(), StartMark, |f.before|)
    ensures var cut := Result(f.Screen());
      && (cut == TrimBreaks(a) || TrimBreaks(a) + "\n[exit code: " <= cut)
      && (a != f.output ==> cut != f.Outcome())
  {
    StartIsFound(f);
    ContentCutAt(f, a);
    if a != f.output { EarlyEndIsLost(f, |a|); }
  }

  lemma ContentCutAt(f: Frame, a: string)
    requires a <= f.output && FirstAt(f.Content(), EndMark, |a|)
    ensures var cut := Cut(f.Content()); cut == TrimBreaks(a) || TrimBreaks(a) + "\n[exit code: " <= cut
  {
    CutAtFirst(f.Content(), |a|);
    assert f.Content()[..|a|] == a;
  }

  lemma CutAtFirst(content: string, end: nat)
    requires FirstAt(content, EndMark, end)
    ensures var body, cut := TrimBreaks(content[..end]), Cut(content); cut == body || body + "\n[exit code: " <= cut
  {
    FirstIsFound(content, EndMark, end);
    CodeAtMost(TrimBreaks(content[..end]), content[end..]);
  }
}
