/**
 The bounded capture of Ansible output.  Bytes are modelled as characters; the
 ghost field `stream` is everything written so far, and the invariant ties each
 incremental buffer to a function of that whole stream.
 */
module BoundedOutput {
  import opened Text

  const MAX_OUTPUT: nat := 64 * 1024
  const MAX_DIAGNOSTIC: nat := 16 * 1024
  const HALF: nat := MAX_OUTPUT / 2
  const MARKER := "\n[output truncated]\n"

  // ----- head and tail retention -----

  function LastN(s: string, n: nat): string {
    if |s| <= n then s else s[|s| - n..]
  }

  /** What `Bytes` must return for a stream, however it was written. */
  function Retained(s: string): string {
    if |s| <= MAX_OUTPUT then s else s[..HALF] + MARKER + s[|s| - HALF..]
  }

  function RetainSuffix(current: string, data: string, limit: nat): (r: string)
    ensures r == LastN(current + data, limit)
  {
    if |data| >= limit then
      assert LastN(current + data, limit) == data[|data| - limit..];
      data[|data| - limit..]
    else
      var combined := current + data;
      if |combined| > limit then combined[|combined| - limit..] else combined
  }

  function FirstN(s: string, n: nat): string {
    if |s| <= n then s else s[..n]
  }

  lemma {:induction false} FirstNStep(s: string, d: string, n: nat)
    requires |s| <= n
    ensures FirstN(s + d, n) == s + d[..if n - |s| > |d| then |d| else n - |s|]
  {
  }

  lemma {:induction false} LastNStep(s: string, d: string, n: nat)
    ensures LastN(LastN(s, n) + d, n) == LastN(s + d, n)
  {
  }

  // ----- diagnostic lines -----

  predicate IsDiagnosticLine(line: string) {
    || ContainsText(line, "[ERROR]:") || ContainsText(line, "fatal:")
    || ContainsText(line, "FAILED!") || ContainsText(line, "unreachable=")
  }

  /** The complete lines of a text, folded from the left. */
  function FoldLines<T>(t: T, s: string, f: (T, string) -> T): T
    decreases |s|
  {
    var i := IndexOf(s, '\n');
    if i == |s| then t else FoldLines(f(t, s[..i]), s[i + 1..], f)
  }

  /** What follows the last newline. */
  function Unfinished(s: string): string
    decreases |s|
  {
    var i := IndexOf(s, '\n');
    if i == |s| then s else Unfinished(s[i + 1..])
  }

  /** Folding in two pieces is folding at once. */
  lemma {:induction false} FoldSplit<T>(t: T, a: string, b: string, f: (T, string) -> T)
    ensures FoldLines(t, a + b, f) == FoldLines(FoldLines(t, a, f), Unfinished(a) + b, f)
    ensures Unfinished(a + b) == Unfinished(Unfinished(a) + b)
    decreases |a|
  {
    var i := IndexOf(a, '\n');
    if i < |a| {
      var next, rest := f(t, a[..i]), a[i + 1..];
      NewlineStays(a, b, i);
      FirstStep(t, a, f);
      FirstStep(t, a + b, f);
      FoldSplit(next, rest, b, f);
    } else {
      assert FoldLines(t, a, f) == t && Unfinished(a) == a;
    }
  }

  /** Unfolding at the first newline, if there is one. */
  lemma FirstStep<T>(t: T, s: string, f: (T, string) -> T)
    ensures var i := IndexOf(s, '\n');
            if i == |s| then FoldLines(t, s, f) == t && Unfinished(s) == s
            else FoldLines(t, s, f) == FoldLines(f(t, s[..i]), s[i + 1..], f) && Unfinished(s) == Unfinished(s[i + 1..])
  {
  }

  lemma NewlineStays(a: string, b: string, i: nat)
    requires i == IndexOf(a, '\n') && i < |a|
    ensures IndexOf(a + b, '\n') == i && (a + b)[..i] == a[..i] && (a + b)[i + 1..] == a[i + 1..] + b
  {
    assert (a + b)[..i] == a[..i];
    IndexOfUnique(a + b, '\n', i);
  }

  /** If `f` follows `g` through `h` line by line, it does so over the whole text. */
  lemma {:induction false} FoldFusion<T(!new), U>(t: T, s: string, good: T -> bool, g: (T, string) -> T, h: T -> U,
                                                  f: (U, string) -> U)
    requires good(t) && forall x, l :: good(x) ==> good(g(x, l)) && f(h(x), l) == h(g(x, l))
    ensures good(FoldLines(t, s, g)) && FoldLines(h(t), s, f) == h(FoldLines(t, s, g))
    decreases |s|
  {
    var i := IndexOf(s, '\n');
    if i < |s| {
      FoldFusion(g(t, s[..i]), s[i + 1..], good, g, h, f);
    }
  }

  lemma {:induction false} UnfinishedIsSuffix(s: string)
    ensures |Unfinished(s)| <= |s| && s[|s| - |Unfinished(s)|..] == Unfinished(s) && '\n' !in Unfinished(s)
    decreases |s|
  {
    var i := IndexOf(s, '\n');
    if i < |s| {
      UnfinishedIsSuffix(s[i + 1..]);
      var u := Unfinished(s);
      assert s[|s| - |u|..] == s[i + 1..][|s| - i - 1 - |u|..];
    } else {
      assert s[..i] == s;
    }
  }

  // ----- the text that is captured, and its clipped form -----

  function AddText(text: string, line: string): string {
    if IsDiagnosticLine(line) then text + line + "\n" else text
  }

  /** All complete diagnostic lines of a text, in order, each with its newline. */
  function DiagnosticText(s: string): string {
    FoldLines("", s, AddText)
  }

  /** A diagnostic text cut to the limit, still newline-terminated. */
  function Clip(s: string): string {
    if |s| <= MAX_DIAGNOSTIC then s else s[..MAX_DIAGNOSTIC - 1] + "\n"
  }

  predicate EndsLine(s: string) {
    s == "" || s[|s| - 1] == '\n'
  }

  /** Appending a diagnostic line to what is kept: refused when full, shortened to what fits. */
  function KeepOne(kept: string, line: string): string {
    if !IsDiagnosticLine(line) || |kept| >= MAX_DIAGNOSTIC then kept
    else
      var room := MAX_DIAGNOSTIC - |kept|;
      kept + (if |line| + 1 > room then line[..room - 1] else line) + "\n"
  }

  /** Keeping a line of the clipped text is clipping the longer text. */
  lemma {:induction false} ClipStep(full: string, line: string)
    requires EndsLine(full)
    ensures EndsLine(AddText(full, line)) && KeepOne(Clip(full), line) == Clip(AddText(full, line))
  {
  }

  lemma {:induction false} ClipBounds(s: string)
    requires EndsLine(s)
    ensures EndsLine(Clip(s)) && |Clip(s)| <= MAX_DIAGNOSTIC
  {
  }

  lemma KeptIsClipped(full: string, scan: string)
    requires EndsLine(full)
    ensures EndsLine(FoldLines(full, scan, AddText))
    ensures FoldLines(Clip(full), scan, KeepOne) == Clip(FoldLines(full, scan, AddText))
  {
    forall x, l | EndsLine(x)
      ensures EndsLine(AddText(x, l)) && KeepOne(Clip(x), l) == Clip(AddText(x, l))
    {
      ClipStep(x, l);
    }
    FoldFusion(full, scan, EndsLine, AddText, Clip, KeepOne);
  }

  // ----- which lines these are -----

  const MARKS := ["[ERROR]:", "fatal:", "FAILED!", "unreachable="]

  ghost predicate Marked(line: string) {
    exists i, before, after :: 0 <= i < 4 && line == before + MARKS[i] + after
  }

  lemma ContainsIff(line: string, sub: string)
    ensures ContainsText(line, sub) <==> exists before, after :: line == before + sub + after
  {
    if ContainsText(line, sub) {
      var i :| 0 <= i <= |line| && HasAt(line, sub, i);
      assert line == line[..i] + sub + line[i + |sub|..];
    }
    if before, after :| line == before + sub + after {
      assert line[|before|..|before| + |sub|] == sub;
      assert HasAt(line, sub, |before|);
    }
  }

  /** A line is a diagnostic one exactly when one of the four marks occurs in it. */
  lemma MarkedIff(line: string)
    ensures IsDiagnosticLine(line) <==> Marked(line)
  {
    ContainsIff(line, MARKS[0]);
    ContainsIff(line, MARKS[1]);
    ContainsIff(line, MARKS[2]);
    ContainsIff(line, MARKS[3]);
    if IsDiagnosticLine(line) {
      var i :| 0 <= i < 4 && ContainsText(line, MARKS[i]);
      var before, after :| line == before + MARKS[i] + after;
    }
    if Marked(line) {
      var i, before, after :| 0 <= i < 4 && line == before + MARKS[i] + after;
      assert ContainsText(line, MARKS[i]);
    }
  }

  /** The marked ones of some lines, each ended by a newline. */
  ghost function MarkedOf(lines: seq<string>): string {
    if lines == [] then ""
    else MarkedOf(lines[..|lines| - 1]) + (if Marked(lines[|lines| - 1]) then lines[|lines| - 1] + "\n" else "")
  }

  lemma {:induction false} MarkedOfCons(line: string, lines: seq<string>)
    ensures MarkedOf([line] + lines) == (if Marked(line) then line + "\n" else "") + MarkedOf(lines)
    decreases |lines|
  {
    var all := [line] + lines;
    if lines == [] {
      assert all[..0] == [];
    } else {
      MarkedOfCons(line, lines[..|lines| - 1]);
      assert all[..|all| - 1] == [line] + lines[..|lines| - 1] && all[|all| - 1] == lines[|lines| - 1];
    }
  }

  lemma {:induction false} FoldIsMarked(text: string, s: string)
    ensures var lines := Split(s, '\n');
            FoldLines(text, s, AddText) == text + MarkedOf(lines[..|lines| - 1])
    decreases |s|
  {
    var i := IndexOf(s, '\n');
    if i < |s| {
      var line, rest := s[..i], Split(s[i + 1..], '\n');
      FoldIsMarked(AddText(text, line), s[i + 1..]);
      MarkedIff(line);
      MarkedOfCons(line, rest[..|rest| - 1]);
      assert Split(s, '\n')[..|rest|] == [line] + rest[..|rest| - 1];
    }
  }

  /** The diagnostic text of a stream: its complete lines that are marked, and no others. */
  lemma DiagnosticTextIs(s: string)
    ensures var lines := Split(s, '\n'); DiagnosticText(s) == MarkedOf(lines[..|lines| - 1])
  {
    FoldIsMarked("", s);
  }

  /** Its clipped form: all of it, or its first 16383 bytes and a newline. */
  lemma ClippedTextIs(s: string)
    ensures |s| <= 16384 ==> Clip(s) == s
    ensures |s| > 16384 ==> Clip(s) == s[..16383] + "\n"
  {
  }

  /** A marked line for which there is room is kept whole, after what was kept before it. */
  lemma MarkedLineIsKept(s: string, a: string, line: string, b: string)
    requires IsLineOf(a, line, b, s) && Marked(line) && |DiagnosticText(a)| + |line| + 1 <= 16384
    ensures HasPrefix(Clip(DiagnosticText(s)), DiagnosticText(a) + line + "\n")
  {
    var head := DiagnosticText(a) + line + "\n";
    MarkedIff(line);
    AfterWholeLines("", a, line + "\n" + b);
    FirstLine(DiagnosticText(a), line, b, AddText);
    FoldGrows(head, b);
    ClipKeeps(DiagnosticText(s), head);
  }

  lemma ClipKeeps(s: string, head: string)
    requires head <= s && |head| <= 16384 && head != "" && head[|head| - 1] == '\n'
    ensures HasPrefix(Clip(s), head)
  {
    if |s| > 16384 {
      if |head| == 16384 {
        assert head == s[..16384] && head == s[..16383] + [s[16383]];
      } else {
        assert s[..16383][..|head|] == head;
      }
    }
  }

  lemma {:induction false} FoldGrows(text: string, s: string)
    ensures text <= FoldLines(text, s, AddText)
    decreases |s|
  {
    var i := IndexOf(s, '\n');
    if i < |s| {
      FoldGrows(AddText(text, s[..i]), s[i + 1..]);
    }
  }

  // ----- capture over a sequence of writes -----

  function Flatten(chunks: seq<string>): string {
    if chunks == [] then "" else Flatten(chunks[..|chunks| - 1]) + chunks[|chunks| - 1]
  }

  /** Fold and scan buffer after some writes; the scan keeps only its last bytes. */
  function Captured<T>(t: T, chunks: seq<string>, f: (T, string) -> T): (T, string) {
    if chunks == [] then (t, "")
    else
      var (text, scan) := Captured(t, chunks[..|chunks| - 1], f);
      var pending := scan + chunks[|chunks| - 1];
      (FoldLines(text, pending, f), LastN(Unfinished(pending), MAX_DIAGNOSTIC))
  }

  lemma CapturedNext<T>(t: T, chunks: seq<string>, chunk: string, f: (T, string) -> T)
    ensures var (text, scan) := Captured(t, chunks, f);
            Captured(t, chunks + [chunk], f) ==
            (FoldLines(text, scan + chunk, f), LastN(Unfinished(scan + chunk), MAX_DIAGNOSTIC))
  {
    assert (chunks + [chunk])[..|chunks|] == chunks;
  }

  // ----- when what is kept depends on the stream alone -----

  predicate IsSuffix(t: string, s: string) {
    |t| <= |s| && t == s[|s| - |t|..]
  }

  /** Cutting the front of a line cannot make it a diagnostic one. */
  lemma CutStaysPlain(line: string, cut: string)
    requires IsSuffix(cut, line) && !IsDiagnosticLine(line)
    ensures !IsDiagnosticLine(cut)
  {
    forall sub, i | HasAt(cut, sub, i) ensures ContainsText(line, sub) {
      var k := i + |line| - |cut|;
      assert line[k..k + |sub|] == cut[i..i + |sub|];
      assert HasAt(line, sub, k);
    }
  }

  /** `line` is a complete line of `s`, after `a` and before `b`. */
  predicate IsLineOf(a: string, line: string, b: string, s: string) {
    s == a + (line + "\n" + b) && Unfinished(a) == "" && '\n' !in line
  }

  /**
   Cutting the line cannot be seen: it is not a diagnostic one, or it fits, or the
   buffer is full, or however far it is cut it stays a diagnostic line that begins
   alike, as far as there is room for it.
   */
  predicate CutIsInvisible(before: string, line: string) {
    IsDiagnosticLine(line) && |line| > MAX_DIAGNOSTIC && |before| < MAX_DIAGNOSTIC ==>
      forall k :: 0 <= k <= |line| - MAX_DIAGNOSTIC ==>
        IsDiagnosticLine(line[k..]) && HasPrefix(line[k..], line[..MAX_DIAGNOSTIC - |before| - 1])
  }

  ghost predicate CutsAreInvisible(s: string) {
    forall a, line, b :: IsLineOf(a, line, b, s) ==> CutIsInvisible(DiagnosticText(a), line)
  }

  /** Streams without over-long diagnostic lines are among these. */
  lemma ShortLinesAreInvisible(s: string)
    requires forall a, line, b :: IsLineOf(a, line, b, s) && IsDiagnosticLine(line) ==> |line| <= MAX_DIAGNOSTIC
    ensures CutsAreInvisible(s)
  {
  }

  lemma InvisibleBefore(s: string, more: string)
    requires CutsAreInvisible(s + more)
    ensures CutsAreInvisible(s)
  {
    forall a, line, b | IsLineOf(a, line, b, s) ensures CutIsInvisible(DiagnosticText(a), line) {
      assert s + more == a + (line + "\n" + (b + more));
      assert IsLineOf(a, line, b + more, s + more);
    }
  }

  // ----- texts that are kept alike -----

  /** Equal, or both too long to be told apart once they are clipped. */
  predicate KeptAlike(text: string, full: string) {
    || text == full
    || (&& |text| >= MAX_DIAGNOSTIC && |full| >= MAX_DIAGNOSTIC
        && text[..MAX_DIAGNOSTIC - 1] == full[..MAX_DIAGNOSTIC - 1])
  }

  lemma AlikeClips(text: string, full: string)
    requires KeptAlike(text, full) && EndsLine(text) && EndsLine(full)
    ensures Clip(text) == Clip(full)
  {
    ClipOfLong(text);
    ClipOfLong(full);
  }

  lemma ClipOfLong(s: string)
    requires EndsLine(s)
    ensures |s| >= MAX_DIAGNOSTIC ==> Clip(s) == s[..MAX_DIAGNOSTIC - 1] + "\n"
  {
    if |s| == MAX_DIAGNOSTIC {
      assert s == s[..|s| - 1] + [s[|s| - 1]];
    }
  }

  lemma AlikeGrows(text: string, full: string, line: string)
    requires KeptAlike(text, full)
    ensures KeptAlike(AddText(text, line), AddText(full, line))
  {
    if text != full && IsDiagnosticLine(line) {
      PrefixStays(text, line);
      PrefixStays(full, line);
    }
  }

  lemma PrefixStays(text: string, line: string)
    requires |text| >= MAX_DIAGNOSTIC
    ensures |AddText(text, line)| >= MAX_DIAGNOSTIC
    ensures AddText(text, line)[..MAX_DIAGNOSTIC - 1] == text[..MAX_DIAGNOSTIC - 1]
  {
  }

  lemma {:induction false} AlikeFold(text: string, full: string, s: string)
    requires KeptAlike(text, full)
    ensures KeptAlike(FoldLines(text, s, AddText), FoldLines(full, s, AddText))
    decreases |s|
  {
    var i := IndexOf(s, '\n');
    if i < |s| {
      AlikeGrows(text, full, s[..i]);
      AlikeFold(AddText(text, s[..i]), AddText(full, s[..i]), s[i + 1..]);
    }
  }

  // ----- scanning from a cut line -----

  /** `scan` may stand for the unfinished line: it is that line, or a long enough end of it. */
  predicate StandsFor(scan: string, line: string) {
    IsSuffix(scan, line) && (scan == line || |scan| >= MAX_DIAGNOSTIC)
  }

  lemma FirstLine<T>(t: T, head: string, tail: string, f: (T, string) -> T)
    requires '\n' !in head
    ensures FoldLines(t, head + "\n" + tail, f) == FoldLines(f(t, head), tail, f)
    ensures Unfinished(head + "\n" + tail) == Unfinished(tail)
  {
    var s := head + "\n" + tail;
    assert s[..|head|] == head && s[|head| + 1..] == tail;
    IndexOfUnique(s, '\n', |head|);
  }

  lemma NoLine<T>(t: T, s: string, f: (T, string) -> T)
    requires '\n' !in s
    ensures FoldLines(t, s, f) == t && Unfinished(s) == s
  {
    IndexOfUnique(s, '\n', |s|);
  }

  lemma CutLineGrows(scan: string, line: string, more: string)
    requires StandsFor(scan, line)
    ensures StandsFor(LastN(scan + more, MAX_DIAGNOSTIC), line + more)
  {
    assert IsSuffix(scan + more, line + more);
  }

  lemma RoomFor(full: string, line: string)
    requires |line| >= MAX_DIAGNOSTIC > |full|
    ensures |full + line + "\n"| >= MAX_DIAGNOSTIC
    ensures (full + line + "\n")[..MAX_DIAGNOSTIC - 1] == full + line[..MAX_DIAGNOSTIC - |full| - 1]
  {
  }

  /** A cut line contributes what the whole line does, as far as it is kept. */
  lemma CutLineEnds(text: string, full: string, cut: string, line: string)
    requires KeptAlike(text, full) && StandsFor(cut, line) && CutIsInvisible(full, line)
    ensures KeptAlike(AddText(text, cut), AddText(full, line))
  {
    if cut == line {
      AlikeGrows(text, full, line);
    } else if !IsDiagnosticLine(line) {
      CutStaysPlain(line, cut);
    } else if |full| >= MAX_DIAGNOSTIC {
      PrefixStays(text, cut);
      PrefixStays(full, line);
    } else {
      var k := |line| - |cut|;
      assert line[k..] == cut && HasPrefix(line[k..], line[..MAX_DIAGNOSTIC - |full| - 1]);
      RoomFor(full, cut);
      RoomFor(full, line);
    }
  }

  lemma CutStands(scan: string, line: string, head: string)
    requires StandsFor(scan, line)
    ensures StandsFor(scan + head, line + head)
  {
  }

  lemma AtNewline(a: string, head: string, tail: string)
    ensures a + (head + "\n" + tail) == (a + head) + "\n" + tail
  {
  }

  lemma CutLineStepAt(text: string, full: string, scan: string, line: string, head: string, tail: string)
    requires KeptAlike(text, full) && StandsFor(scan, line) && '\n' !in line && '\n' !in head
    requires CutIsInvisible(full, line + head)
    ensures var chunk := head + "\n" + tail;
            && KeptAlike(FoldLines(text, scan + chunk, AddText), FoldLines(full, line + chunk, AddText))
            && Unfinished(scan + chunk) == Unfinished(line + chunk)
  {
    AtNewline(scan, head, tail);
    AtNewline(line, head, tail);
    CutStands(scan, line, head);
    assert '\n' !in scan + head && '\n' !in line + head;
    FirstLine(text, scan + head, tail, AddText);
    FirstLine(full, line + head, tail, AddText);
    CutLineEnds(text, full, scan + head, line + head);
    AlikeFold(AddText(text, scan + head), AddText(full, line + head), tail);
  }

  lemma SplitAtNewline(s: string, i: nat)
    requires i < |s| && s[i] == '\n'
    ensures s == s[..i] + "\n" + s[i + 1..]
  {
  }

  lemma LastNStandsFor(line: string)
    ensures StandsFor(LastN(line, MAX_DIAGNOSTIC), line)
  {
  }

  /** One write, scanned from the cut line instead of the whole one; `a` is everything before that line. */
  lemma CutLineStep(text: string, scan: string, a: string, line: string, chunk: string)
    requires KeptAlike(text, DiagnosticText(a)) && StandsFor(scan, line) && '\n' !in line && Unfinished(a) == ""
    requires CutsAreInvisible(a + (line + chunk))
    ensures KeptAlike(FoldLines(text, scan + chunk, AddText), FoldLines(DiagnosticText(a), line + chunk, AddText))
    ensures StandsFor(LastN(Unfinished(scan + chunk), MAX_DIAGNOSTIC), Unfinished(line + chunk))
  {
    var i := IndexOf(chunk, '\n');
    if i == |chunk| {
      assert chunk[..i] == chunk;
      NoLine(text, scan + chunk, AddText);
      NoLine(DiagnosticText(a), line + chunk, AddText);
      CutLineGrows(scan, line, chunk);
    } else {
      var head, tail := chunk[..i], chunk[i + 1..];
      SplitAtNewline(chunk, i);
      AtNewline(line, head, tail);
      assert IsLineOf(a, line + head, tail, a + (line + chunk));
      CutLineStepAt(text, DiagnosticText(a), scan, line, head, tail);
      LastNStandsFor(Unfinished(line + chunk));
    }
  }

  lemma Regroup(a: string, b: string, c: string)
    ensures a + (b + c) == (a + b) + c
  {
  }

  lemma NothingBefore(s: string)
    ensures "" + s == s
  {
  }

  /** Everything up to the last newline. */
  lemma {:induction false} WholeLines(s: string) returns (a: string)
    ensures s == a + Unfinished(s) && Unfinished(a) == "" && DiagnosticText(a) == DiagnosticText(s)
    decreases |s|
  {
    UnfinishedIsSuffix(s);
    var u := Unfinished(s);
    a := s[..|s| - |u|];
    assert s == a + u;
    EndsWhole(s, a);
    AfterWholeLines("", a, u);
    NoLine(DiagnosticText(a), u, AddText);
  }

  lemma {:induction false} EndsWhole(s: string, a: string)
    requires s == a + Unfinished(s)
    ensures Unfinished(a) == ""
    decreases |s|
  {
    var i := IndexOf(s, '\n');
    if i < |s| {
      UnfinishedIsSuffix(s[i + 1..]);
      var u := Unfinished(s[i + 1..]);
      assert |a| >= i + 1;
      assert a[..i] == s[..i] && a[i] == s[i];
      IndexOfUnique(a, '\n', i);
      assert s[i + 1..] == a[i + 1..] + u;
      EndsWhole(s[i + 1..], a[i + 1..]);
    } else {
      assert a == "";
    }
  }

  lemma AfterWholeLines(text: string, a: string, rest: string)
    requires Unfinished(a) == ""
    ensures FoldLines(text, a + rest, AddText) == FoldLines(FoldLines(text, a, AddText), rest, AddText)
    ensures Unfinished(a + rest) == Unfinished(rest)
  {
    FoldSplit(text, a, rest, AddText);
    NothingBefore(rest);
  }

  lemma {:induction false} InvisibleCapture(chunks: seq<string>)
    requires CutsAreInvisible(Flatten(chunks))
    ensures var (text, scan) := Captured("", chunks, AddText);
            && KeptAlike(text, DiagnosticText(Flatten(chunks)))
            && StandsFor(scan, Unfinished(Flatten(chunks)))
  {
    if chunks != [] {
      var before, last := chunks[..|chunks| - 1], chunks[|chunks| - 1];
      var s := Flatten(before);
      InvisibleBefore(s, last);
      InvisibleCapture(before);
      UnfinishedIsSuffix(s);
      var a := WholeLines(s);
      var (text, scan) := Captured("", before, AddText);
      Regroup(a, Unfinished(s), last);
      CutLineStep(text, scan, a, Unfinished(s), last);
      AfterWholeLines("", a, Unfinished(s) + last);
    }
  }

  lemma KeptWholeLines(s: string)
    ensures EndsLine(DiagnosticText(s))
  {
    KeptIsClipped("", s);
  }

  /** So what is kept is the clipped diagnostic text of the stream. */
  lemma InvisibleIsKept(chunks: seq<string>)
    requires CutsAreInvisible(Flatten(chunks))
    ensures Clip(Captured("", chunks, AddText).0) == Clip(DiagnosticText(Flatten(chunks)))
  {
    InvisibleCapture(chunks);
    CaptureBounds(chunks);
    KeptWholeLines(Flatten(chunks));
    AlikeClips(Captured("", chunks, AddText).0, DiagnosticText(Flatten(chunks)));
  }

  // ----- a visible cut -----

  lemma CapturedOne<T>(t: T, one: string, f: (T, string) -> T)
    ensures Captured(t, [one], f) == (FoldLines(t, one, f), LastN(Unfinished(one), MAX_DIAGNOSTIC))
    ensures Flatten([one]) == one
  {
    assert [one][..0] == [] && "" + one == one;
  }

  lemma CapturedTwo<T>(t: T, one: string, two: string, f: (T, string) -> T)
    ensures Captured(t, [one, two], f).0 ==
            FoldLines(FoldLines(t, one, f), LastN(Unfinished(one), MAX_DIAGNOSTIC) + two, f)
    ensures Flatten([one, two]) == one + two
  {
    assert [one, two][..1] == [one];
    CapturedOne(t, one, f);
  }

  lemma OneLine(text: string, line: string)
    requires '\n' !in line
    ensures FoldLines(text, line + "\n", AddText) == AddText(text, line)
  {
    FirstLine(text, line, "", AddText);
    NoLine(AddText(text, line), "", AddText);
    assert line + "\n" + "" == line + "\n";
  }

  /** The two writes that cut a line at `k`. */
  function CutAt(a: string, line: string, k: nat): seq<string>
    requires k + MAX_DIAGNOSTIC <= |line|
  {
    [a + line[..k + MAX_DIAGNOSTIC], line[k + MAX_DIAGNOSTIC..] + "\n"]
  }

  lemma CutPieces(line: string, k: nat)
    requires k + MAX_DIAGNOSTIC <= |line|
    ensures var m := k + MAX_DIAGNOSTIC;
            && line[..m] + (line[m..] + "\n") == line + "\n"
            && LastN(line[..m], MAX_DIAGNOSTIC) + (line[m..] + "\n") == line[k..] + "\n"
  {
  }

  lemma WholeLineIsText(a: string, line: string)
    requires Unfinished(a) == "" && '\n' !in line
    ensures DiagnosticText(a + (line + "\n")) == AddText(DiagnosticText(a), line)
  {
    AfterWholeLines("", a, line + "\n");
    OneLine(DiagnosticText(a), line);
  }

  lemma StartIsScanned(a: string, head: string)
    requires Unfinished(a) == "" && '\n' !in head
    ensures DiagnosticText(a + head) == DiagnosticText(a) && Unfinished(a + head) == head
  {
    AfterWholeLines("", a, head);
    NoLine(DiagnosticText(a), head, AddText);
  }

  lemma CutIsCaptured(a: string, line: string, k: nat)
    requires Unfinished(a) == "" && '\n' !in line && k + MAX_DIAGNOSTIC <= |line|
    ensures Flatten(CutAt(a, line, k)) == a + (line + "\n")
    ensures Captured("", CutAt(a, line, k), AddText).0 == AddText(DiagnosticText(a), line[k..])
  {
    var m := k + MAX_DIAGNOSTIC;
    var head, tail := line[..m], line[m..] + "\n";
    CapturedTwo("", a + head, tail, AddText);
    CutPieces(line, k);
    Regroup(a, head, tail);
    StartIsScanned(a, head);
    OneLine(DiagnosticText(a), line[k..]);
  }

  lemma ClipOfLine(before: string, line: string)
    requires IsDiagnosticLine(line) && |line| >= MAX_DIAGNOSTIC > |before|
    ensures Clip(AddText(before, line)) == before + line[..MAX_DIAGNOSTIC - |before| - 1] + "\n"
  {
    RoomFor(before, line);
  }

  lemma CutIsSeen(before: string, line: string, k: nat)
    requires IsDiagnosticLine(line) && |line| > MAX_DIAGNOSTIC > |before| && k + MAX_DIAGNOSTIC <= |line|
    requires !IsDiagnosticLine(line[k..]) || !HasPrefix(line[k..], line[..MAX_DIAGNOSTIC - |before| - 1])
    ensures Clip(AddText(before, line[k..])) != Clip(AddText(before, line))
  {
    var n := MAX_DIAGNOSTIC - |before| - 1;
    ClipOfLine(before, line);
    assert |Clip(AddText(before, line))| == MAX_DIAGNOSTIC;
    if IsDiagnosticLine(line[k..]) {
      ClipOfLine(before, line[k..]);
      var one, two := before + line[k..][..n] + "\n", before + line[..n] + "\n";
      assert one[|before|..|before| + n] == line[k..][..n] && two[|before|..|before| + n] == line[..n];
    }
  }

  lemma VisibleCutIsKept(s: string) returns (chunks: seq<string>)
    requires !CutsAreInvisible(s)
    ensures Flatten(chunks) <= s
    ensures Clip(Captured("", chunks, AddText).0) != Clip(DiagnosticText(Flatten(chunks)))
  {
    var a, line, b :| IsLineOf(a, line, b, s) && !CutIsInvisible(DiagnosticText(a), line);
    var before := DiagnosticText(a);
    var k: nat :| k <= |line| - MAX_DIAGNOSTIC &&
                  (!IsDiagnosticLine(line[k..]) || !HasPrefix(line[k..], line[..MAX_DIAGNOSTIC - |before| - 1]));
    chunks := CutAt(a, line, k);
    CutIsCaptured(a, line, k);
    WholeLineIsText(a, line);
    CutIsSeen(before, line, k);
    assert s == a + (line + "\n") + b;
  }

  /**
   What is kept is a function of the stream alone, at every point of it and
   however it is written, if and only if none of its cuts can be seen.
   */
  lemma CaptureIgnoresChunkingIff(s: string)
    ensures (forall chunks :: Flatten(chunks) <= s ==>
               Clip(Captured("", chunks, AddText).0) == Clip(DiagnosticText(Flatten(chunks)))) <==>
            CutsAreInvisible(s)
  {
    if CutsAreInvisible(s) {
      forall chunks | Flatten(chunks) <= s
        ensures Clip(Captured("", chunks, AddText).0) == Clip(DiagnosticText(Flatten(chunks))) {
        assert s == Flatten(chunks) + s[|Flatten(chunks)|..];
        InvisibleBefore(Flatten(chunks), s[|Flatten(chunks)|..]);
        InvisibleIsKept(chunks);
      }
    } else {
      var chunks := VisibleCutIsKept(s);
    }
  }

  /** For every stream: the scan stays within the limit, and what was captured is whole lines. */
  lemma {:induction false} CaptureBounds(chunks: seq<string>)
    ensures EndsLine(Captured("", chunks, AddText).0) && |Captured("", chunks, AddText).1| <= MAX_DIAGNOSTIC
  {
    if chunks != [] {
      var before := chunks[..|chunks| - 1];
      CaptureBounds(before);
      var (text, scan) := Captured("", before, AddText);
      KeptIsClipped(text, scan + chunks[|chunks| - 1]);
    }
  }

  // ----- one long line, written two ways -----

  /** A line that overflows the scan buffer: whole in one write, only its tail once the newline comes later. */
  lemma {:induction false} LongLineTwoWays<T>(t: T, line: string, f: (T, string) -> T)
    requires '\n' !in line
    ensures Captured(t, [line + "\n"], f).0 == f(t, line)
    ensures Captured(t, [line, "\n"], f).0 == f(t, LastN(line, MAX_DIAGNOSTIC))
  {
    CapturedOne(t, line + "\n", f);
    CapturedTwo(t, line, "\n", f);
    var cut := LastN(line, MAX_DIAGNOSTIC);
    NoLine(t, line, f);
    FirstLine(t, line, "", f);
    FirstLine(t, cut, "", f);
    NoLine(f(t, line), "", f);
    NoLine(f(t, cut), "", f);
    assert line + "\n" + "" == line + "\n" && cut + "\n" + "" == cut + "\n";
  }

  function Repeat(c: char, n: nat): (s: string)
    ensures |s| == n && forall k :: 0 <= k < n ==> s[k] == c
  {
    seq(n, _ => c)
  }

  lemma NoDiagnosticIn(xs: string)
    requires forall k :: 0 <= k < |xs| ==> xs[k] == 'x'
    ensures !IsDiagnosticLine(xs)
  {
    forall sub: string, i | sub != "" && sub[0] != 'x' ensures !HasAt(xs, sub, i) {
      if 0 <= i <= |xs| - |sub| {
        assert xs[i..i + |sub|][0] == 'x';
      }
    }
  }

  /**
   A concrete case: a diagnostic line that is longer than the scan buffer is
   kept from one write and lost when its newline arrives in a second one.
   */
  lemma LongLineDependsOnChunking()
    ensures var line := "fatal:" + Repeat('x', MAX_DIAGNOSTIC);
            && Clip(Captured("", [line + "\n"], AddText).0) == line[..MAX_DIAGNOSTIC - 1] + "\n"
            && Clip(Captured("", [line, "\n"], AddText).0) == ""
  {
    var xs := Repeat('x', MAX_DIAGNOSTIC);
    var line := "fatal:" + xs;
    FatalLine(xs);
    LongLineTwoWays("", line, AddText);
    NoDiagnosticIn(xs);
    ClipOfLine("", line);
    NothingBefore(line[..MAX_DIAGNOSTIC - 1]);
  }

  lemma FatalLine(xs: string)
    requires |xs| == MAX_DIAGNOSTIC && '\n' !in xs
    ensures var line := "fatal:" + xs;
            IsDiagnosticLine(line) && LastN(line, MAX_DIAGNOSTIC) == xs && '\n' !in line && |line| > MAX_DIAGNOSTIC
  {
    var line := "fatal:" + xs;
    assert line[0..6] == "fatal:";
    assert HasAt(line, "fatal:", 0);
  }

  // ----- the loops -----

  /** The scanning loop: complete lines are consumed, the diagnostic ones appended while there is room. */
  method DrainLines(before: string, pending: string) returns (kept: string, scan: string)
    ensures kept == FoldLines(before, pending, KeepOne) && scan == Unfinished(pending)
  {
    kept, scan := before, pending;
    while true
      invariant FoldLines(kept, scan, KeepOne) == FoldLines(before, pending, KeepOne)
      invariant Unfinished(scan) == Unfinished(pending)
      decreases |scan|
    {
      var index := IndexOf(scan, '\n');
      if index == |scan| {
        break;
      }
      var line := scan[..index];
      scan := scan[index + 1..];
      if !IsDiagnosticLine(line) || |kept| >= MAX_DIAGNOSTIC {
        continue;
      }
      var remaining := MAX_DIAGNOSTIC - |kept|;
      if |line| + 1 > remaining {
        line := line[..remaining - 1];
      }
      kept := kept + line;
      kept := kept + "\n";
    }
  }

  /** Prefix and suffix once the stream no longer fits whole. */
  method Spill(ghost stream: string, prefix: string, suffix: string, chunk: string) returns (p: string, s: string)
    requires prefix == FirstN(stream, HALF) && suffix == LastN(stream, HALF)
    ensures p == FirstN(stream + chunk, HALF) && s == LastN(stream + chunk, HALF)
  {
    p := prefix;
    if |prefix| < HALF {
      FirstNStep(stream, chunk, HALF);
      var keep := HALF - |prefix|;
      if keep > |chunk| {
        keep := |chunk|;
      }
      p := prefix + chunk[..keep];
    }
    s := RetainSuffix(suffix, chunk, MAX_OUTPUT - HALF);
    LastNStep(stream, chunk, HALF);
  }

  // ----- the writer -----

  class BoundedOutput {
    var data: string
    var prefix: string
    var suffix: string
    var diagnostic: string
    var diagnosticScan: string
    var truncated: bool
    ghost var writes: seq<string>

    ghost predicate OutputValid(stream: string)
      reads this
    {
      && (truncated <==> |stream| > MAX_OUTPUT)
      && (!truncated ==> data == stream && prefix == "" && suffix == "")
      && (truncated ==> data == "" && prefix == FirstN(stream, HALF) && suffix == LastN(stream, HALF))
    }

    ghost predicate DiagnosticValid()
      reads this
    {
      && diagnostic == Clip(Captured("", writes, AddText).0)
      && diagnosticScan == Captured("", writes, AddText).1
    }

    ghost predicate Valid()
      reads this
    {
      OutputValid(Flatten(writes)) && DiagnosticValid()
    }

    constructor ()
      ensures Valid() && writes == []
    {
      data, prefix, suffix, diagnostic, diagnosticScan, truncated := "", "", "", "", "", false;
      writes := [];
    }

    method CaptureDiagnostics(chunk: string)
      requires DiagnosticValid()
      modifies this`diagnostic, this`diagnosticScan
      ensures diagnostic == Clip(Captured("", writes + [chunk], AddText).0)
      ensures diagnosticScan == Captured("", writes + [chunk], AddText).1
    {
      CapturedNext("", writes, chunk, AddText);
      CaptureBounds(writes);
      KeptIsClipped(Captured("", writes, AddText).0, diagnosticScan + chunk);
      diagnostic, diagnosticScan := DrainLines(diagnostic, diagnosticScan + chunk);
      if |diagnosticScan| > MAX_DIAGNOSTIC {
        diagnosticScan := diagnosticScan[|diagnosticScan| - MAX_DIAGNOSTIC..];
      }
    }

    method Retain(chunk: string, ghost stream: string)
      requires OutputValid(stream)
      modifies this`data, this`prefix, this`suffix, this`truncated
      ensures OutputValid(stream + chunk)
    {
      if !truncated && |data| + |chunk| <= MAX_OUTPUT {
        data := data + chunk;
        return;
      }
      if !truncated {
        prefix := prefix + FirstN(data, HALF);
        suffix := RetainSuffix(suffix, data, MAX_OUTPUT - HALF);
        assert "" + stream == stream && "" + FirstN(stream, HALF) == FirstN(stream, HALF);
        data := "";
        truncated := true;
      }
      prefix, suffix := Spill(stream, prefix, suffix, chunk);
    }

    /** The whole new state: the stream grows by exactly this chunk. */
    method Write(chunk: string) returns (n: nat)
      requires Valid()
      modifies this
      ensures Valid() && writes == old(writes) + [chunk] && n == |chunk|
    {
      CaptureDiagnostics(chunk);
      Retain(chunk, Flatten(writes));
      assert (writes + [chunk])[..|writes|] == writes;
      writes := writes + [chunk];
      n := |chunk|;
    }

    method Bytes() returns (r: string)
      requires Valid()
      ensures r == Retained(Flatten(writes))
      ensures |Flatten(writes)| <= 65536 ==> r == Flatten(writes)
      ensures |Flatten(writes)| > 65536 ==>
                r == Flatten(writes)[..32768] + "\n[output truncated]\n" + Flatten(writes)[|Flatten(writes)| - 32768..]
    {
      if !truncated {
        return data;
      }
      if |prefix| == 0 {
        return suffix;
      }
      if |suffix| == 0 {
        return prefix;
      }
      r := prefix + MARKER + suffix;
    }

    method DiagnosticBytes() returns (r: string)
      requires Valid()
      ensures EndsLine(r) && |r| <= MAX_DIAGNOSTIC
      ensures CutsAreInvisible(Flatten(writes)) ==> r == Clip(DiagnosticText(Flatten(writes)))
    {
      CaptureBounds(writes);
      ClipBounds(Captured("", writes, AddText).0);
      if CutsAreInvisible(Flatten(writes)) {
        InvisibleIsKept(writes);
      }
      r := diagnostic;
    }
  }

  /**
   Any stream, split into writes in any way: the retained bytes are a function
   of the stream alone, and so are the diagnostics when no cut line can be seen in them.
   */
  method Capture(chunks: seq<string>) returns (output: string, diagnostics: string)
    ensures output == Retained(Flatten(chunks))
    ensures EndsLine(diagnostics) && |diagnostics| <= MAX_DIAGNOSTIC
    ensures CutsAreInvisible(Flatten(chunks)) ==> diagnostics == Clip(DiagnosticText(Flatten(chunks)))
  {
    var b := new BoundedOutput();
    for i := 0 to |chunks|
      invariant b.Valid() && b.writes == chunks[..i]
    {
      var _ := b.Write(chunks[i]);
    }
    assert chunks[..|chunks|] == chunks;
    output := b.Bytes();
    diagnostics := b.DiagnosticBytes();
  }
}
