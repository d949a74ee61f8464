/** Splitting, joining and trimming text, as the Go string functions do. */
module Text {
  import opened Common

  function IndexOf(s: string, c: char): (i: nat)
    ensures i <= |s| && c !in s[..i] && (i < |s| ==> s[i] == c)
  {
    if s == "" || s[0] == c then 0 else 1 + IndexOf(s[1..], c)
  }

  lemma {:induction false} IndexOfUnique(s: string, c: char, i: nat)
    requires i <= |s| && c !in s[..i] && (i < |s| ==> s[i] == c)
    ensures IndexOf(s, c) == i
  {
    var k := IndexOf(s, c);
  }

  /** `strings.Split(s, sep)` for a one-character separator: never empty. */
  function Split(s: string, sep: char): (parts: seq<string>)
    ensures parts != [] && forall p <- parts :: sep !in p
    decreases |s|
  {
    var i := IndexOf(s, sep);
    if i == |s| then (assert s[..i] == s; [s]) else [s[..i]] + Split(s[i + 1..], sep)
  }

  function Join(parts: seq<string>, sep: string): string {
    if parts == [] then "" else if |parts| == 1 then parts[0] else parts[0] + sep + Join(parts[1..], sep)
  }

  lemma JoinCons(head: string, rest: seq<string>, sep: string)
    requires rest != []
    ensures Join([head] + rest, sep) == head + sep + Join(rest, sep)
  {
    assert ([head] + rest)[0] == head && ([head] + rest)[1..] == rest;
  }

  lemma AroundSeparator(s: string, i: nat)
    requires i < |s|
    ensures s == s[..i] + [s[i]] + s[i + 1..]
  {
  }

  lemma {:induction false} JoinSplit(s: string, sep: char)
    ensures Join(Split(s, sep), [sep]) == s
    decreases |s|
  {
    var i := IndexOf(s, sep);
    if i == |s| {
      assert s[..i] == s && Split(s, sep) == [s];
    } else {
      var rest := Split(s[i + 1..], sep);
      assert Split(s, sep) == [s[..i]] + rest;
      JoinCons(s[..i], rest, [sep]);
      JoinSplit(s[i + 1..], sep);
      AroundSeparator(s, i);
    }
  }

  /** Splitting at the first separator. */
  lemma SplitHead(head: string, sep: char, tail: string)
    requires sep !in head
    ensures Split(head + [sep] + tail, sep) == [head] + Split(tail, sep)
  {
    var s := head + [sep] + tail;
    assert s[..|head|] == head && s[|head| + 1..] == tail;
    IndexOfUnique(s, sep, |head|);
  }

  lemma SplitWhole(s: string, sep: char)
    requires sep !in s
    ensures Split(s, sep) == [s]
  {
    assert s[..|s|] == s;
    IndexOfUnique(s, sep, |s|);
  }

  lemma {:induction false} SplitJoin(parts: seq<string>, sep: char)
    requires parts != [] && forall p <- parts :: sep !in p
    ensures Split(Join(parts, [sep]), sep) == parts
    decreases |parts|
  {
    if |parts| == 1 {
      SplitWhole(parts[0], sep);
    } else {
      assert parts == [parts[0]] + parts[1..];
      JoinCons(parts[0], parts[1..], [sep]);
      SplitHead(parts[0], sep, Join(parts[1..], [sep]));
      SplitJoin(parts[1..], sep);
    }
  }

  predicate HasPrefix(s: string, prefix: string) {
    |prefix| <= |s| && s[..|prefix|] == prefix
  }

  predicate HasAt(s: string, sub: string, i: int) {
    0 <= i <= |s| - |sub| && s[i..i + |sub|] == sub
  }

  predicate ContainsText(s: string, sub: string) {
    exists i | 0 <= i <= |s| :: HasAt(s, sub, i)
  }

  predicate IsHex(c: char) {
    '0' <= c <= '9' || 'a' <= c <= 'f' || 'A' <= c <= 'F'
  }

  function Lower(c: char): char {
    if 'A' <= c <= 'Z' then c - 'A' + 'a' else c
  }

  /** `strings.EqualFold`, for texts compared with ASCII ones. */
  predicate EqualFold(a: string, b: string) {
    |a| == |b| && forall i :: 0 <= i < |a| ==> Lower(a[i]) == Lower(b[i])
  }

  /** The same letter, or its other case. */
  predicate SameLetter(a: char, b: char) {
    a == b || ('A' <= a <= 'Z' && b as int == a as int + 32) || ('A' <= b <= 'Z' && a as int == b as int + 32)
  }

  lemma EqualFoldIff(a: string, b: string)
    ensures EqualFold(a, b) <==> |a| == |b| && forall i :: 0 <= i < |a| ==> SameLetter(a[i], b[i])
  {
    forall i | 0 <= i < |a| && i < |b| ensures Lower(a[i]) == Lower(b[i]) <==> SameLetter(a[i], b[i]) {
    }
  }

  function TrimSuffix(s: string, suffix: string): string {
    if |suffix| <= |s| && s[|s| - |suffix|..] == suffix then s[..|s| - |suffix|] else s
  }

  /** The length of a text in bytes. */
  function Utf8Size(s: string): nat {
    if s == "" then 0
    else
      var c := s[0];
      (if c < '\U{80}' then 1 else if c < '\U{800}' then 2 else if c < '\U{10000}' then 3 else 4) + Utf8Size(s[1..])
  }

  lemma {:induction false} AsciiSize(s: string)
    ensures |s| <= Utf8Size(s) <= 4 * |s|
    ensures (forall c <- s :: c < '\U{80}') ==> Utf8Size(s) == |s|
    decreases |s|
  {
    if s != "" {
      AsciiSize(s[1..]);
      assert s[0] in s && forall c <- s[1..] :: c in s;
    }
  }

  // ----- white space -----

  /** `unicode.IsSpace`. */
  predicate IsSpace(c: char) {
    || c == ' ' || '\t' <= c <= '\r' || c == '\U{85}' || c == '\U{A0}' || c == '\U{1680}'
    || '\U{2000}' <= c <= '\U{200A}' || c == '\U{2028}' || c == '\U{2029}' || c == '\U{202F}'
    || c == '\U{205F}' || c == '\U{3000}'
  }

  function TrimLeft(s: string): string {
    if s != "" && IsSpace(s[0]) then TrimLeft(s[1..]) else s
  }

  function TrimRight(s: string): string {
    if s != "" && IsSpace(s[|s| - 1]) then TrimRight(s[..|s| - 1]) else s
  }

  /** `strings.TrimSpace`. */
  function TrimSpace(s: string): string {
    TrimRight(TrimLeft(s))
  }

  predicate Trimmed(s: string) {
    s != "" ==> !IsSpace(s[0]) && !IsSpace(s[|s| - 1])
  }

  lemma {:induction false} TrimLeftSlice(s: string)
    ensures |TrimLeft(s)| <= |s| && TrimLeft(s) == s[|s| - |TrimLeft(s)|..]
    ensures TrimLeft(s) != "" ==> !IsSpace(TrimLeft(s)[0])
    decreases |s|
  {
    if s != "" && IsSpace(s[0]) {
      TrimLeftSlice(s[1..]);
    }
  }

  lemma {:induction false} TrimRightSlice(s: string)
    ensures |TrimRight(s)| <= |s| && TrimRight(s) == s[..|TrimRight(s)|]
    ensures TrimRight(s) != "" ==> !IsSpace(TrimRight(s)[|TrimRight(s)| - 1])
    decreases |s|
  {
    if s != "" && IsSpace(s[|s| - 1]) {
      TrimRightSlice(s[..|s| - 1]);
    }
  }

  lemma TrimSpaceTrims(s: string)
    ensures Trimmed(TrimSpace(s)) && forall c <- TrimSpace(s) :: c in s
  {
    TrimLeftSlice(s);
    TrimRightSlice(TrimLeft(s));
  }

  lemma TrimTrimmed(s: string)
    requires Trimmed(s)
    ensures TrimSpace(s) == s
  {
  }

  lemma TrimAfterSpace(s: string)
    requires Trimmed(s)
    ensures TrimSpace(" " + s) == s
  {
    assert (" " + s)[0] == ' ' && (" " + s)[1..] == s;
    assert TrimLeft(" " + s) == TrimLeft(s);
  }

  lemma TrimBeforeSpace(s: string)
    requires Trimmed(s) && s != ""
    ensures TrimSpace(s + " ") == s
  {
    var t := s + " ";
    assert t[0] == s[0] && TrimLeft(t) == t;
    assert t[|t| - 1] == ' ' && t[..|t| - 1] == s;
    assert TrimRight(t) == TrimRight(s);
  }

  // ----- decimal numbers -----

  function Digit(d: nat): char
    requires d < 10
  {
    '0' + d as char
  }

  predicate IsDigit(c: char) {
    '0' <= c <= '9'
  }

  predicate AllDigits(s: string) {
    forall i :: 0 <= i < |s| ==> IsDigit(s[i])
  }

  /** `%d` of a non-negative number. */
  function Itoa(n: nat): (s: string)
    ensures s != "" && AllDigits(s)
  {
    if n < 10 then [Digit(n)] else Itoa(n / 10) + [Digit(n % 10)]
  }

  function DigitsValue(s: string): nat
    requires AllDigits(s)
  {
    if s == "" then 0 else DigitsValue(s[..|s| - 1]) * 10 + (s[|s| - 1] - '0') as nat
  }

  /** `strconv.Atoi`: an optional sign and decimal digits; range limits are the caller's. */
  function Atoi(s: string): (r: Option<int>) {
    if s == "" then None
    else
      var signed := s[0] == '-' || s[0] == '+';
      var digits := if signed then s[1..] else s;
      if digits == "" || !AllDigits(digits) then None
      else Some(if s[0] == '-' then -(DigitsValue(digits) as int) else DigitsValue(digits))
  }

  /** An optional sign and digits. */
  predicate Spells(s: string, sign: string, digits: string, n: int) {
    && s == sign + digits && sign in {"", "+", "-"} && digits != "" && AllDigits(digits)
    && n == if sign == "-" then -(DigitsValue(digits) as int) else DigitsValue(digits)
  }

  lemma AtoiIff(s: string, n: int)
    ensures Atoi(s) == Some(n) <==> exists sign, digits :: Spells(s, sign, digits, n)
  {
    if Atoi(s) == Some(n) {
      if s[0] == '-' {
        assert s == "-" + s[1..] && Spells(s, "-", s[1..], n);
      } else if s[0] == '+' {
        assert s == "+" + s[1..] && Spells(s, "+", s[1..], n);
      } else {
        assert s == "" + s && Spells(s, "", s, n);
      }
    }
    if sign, digits :| Spells(s, sign, digits, n) {
      SpelledIs(s, sign, digits, n);
    }
  }

  lemma SpelledIs(s: string, sign: string, digits: string, n: int)
    requires Spells(s, sign, digits, n)
    ensures Atoi(s) == Some(n)
  {
    if sign == "" {
      assert s == digits && IsDigit(s[0]);
    } else {
      assert s[0] == sign[0] && s[1..] == digits;
    }
  }

  lemma {:induction false} DigitsOfItoa(n: nat)
    ensures DigitsValue(Itoa(n)) == n
  {
    if n < 10 {
      assert [Digit(n)][..0] == "";
    } else {
      DigitsOfItoa(n / 10);
      var s := Itoa(n);
      assert s[..|s| - 1] == Itoa(n / 10);
    }
  }

  lemma AtoiItoa(n: nat)
    ensures Atoi(Itoa(n)) == Some(n)
  {
    DigitsOfItoa(n);
    assert IsDigit(Itoa(n)[0]);
  }

  lemma DigitsAreTrimmed(s: string)
    requires AllDigits(s)
    ensures Trimmed(s) && forall c <- s :: c != '\n' && c != '\0' && c != ':' && c != '[' && c != ']'
  {
  }
}
