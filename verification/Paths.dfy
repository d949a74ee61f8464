/** Lexical path cleaning (`path.Clean`) and what survives it. */
module Paths {
  import opened Text

  /** One component of the input against the components kept so far. */
  function Push(kept: seq<string>, part: string, rooted: bool): seq<string> {
    if part == "" || part == "." then kept
    else if part != ".." then kept + [part]
    else if kept != [] && kept[|kept| - 1] != ".." then kept[..|kept| - 1]
    else if rooted then kept
    else kept + [part]
  }

  function PushAll(kept: seq<string>, parts: seq<string>, rooted: bool): seq<string>
    decreases |parts|
  {
    if parts == [] then kept else PushAll(Push(kept, parts[0], rooted), parts[1..], rooted)
  }

  function Clean(name: string): string {
    if name == "" then "."
    else
      var rooted := name[0] == '/';
      var kept := PushAll([], Split(name, '/'), rooted);
      if rooted then "/" + Join(kept, "/") else if kept == [] then "." else Join(kept, "/")
  }

  /** Components left by cleaning: plain, with any ".." only at the front. */
  predicate Tidy(kept: seq<string>) {
    && (forall p <- kept :: p != "" && p != "." && '/' !in p)
    && (forall i, j :: 0 <= i < j < |kept| && kept[j] == ".." ==> kept[i] == "..")
  }

  lemma {:induction false} PushAllTidy(kept: seq<string>, parts: seq<string>, rooted: bool)
    requires Tidy(kept) && forall p <- parts :: '/' !in p
    ensures Tidy(PushAll(kept, parts, rooted))
    decreases |parts|
  {
    if parts != [] {
      assert parts[0] in parts;
      PushAllTidy(Push(kept, parts[0], rooted), parts[1..], rooted);
    }
  }

  /** Every component is an ordinary name, so the path stays below where it starts. */
  predicate Plain(name: string) {
    forall p <- Split(name, '/') :: p != "" && p != "." && p != ".."
  }

  /** A clean relative path that does not start with ".." goes nowhere but down. */
  lemma CleanIsPlain(name: string)
    requires Clean(name) == name && name != "." && !HasPrefix(name, "/") && Split(name, '/')[0] != ".."
    ensures Plain(name)
  {
    assert name != "" && name[0] != '/' by {
      assert name != "" ==> name[..1] == [name[0]];
    }
    var kept := PushAll([], Split(name, '/'), false);
    PushAllTidy([], Split(name, '/'), false);
    SplitJoin(kept, '/');
    assert kept == Split(name, '/');
    forall i | 0 <= i < |kept| ensures kept[i] != ".." {
      if i > 0 {
        assert kept[0] != "..";
      }
    }
  }

  lemma {:induction false} PushAllPlain(kept: seq<string>, parts: seq<string>)
    requires forall p <- parts :: p != "" && p != "." && p != ".."
    ensures PushAll(kept, parts, false) == kept + parts
    decreases |parts|
  {
    if parts == [] {
      assert kept + parts == kept;
    } else {
      assert parts[0] in parts && forall p <- parts[1..] :: p in parts;
      PushAllPlain(kept + [parts[0]], parts[1..]);
      assert kept + [parts[0]] + parts[1..] == kept + parts;
    }
  }

  /** And conversely: cleaning leaves a plain path alone. */
  lemma PlainIsClean(name: string)
    requires Plain(name)
    ensures Clean(name) == name && name != "." && !HasPrefix(name, "/") && Split(name, '/')[0] != ".."
  {
    var parts := Split(name, '/');
    assert parts[0] in parts;
    JoinSplit(name, '/');
    assert name != "" && name != "." by {
      SplitWhole("", '/');
      SplitWhole(".", '/');
    }
    assert name[..1] == [name[0]];
    PushAllPlain([], parts);
    assert [] + parts == parts;
  }

  /** The first component of a path under a directory. */
  lemma FirstComponent(name: string, dir: string)
    requires HasPrefix(name, dir + "/") && '/' !in dir
    ensures Split(name, '/')[0] == dir
  {
    assert (dir + "/")[|dir|] == '/';
    assert name[|dir|] == name[..|dir| + 1][|dir|];
    assert name[..|dir|] == name[..|dir| + 1][..|dir|] == dir;
    IndexOfUnique(name, '/', |dir|);
  }

  lemma HeadPrefix(name: string)
    requires |Split(name, '/')| >= 2
    ensures HasPrefix(name, Split(name, '/')[0] + "/")
  {
    var i := IndexOf(name, '/');
    assert i < |name| && name[..i + 1] == name[..i] + "/";
  }
}
