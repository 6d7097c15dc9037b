/**
 * The mutable side of paths: the owning path buffer, the string splitter, and `resolve`
 * (madbfs/src/path.cpp, util/split.hpp).
 */
module PathBuffers {
  import opened Bytes
  import opened Paths

  lemma {:induction false} OnlyRoot(s: string)
    requires Absolute(s)
    ensures Runs(Trimmed(s), 0) == [] <==> Trimmed(s) == "/"
  {
    TrimmedClean(s);
    ValidLast(Path(Trimmed(s), Runs(Trimmed(s), 0)));
  }

  class PathBuf {
    var str: string
    var comps: seq<Slice>

    ghost function View(): Path reads this { Path(str, comps) }

    constructor ()
      ensures Valid(View()) && View().IsRoot()
    {
      str, comps := "/", [];
      assert Runs("/", 0) == Runs("/", 1) == [];
    }

    /** `create_buf`. */
    method Create(s: string) returns (ok: bool)
      modifies this
      ensures ok == Paths.Create(s).Some?
      ensures View() == if ok then Paths.Create(s).value else old(View())
    {
      var where, cs := SplitComponents(s);
      if where.None? {
        return false;
      }
      OnlyRoot(s);
      comps := cs;
      if cs == [] {
        str := "/";
      } else {
        str := s[where.value.offset..End(where.value)];
      }
      return true;
    }

    method Extend(name: string) returns (ok: bool)
      requires Valid(View())
      modifies this
      ensures Valid(View()) && ok == !BadName(name)
      ensures View() == if ok then Extended(old(View()), name) else old(View())
      ensures ok ==> NamesOf(View()) == old(NamesOf(View())) + [name] && ParentPath(View()) == old(View())
    {
      if name == "" || '/' in name || name == "." || name == ".." {
        return false;
      }
      ExtendValid(View(), name);
      ExtendNames(View(), name);
      if comps != [] {
        str := str + "/";
      }
      var offset := |str|;
      str := str + name;
      comps := comps + [Slice(offset, |name|)];
      return true;
    }

    method Rename(name: string) returns (ok: bool)
      requires Valid(View())
      modifies this
      ensures Valid(View()) && ok == (!BadName(name) && !old(View()).IsRoot())
      ensures !ok ==> View() == old(View())
      ensures ok ==>
                NamesOf(View()) == old(NamesOf(View()))[..|old(comps)| - 1] + [name]
                    && ParentPath(View()) == ParentPath(old(View()))
    {
      if name == "" || '/' in name || name == "." || name == ".." {
        return false;
      } else if comps == [] {
        return false;
      }
      ValidLast(View());
      RenameValid(View(), name);
      RenameNames(View(), name);
      RenameParent(View(), name);
      var back := comps[|comps| - 1];
      str := str[..back.offset] + name + str[End(back)..];
      comps := comps[..|comps| - 1] + [Slice(back.offset, |name|)];
      return true;
    }
  }

  /**
   * `extend_copy` of a view: only a slash in the name is refused, and a name `extend` refuses leaves
   * the copy as it was.
   */
  function ExtendCopy(p: Path, name: string): Option<Path> {
    if '/' in name then None else if BadName(name) then Some(p) else Some(Extended(p, name))
  }

  /** What is promised of it: the extended path for the names `extend` accepts, and nothing otherwise. */
  function ExtendCopyPromised(p: Path,
                              name: string): Option<Path> { if BadName(name) then None else Some(Extended(p, name)) }

  /**
   * The promise is kept exactly for the names that are not "", "." or "..": for those the copy comes
   * back as it was. What comes back for a good name has the path for its parent and the name at its end.
   */
  lemma {:induction false} ExtendCopyExact(p: Path, name: string)
    requires Valid(p)
    ensures ExtendCopy(p, name) == ExtendCopyPromised(p, name) <==> name !in {"", ".", ".."}
    ensures name in {"", ".", ".."} ==> ExtendCopy(p, name) == Some(p)
    ensures (exists e :: ExtendCopy(p, name) == Some(e) && ParentPath(e) == p && NamesOf(e) == NamesOf(p) + [name])
            <==> !BadName(name)
  {
    if !BadName(name) {
      ExtendValid(p, name);
      ExtendNames(p, name);
      assert ExtendCopy(p, name) == Some(Extended(p, name));
    } else if '/' !in name {
      assert |NamesOf(p) + [name]| != |NamesOf(p)|;
    }
  }

  /** A name, if there is one, and the names after it. */
  function Rest(next: Option<string>,
                left: seq<string>): seq<string> { if next.Some? then [next.value] + left else left }

  class StringSplitter {
    const str: string
    var idx: nat

    ghost predicate InBounds() reads this { idx <= |str| }

    /** What is still to come. */
    ghost function Left(): seq<string>
      requires InBounds()
      reads this
    {
      Tokens(str[idx..])
    }

    constructor (s: string)
      ensures str == s && InBounds() && Left() == Tokens(s)
    {
      str, idx := s, 0;
      new;
      assert s[0..] == s;
    }

    method SkipDelims()
      requires InBounds()
      modifies this
      ensures InBounds() && old(idx) <= idx && (idx < |str| ==> str[idx] != '/')
      ensures Left() == old(Left())
    {
      while idx < |str| && str[idx] == '/'
        invariant InBounds() && old(idx) <= idx
        invariant Left() == old(Left())
      {
        SkipSlash(str, idx);
        idx := idx + 1;
      }
    }

    method Next() returns (r: Option<string>)
      requires InBounds()
      modifies this
      ensures InBounds()
      ensures Rest(r, Left()) == old(Left())
      ensures if r.Some? then old(idx) < idx else Left() == []
    {
      assert str[|str|..] == "";
      if idx >= |str| {
        return None;
      }
      SkipDelims();
      if idx < |str| {
        TokensStep(str, idx);
      }
      var pos := RunEnd(str, idx);
      if pos < |str| {
        r := Some(str[idx..pos]);
        SkipSlash(str, pos);
        idx := pos + 1;
        return;
      }
      if idx >= |str| {
        return None;
      }
      assert str[idx..] == str[idx..pos];
      r := Some(str[idx..]);
      idx := |str|;
    }
  }

  lemma {:induction false} SkipSlash(s: string, i: nat)
    requires i < |s| && s[i] == '/'
    ensures Tokens(s[i..]) == Tokens(s[i + 1..])
  {
    assert s[i..][1..] == s[i + 1..];
  }

  /** `util::split`: all the names, which are the names of the parsed path. */
  method Split(s: string) returns (names: seq<string>)
    ensures names == Tokens(s)
    ensures Create(s).Some? ==> names == NamesOf(Create(s).value)
  {
    names := [];
    var splitter := new StringSplitter(s);
    var next := splitter.Next();
    while next.Some?
      invariant splitter.InBounds() && splitter.str == s && (next.None? ==> splitter.Left() == [])
      invariant names + Rest(next, splitter.Left()) == Tokens(s)
      decreases if next.Some? then 1 + |s| - splitter.idx else 0
    {
      RestNext(names, next.value, splitter.Left());
      names := names + [next.value];
      next := splitter.Next();
    }
    CreateValid(s);
  }

  lemma {:induction false} RestNext(names: seq<string>, t: string, left: seq<string>)
    ensures names + Rest(Some(t), left) == names + [t] + left
    ensures names + [] == names
  {
  }

  // Resolving.

  function Push(stack: seq<string>, t: string): seq<string> {
    if t == "." then stack else if t == ".." then (if stack == [] then [] else stack[..|stack| - 1]) else stack + [t]
  }

  function Fold(stack: seq<string>, ts: seq<string>): seq<string>
    decreases |ts|
  {
    if ts == [] then stack else Fold(Push(stack, ts[0]), ts[1..])
  }

  function Join(ns: seq<string>): string { if ns == [] then "" else Join(ns[..|ns| - 1]) + "/" + ns[|ns| - 1] }

  /** The stack `resolve` ends with. */
  function Resolved(p: Path,
                    path: string): seq<string> { Fold(if Absolute(path) then [] else Tokens(p.str), Tokens(path)) }

  /** `resolve`. */
  function Resolve(p: Path, path: string): Path { FromNames(Resolved(p, path)) }

  function FromNames(ns: seq<string>): Path {
    if ns == [] then Path("/", []) else Path(Trimmed(Join(ns)), Runs(Trimmed(Join(ns)), 0))
  }

  ghost predicate DotFree(ns: seq<string>) { forall n | n in ns :: n != "." && n != ".." }

  lemma {:induction false} FoldPlain(stack: seq<string>, ts: seq<string>)
    requires AllPlain(stack) && AllPlain(ts)
    ensures AllPlain(Fold(stack, ts))
    ensures DotFree(stack) ==> DotFree(Fold(stack, ts))
    decreases |ts|
  {
    if ts != [] {
      assert ts[0] in ts;
      assert DotFree(stack) ==> DotFree(Push(stack, ts[0]));
      FoldPlain(Push(stack, ts[0]), ts[1..]);
    }
  }

  lemma {:induction false} FoldAppend(stack: seq<string>, a: seq<string>, b: seq<string>)
    ensures Fold(stack, a + b) == Fold(Fold(stack, a), b)
    decreases |a|
  {
    if a == [] {
      assert a + b == b;
    } else {
      assert (a + b)[1..] == a[1..] + b;
      FoldAppend(Push(stack, a[0]), a[1..], b);
    }
  }

  /** Without dots nothing is dropped. */
  lemma {:induction false} FoldDotFree(stack: seq<string>, ts: seq<string>)
    requires DotFree(ts)
    ensures Fold(stack, ts) == stack + ts
    decreases |ts|
  {
    if ts != [] {
      assert ts[0] in ts && forall t | t in ts[1..] :: t in ts;
      FoldDotFree(stack + [ts[0]], ts[1..]);
    }
  }

  lemma {:induction false} TokensJoin(ns: seq<string>)
    requires AllPlain(ns)
    ensures Tokens(Join(ns)) == ns
    ensures ns != [] ==> |Join(ns)| > 1 && Clean(Join(ns))
  {
    if ns != [] {
      var front, n := ns[..|ns| - 1], ns[|ns| - 1];
      assert n in ns;
      TokensJoin(front);
      TokensOne(n);
      Assemble(Join(front), n);
      TokensAppend(Join(front), "/" + n);
      JoinClean(Join(front), n);
    }
  }

  lemma {:induction false} Assemble(front: string, n: string)
    ensures front + "/" + n == front + ("/" + n)
  {
  }

  lemma {:induction false} TokensOne(n: string)
    requires Plain(n)
    ensures Tokens("/" + n) == [n]
  {
    assert forall j | 0 <= j < |n| :: n[j] in n;
    RunEndPlain(n, 0);
    assert n[..|n|] == n && n[|n|..] == "";
    assert Tokens(n) == [n] + Tokens("");
    assert ("/" + n)[1..] == n;
  }

  lemma {:induction false} FromNamesValid(ns: seq<string>)
    requires AllPlain(ns)
    ensures Valid(FromNames(ns)) && NamesOf(FromNames(ns)) == ns == Tokens(FromNames(ns).str)
    ensures FromNames(ns).str == if ns == [] then "/" else Join(ns)
  {
    if ns == [] {
      assert Runs("/", 0) == Runs("/", 1) == [];
      assert Tokens("/") == Tokens("/"[1..]) == [];
    } else {
      TokensJoin(ns);
      Reparse(Path(Join(ns), Runs(Join(ns), 0)));
      ValidShape(FromNames(ns));
    }
  }

  /** `resolve` gives a valid path whose names are the stack, and whose string they determine. */
  lemma {:induction false} ResolveNames(p: Path, path: string)
    ensures AllPlain(Resolved(p, path))
    ensures Valid(Resolve(p, path))
    ensures NamesOf(Resolve(p, path)) == Resolved(p, path) == Tokens(Resolve(p, path).str)
    ensures Resolve(p, path).str == if Resolved(p, path) == [] then "/" else Join(Resolved(p, path))
  {
    FoldPlain(if Absolute(path) then [] else Tokens(p.str), Tokens(path));
    FromNamesValid(Resolved(p, path));
  }

  /** An absolute path comes out without dots, and resolving it again changes nothing. */
  lemma {:induction false} ResolveAbsolute(p: Path, path: string, q: Path)
    requires Absolute(path)
    ensures DotFree(NamesOf(Resolve(p, path)))
    ensures Resolve(q, Resolve(p, path).str) == Resolve(p, path)
  {
    ResolveNames(p, path);
    FoldPlain([], Tokens(path));
    FoldDotFree([], Resolved(p, path));
    assert Resolved(q, Resolve(p, path).str) == Resolved(p, path);
  }

  /** A path is left fixed exactly when it has no dots and no doubled slashes. */
  lemma {:induction false} ResolveFixed(q: Path, p: Path)
    requires Valid(p)
    ensures Resolve(q, p.str) == p <==> DotFree(NamesOf(p)) && p.str == if p.IsRoot() then "/" else Join(NamesOf(p))
  {
    ValidShape(p);
    ResolveNames(q, p.str);
    FoldPlain([], Tokens(p.str));
    if DotFree(NamesOf(p)) {
      FoldDotFree([], Tokens(p.str));
      assert Resolved(q, p.str) == NamesOf(p);
    }
  }

  /** Resolving in two steps is resolving the concatenation. */
  lemma {:induction false} ResolveTwice(p: Path, a: string, b: string)
    requires a != "" && b != "" && !Absolute(b)
    ensures Resolve(Resolve(p, a), b) == Resolve(p, a + "/" + b)
  {
    ResolveNames(p, a);
    var stack := if Absolute(a) then [] else Tokens(p.str);
    Assemble(a, b);
    TokensAppend(a, "/" + b);
    assert ("/" + b)[1..] == b;
    FoldAppend(stack, Tokens(a), Tokens(b));
  }

  // One name at a time.

  /** Where a name leads from a path: nowhere else, to its parent, or one down. */
  function Then(p: Path, n: string): Path {
    if n == "." then p else if n == ".." then ParentPath(p) else Extended(p, n)
  }

  /** The path of some names, one more, is the extended path. */
  lemma {:induction false} FromNamesNext(ns: seq<string>, n: string)
    requires AllPlain(ns) && Plain(n)
    ensures FromNames(ns + [n]) == Extended(FromNames(ns), n)
    ensures ParentPath(FromNames(ns + [n])) == FromNames(ns)
  {
    FromNamesValid(ns);
    FromNamesValid(ns + [n]);
    ExtendValid(FromNames(ns), n);
    assert (ns + [n])[..|ns|] == ns;
  }

  lemma {:induction false} PushThen(ns: seq<string>, n: string)
    requires AllPlain(ns) && Plain(n)
    ensures FromNames(Push(ns, n)) == Then(FromNames(ns), n)
  {
    if n == ".." {
      if ns != [] {
        var front, last := ns[..|ns| - 1], ns[|ns| - 1];
        assert ns == front + [last] && last in ns;
        FromNamesNext(front, last);
      }
    } else if n != "." {
      FromNamesNext(ns, n);
    }
  }

  /**
   * `resolve` goes from name to name: a further name leads where it leads from what the path before it
   * resolves to.
   */
  lemma {:induction false} ResolveSegment(p: Path, a: string, n: string)
    requires a != "" && Plain(n)
    ensures Resolve(p, a + "/" + n) == Then(Resolve(p, a), n)
  {
    ResolveNames(p, a);
    var stack := if Absolute(a) then [] else Tokens(p.str);
    Assemble(a, n);
    TokensAppend(a, "/" + n);
    TokensOne(n);
    FoldAppend(stack, Tokens(a), [n]);
    FoldOne(Fold(stack, Tokens(a)), n);
    PushThen(Resolved(p, a), n);
  }

  lemma {:induction false} FoldOne(stack: seq<string>, n: string)
    ensures Fold(stack, [n]) == Push(stack, n)
  {
    assert [n][1..] == [];
  }

  /** It starts from the root or, for a relative path, from the path it is relative to. */
  lemma {:induction false} ResolveStart(p: Path, n: string)
    requires Valid(p) && Plain(n)
    ensures Resolve(p, "/") == Path("/", [])
    ensures NamesOf(Resolve(p, ".")) == NamesOf(p)
    ensures Resolve(p, n) == Then(Resolve(p, "."), n)
  {
    ValidShape(p);
    ResolveNames(p, ".");
    assert Tokens("/") == Tokens("/"[1..]) == [];
    TokensOne(n);
    TokensOne(".");
    assert ("/" + n)[1..] == n && ("/" + ".")[1..] == ".";
    assert n[0] in n;
    FoldOne(Tokens(p.str), n);
    FoldOne(Tokens(p.str), ".");
    PushThen(Tokens(p.str), n);
  }

  lemma {:induction false} FoldRest(stack: seq<string>, t: string, left: seq<string>)
    ensures Fold(stack, Rest(Some(t), left)) == Fold(Push(stack, t), left)
  {
    assert ([t] + left)[1..] == left;
  }

  method FoldLoop(start: seq<string>, path: string) returns (parents: seq<string>)
    ensures parents == Fold(start, Tokens(path))
  {
    parents := start;
    var splitter := new StringSplitter(path);
    var next := splitter.Next();
    while next.Some?
      invariant splitter.InBounds() && splitter.str == path && (next.None? ==> splitter.Left() == [])
      invariant Fold(parents, Rest(next, splitter.Left())) == Fold(start, Tokens(path))
      decreases if next.Some? then 1 + |path| - splitter.idx else 0
    {
      FoldRest(parents, next.value, splitter.Left());
      if next.value == "." {
      } else if next.value == ".." {
        if parents != [] {
          parents := parents[..|parents| - 1];
        }
      } else {
        parents := parents + [next.value];
      }
      next := splitter.Next();
    }
  }

  method JoinLoop(parents: seq<string>) returns (resolved: string)
    ensures resolved == Join(parents)
  {
    resolved := "";
    var i: nat := 0;
    while i < |parents|
      invariant i <= |parents| && resolved == Join(parents[..i])
    {
      assert parents[..i + 1][..i] == parents[..i];
      resolved := resolved + "/";
      resolved := resolved + parents[i];
      i := i + 1;
    }
    assert parents[..i] == parents;
  }

  /** `resolve` as it runs: the names go onto a vector one by one, which is then written out and parsed. */
  method ResolveBuf(p: Path, path: string) returns (r: Path)
    requires path != ""
    ensures r == Resolve(p, path)
  {
    var parents := [];
    if path[0] != '/' {
      parents := Split(p.str);
    }
    parents := FoldLoop(parents, path);
    if parents == [] {
      return Path("/", []);
    }
    var resolved := JoinLoop(parents);
    ResolveNames(p, path);
    TokensJoin(parents);
    var buf := new PathBuf();
    var ok := buf.Create(resolved);
    r := Path(buf.str, buf.comps);
  }
}
