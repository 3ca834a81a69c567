/** The remote path sanitiser of internal/ssh/ssh_remote.go: what it makes of a path, and that it leads to the same place. */
module RemotePath {
  import opened Bytes

  predicate IsControl(c: char) {
    c < ' ' || c == '\U{7f}'
  }

  function DropControls(p: string): string {
    if p == "" then ""
    else DropControls(p[..|p| - 1]) + if IsControl(p[|p| - 1]) then "" else [p[|p| - 1]]
  }

  /** strings.Split at every slash. */
  function Split(p: string): (parts: seq<string>)
    ensures parts != []
  {
    if p == "" then [""]
    else
      var before := Split(p[..|p| - 1]);
      if p[|p| - 1] == '/' then before + [""]
      else before[..|before| - 1] + [before[|before| - 1] + [p[|p| - 1]]]
  }

  function Join(parts: seq<string>): string {
    if parts == [] then ""
    else if |parts| == 1 then parts[0]
    else Join(parts[..|parts| - 1]) + "/" + parts[|parts| - 1]
  }

  /** What one part does to the stack of names. */
  function Push(above: seq<string>, part: string): seq<string> {
    if part == "" || part == "." then above
    else if part == ".." then if above == [] then [] else above[..|above| - 1]
    else above + [part]
  }

  /** The stack after processing the parts from left to right. */
  function Resolve(parts: seq<string>): seq<string> {
    if parts == [] then [] else Push(Resolve(parts[..|parts| - 1]), parts[|parts| - 1])
  }

  function Sanitized(p: string): string {
    "/" + Join(Resolve(Split(DropControls(p))))
  }

  method SanitizeRemotePath(p: string) returns (safe: string)
    ensures safe == Sanitized(p)
  {
    if p == "" {
      return "/";
    }
    var parts := Split(DropControls(p));
    var resolved: seq<string> := [];
    for i := 0 to |parts|
      invariant resolved == Resolve(parts[..i])
    {
      assert parts[..i + 1][..i] == parts[..i];
      var part := parts[i];
      if part == "" || part == "." {
        continue;
      }
      if part == ".." {
        if |resolved| > 0 {
          resolved := resolved[..|resolved| - 1];
        }
        continue;
      }
      resolved := resolved + [part];
    }
    assert parts[..|parts|] == parts;
    safe := "/" + Join(resolved);
  }

  // ---- what comes out ----

  predicate Clean(s: string) {
    forall i :: 0 <= i < |s| ==> !IsControl(s[i])
  }

  predicate SlashFree(s: string) {
    forall i :: 0 <= i < |s| ==> s[i] != '/'
  }

  /** A real name: not empty, not a dot part, without slashes and control characters. */
  predicate IsName(s: string) {
    s != "" && s != "." && s != ".." && SlashFree(s) && Clean(s)
  }

  predicate AreNames(names: seq<string>) {
    forall i :: 0 <= i < |names| ==> IsName(names[i])
  }

  /** Each name behind a slash of its own. */
  function Rooted(names: seq<string>): string {
    if names == [] then "" else Rooted(names[..|names| - 1]) + "/" + names[|names| - 1]
  }

  /** An absolute path of real names, with nothing to resolve. */
  ghost predicate Canonical(p: string) {
    exists names :: AreNames(names) && p == Render(names)
  }

  function Render(names: seq<string>): string {
    if names == [] then "/" else Rooted(names)
  }

  lemma {:induction false} RenderIsJoin(names: seq<string>)
    ensures "/" + Join(names) == Render(names)
  {
    if |names| == 1 {
      assert Rooted(names[..0]) == "";
      assert "" + "/" + names[0] == "/" + names[0];
    } else if |names| > 1 {
      var n := |names| - 1;
      RenderIsJoin(names[..n]);
      assert "/" + (Join(names[..n]) + "/" + names[n]) == "/" + Join(names[..n]) + "/" + names[n];
    }
  }

  lemma {:induction false} DropControlsClean(p: string)
    ensures Clean(DropControls(p))
    ensures Clean(p) ==> DropControls(p) == p
  {
    if p != "" {
      DropControlsClean(p[..|p| - 1]);
      assert p == p[..|p| - 1] + [p[|p| - 1]];
    }
  }

  lemma {:induction false} SplitParts(p: string)
    ensures forall i :: 0 <= i < |Split(p)| ==> SlashFree(Split(p)[i]) && (Clean(p) ==> Clean(Split(p)[i]))
  {
    if p != "" {
      SplitParts(p[..|p| - 1]);
    }
  }

  lemma {:induction false} ResolveNames(parts: seq<string>)
    requires forall i :: 0 <= i < |parts| ==> SlashFree(parts[i]) && Clean(parts[i])
    ensures AreNames(Resolve(parts))
  {
    if parts != [] {
      ResolveNames(parts[..|parts| - 1]);
    }
  }

  lemma ResolvedNames(p: string)
    ensures AreNames(Resolve(Split(DropControls(p))))
    ensures Sanitized(p) == Render(Resolve(Split(DropControls(p))))
  {
    DropControlsClean(p);
    SplitParts(DropControls(p));
    ResolveNames(Split(DropControls(p)));
    RenderIsJoin(Resolve(Split(DropControls(p))));
  }

  lemma {:induction false} SplitName(a: string, name: string)
    requires SlashFree(name)
    ensures Split(a + "/" + name) == Split(a) + [name]
  {
    var s := a + "/" + name;
    if name == "" {
      assert s[..|s| - 1] == a;
    } else {
      var n := |name| - 1;
      assert s[..|s| - 1] == a + "/" + name[..n];
      SplitName(a, name[..n]);
      assert name == name[..n] + [name[n]];
    }
  }

  lemma {:induction false} SplitRooted(names: seq<string>)
    requires AreNames(names)
    ensures Split(Rooted(names)) == [""] + names
  {
    if names != [] {
      var n := |names| - 1;
      SplitRooted(names[..n]);
      SplitName(Rooted(names[..n]), names[n]);
      assert names == names[..n] + [names[n]];
    }
  }

  lemma {:induction false} RootedClean(names: seq<string>)
    requires AreNames(names)
    ensures Clean(Rooted(names))
  {
    if names != [] {
      RootedClean(names[..|names| - 1]);
    }
  }

  lemma {:induction false} ResolveRooted(names: seq<string>)
    requires AreNames(names)
    ensures Resolve([""] + names) == names
  {
    if names == [] {
      assert [""] + names == [""] && [""][..0] == [];
    } else {
      var n := |names| - 1;
      assert ([""] + names)[..n + 1] == [""] + names[..n];
      ResolveRooted(names[..n]);
      assert names == names[..n] + [names[n]];
    }
  }

  lemma RenderFixed(names: seq<string>)
    requires AreNames(names)
    ensures Sanitized(Render(names)) == Render(names)
  {
    hide Split, Resolve, DropControls, Join, Rooted, IsControl, IsName;
    RootedClean(names);
    DropControlsClean(Render(names));
    RenderIsJoin(names);
    if names == [] {
      SplitSlash();
      ResolveEmptyParts();
    } else {
      SplitRooted(names);
      ResolveRooted(names);
    }
  }

  lemma ResolveEmptyParts()
    ensures Resolve(["", ""]) == []
    ensures Clean("/")
  {
    assert ["", ""][..1] == [""] && [""][..0] == [];
  }

  /**
   * The result is always canonical, and the canonical paths are exactly those left unchanged. So the
   * sanitiser is idempotent, and its results start with a slash, go nowhere up and hold no control character.
   */
  lemma SanitizedIsCanonical(p: string)
    ensures Canonical(Sanitized(p))
    ensures Sanitized(Sanitized(p)) == Sanitized(p)
    ensures Sanitized(p) == p <==> Canonical(p)
  {
    hide Sanitized, Render, AreNames;
    ResolvedNames(p);
    RenderFixed(Resolve(Split(DropControls(p))));
    if Canonical(p) {
      var names :| AreNames(names) && p == Render(names);
      RenderFixed(names);
    }
  }

  // ---- where it leads ----

  /** A tree of directories: a root, the child of a given name if there is one, and the way back up. */
  datatype Tree<!N> = Tree(root: N, child: (N, string) -> Option<N>, parent: N -> N)

  ghost predicate IsTree<N(!new)>(t: Tree<N>) {
    t.parent(t.root) == t.root && forall n, name :: t.child(n, name).Some? ==> t.parent(t.child(n, name).value) == n
  }

  /** One path part, as a kernel walks it: above the root is the root, and a missing name ends the walk. */
  function Walk1<N>(t: Tree<N>, at: Option<N>, part: string): Option<N> {
    if at == None || part == "" || part == "." then at
    else if part == ".." then Some(t.parent(at.value))
    else t.child(at.value, part)
  }

  function Walk<N>(t: Tree<N>, parts: seq<string>): Option<N> {
    if parts == [] then Some(t.root) else Walk1(t, Walk(t, parts[..|parts| - 1]), parts[|parts| - 1])
  }

  /** Every directory that the walk goes through exists, those left again by a dot-dot included. */
  ghost predicate AllExist<N>(t: Tree<N>, parts: seq<string>) {
    forall k :: 0 <= k <= |parts| ==> Walk(t, Resolve(parts[..k])) != None
  }

  /** The part before the last name of a resolved path exists too, and is the parent. */
  lemma WalkUp<N(!new)>(t: Tree<N>, names: seq<string>)
    requires IsTree(t) && AreNames(names) && names != [] && Walk(t, names) != None
    ensures Walk(t, names[..|names| - 1]) == Some(t.parent(Walk(t, names).value))
  {
    assert IsName(names[|names| - 1]);
  }

  lemma AllExistSnoc<N>(t: Tree<N>, parts: seq<string>, part: string)
    ensures AllExist(t, parts + [part]) <==> AllExist(t, parts) && Walk(t, Resolve(parts + [part])) != None
    ensures AllExist(t, parts) ==> Walk(t, Resolve(parts)) != None
  {
    hide Walk, Resolve;
    var all := parts + [part];
    assert forall k | 0 <= k <= |parts| :: all[..k] == parts[..k];
    assert all[..|all|] == all && parts[..|parts|] == parts;
  }

  lemma Snoc<N>(t: Tree<N>, parts: seq<string>, part: string)
    ensures Resolve([]) == [] && Walk(t, []) == Some(t.root)
    ensures Resolve(parts + [part]) == Push(Resolve(parts), part)
    ensures Walk(t, parts + [part]) == Walk1(t, Walk(t, parts), part)
  {
    hide Push, Walk1;
    assert (parts + [part])[..|parts|] == parts;
  }

  /** Walking the parts is walking the resolved names, as long as every directory on the way exists. */
  lemma {:induction false} ResolveWalks<N(!new)>(t: Tree<N>, parts: seq<string>)
    requires IsTree(t) && forall i :: 0 <= i < |parts| ==> SlashFree(parts[i]) && Clean(parts[i])
    ensures Walk(t, parts) == if AllExist(t, parts) then Walk(t, Resolve(parts)) else None
  {
    if parts == [] {
      assert parts[..0] == [];
      Snoc(t, [], "");
    } else {
      hide *;
      var before, last := parts[..|parts| - 1], parts[|parts| - 1];
      assert parts == before + [last];
      ResolveWalks(t, before);
      ResolveNames(before);
      AllExistSnoc(t, before, last);
      Snoc(t, before, last);
      if AllExist(t, before) {
        StepWalks(t, Resolve(before), last);
      } else {
        NoWay(t, last);
      }
    }
  }

  lemma NoWay<N>(t: Tree<N>, part: string)
    ensures Walk1(t, None, part) == None
  {
  }

  lemma StepWalks<N(!new)>(t: Tree<N>, above: seq<string>, part: string)
    requires IsTree(t) && AreNames(above) && Walk(t, above) != None
    ensures Walk1(t, Walk(t, above), part) == Walk(t, Push(above, part))
  {
    if part == ".." && above != [] {
      WalkUp(t, above);
    } else if part != "" && part != "." && part != ".." {
      assert (above + [part])[..|above|] == above;
    }
  }

  lemma {:induction false} WalkFromRoot<N>(t: Tree<N>, parts: seq<string>)
    ensures Walk(t, [""] + parts) == Walk(t, parts)
  {
    hide Walk;
    Snoc(t, [], "");
    assert [] + [""] == [""];
    if parts == [] {
      assert [""] + parts == [""];
    } else {
      var before, last := parts[..|parts| - 1], parts[|parts| - 1];
      assert parts == before + [last] && [""] + parts == ([""] + before) + [last];
      WalkFromRoot(t, before);
      Snoc(t, before, last);
      Snoc(t, [""] + before, last);
    }
  }

  lemma SplitSlash()
    ensures Split("/") == ["", ""]
  {
    hide Split;
    SplitEmpty();
    SplitName("", "");
    assert "" + "/" + "" == "/" && [""] + [""] == ["", ""];
  }

  lemma SplitEmpty()
    ensures Split("") == [""]
  {
  }

  lemma WalkSanitized<N>(t: Tree<N>, p: string)
    ensures Walk(t, Split(Sanitized(p))) == Walk(t, Resolve(Split(DropControls(p))))
  {
    hide Walk, Split, Resolve, DropControls, Sanitized, AreNames, Rooted;
    var names := Resolve(Split(DropControls(p)));
    ResolvedNames(p);
    WalkFromRoot(t, names);
    if names == [] {
      SplitSlash();
      WalkFromRoot(t, [""]);
      assert [""] + [""] == ["", ""] && [""] + [] == [""];
    } else {
      SplitRooted(names);
    }
  }

  /**
   * In every directory tree: wherever the path without its control characters leads, its sanitised form leads
   * to the same place. The path leads anywhere iff every directory on its way exists; so the two lead to the
   * same place, or both nowhere, iff that is so or the sanitised path is missing as well.
   */
  lemma SanitizedLeadsToSamePlace<N(!new)>(t: Tree<N>, p: string)
    requires IsTree(t)
    ensures var parts := Split(DropControls(p));
            var before, after := Walk(t, parts), Walk(t, Split(Sanitized(p)));
            && (before != None ==> after == before)
            && (before != None <==> AllExist(t, parts))
            && (after == before <==> AllExist(t, parts) || after == None)
  {
    hide *;
    var parts := Split(DropControls(p));
    DropControlsClean(p);
    SplitParts(DropControls(p));
    ResolveWalks(t, parts);
    WalkSanitized(t, p);
    AllExistSnoc(t, parts, "");
  }

  function Detour(name: string): string {
    "" + "/" + name + "/" + ".."
  }

  lemma DetourParts(name: string)
    requires IsName(name)
    ensures Split(Detour(name)) == [""] + [name] + [".."]
  {
    assert SlashFree("..");
    hide Split;
    SplitEmpty();
    SplitName("", name);
    SplitName("" + "/" + name, "..");
  }

  lemma DetourClean(name: string)
    requires IsName(name)
    ensures DropControls(Detour(name)) == Detour(name)
  {
    hide DropControls;
    DropControlsClean(Detour(name));
  }

  lemma PushDetour(name: string)
    requires IsName(name)
    ensures Push(Push(Push([], ""), name), "..") == []
  {
  }

  lemma WalkDetour<N>(t: Tree<N>, name: string)
    requires IsName(name) && t.child(t.root, name) == None
    ensures Walk1(t, Walk1(t, Walk1(t, Some(t.root), ""), name), "..") == None
  {
  }

  /**
   * A missing directory that is left again: in every tree whose root has no directory of that name, /name/..
   * leads nowhere, but its sanitised form leads to the root.
   */
  lemma MissingDirectoryForgotten<N>(t: Tree<N>, name: string)
    requires IsName(name) && t.child(t.root, name) == None
    ensures DropControls(Detour(name)) == Detour(name)
    ensures Walk(t, Split(Detour(name))) == None && Walk(t, Split(Sanitized(Detour(name)))) == Some(t.root)
  {
    hide *;
    DetourClean(name);
    DetourParts(name);
    PushDetour(name);
    WalkDetour(t, name);
    WalkSanitized(t, Detour(name));
    assert [] + [""] == [""];
    Snoc(t, [], "");
    Snoc(t, [""], name);
    Snoc(t, [""] + [name], "..");
  }
}
