/**
 * The mount-root checks of `parse_config` in containers/ffmpeg/runtime.py: the configured roots
 * are canonical, disjoint directory trees and the canonical working directory lies in one of them.
 * What the file system says about a path is an input.
 */
module MountRoots {

  predicate Within(path: string, root: string) {
    path == root || root + "/" <= path
  }

  predicate Nested(a: string, b: string) {
    Within(a, b) || Within(b, a)
  }

  ghost predicate AllApart(roots: seq<string>) {
    forall i, j :: 0 <= i < j < |roots| ==> !Nested(roots[i], roots[j])
  }

  ghost predicate InSome(path: string, roots: seq<string>) {
    exists i :: 0 <= i < |roots| && Within(path, roots[i])
  }

  // `resolve` follows all links of a path, `isDir` looks it up.
  datatype FileSystem = FileSystem(resolve: string -> string, isDir: string -> bool)

  // `canonical`: an absolute path, without the characters that a mount argument cannot carry, that
  // resolves to itself and is a directory other than the root.
  predicate Canonical(fs: FileSystem, path: string) {
    && "/" <= path && path != "/"
    && ',' !in path && '\n' !in path && '\r' !in path && '\0' !in path
    && fs.resolve(path) == path && fs.isDir(path)
  }

  method CheckRoots(fs: FileSystem, readOnly: seq<string>, readWrite: seq<string>, cwd: string) returns (ok: bool)
    ensures var roots := readOnly + readWrite;
            ok <==> && readOnly != [] && readWrite != [] && AllApart(roots)
                    && fs.resolve(cwd) == cwd && InSome(cwd, roots)
                    && forall i :: 0 <= i < |roots| ==>
                         var root := roots[i];
                         && |root| > 1 && root[0] == '/' && fs.resolve(root) == root && fs.isDir(root)
                         && forall c :: c in root ==> c != ',' && c != '\n' && c != '\r' && c != '\0'
  {
    if readOnly == [] || readWrite == [] { return false; }
    var roots := readOnly + readWrite;
    for i := 0 to |roots|
      invariant forall k :: 0 <= k < i ==> Canonical(fs, roots[k])
    {
      if !Canonical(fs, roots[i]) { return false; }
    }
    var apart := CheckApart(roots);
    if !apart || fs.resolve(cwd) != cwd { return false; }
    ok := false;
    for i := 0 to |roots|
      invariant ok <==> exists j :: 0 <= j < i && Within(cwd, roots[j])
    {
      if Within(cwd, roots[i]) { ok := true; }
    }
  }

  method CheckApart(roots: seq<string>) returns (ok: bool)
    ensures ok <==> AllApart(roots)
  {
    for index := 0 to |roots|
      invariant AllApart(roots[..index])
    {
      for k := 0 to index
        invariant forall j :: 0 <= j < k ==> !Nested(roots[j], roots[index])
      {
        if Within(roots[index], roots[k]) || Within(roots[k], roots[index]) { return false; }
      }
    }
    assert roots[..|roots|] == roots;
    ok := true;
  }

  // ---- paths by their components ----

  // The pieces of a text between separators; one more than there are separators.
  function Split(separator: char, text: string): (parts: seq<string>)
    ensures parts != []
  {
    if text == "" then [""]
    else
      var rest := Split(separator, text[1..]);
      if text[0] == separator then [""] + rest else [[text[0]] + rest[0]] + rest[1..]
  }

  // A path lies in a root exactly when the components of the root begin those of the path: a
  // common prefix of names is not enough.
  lemma {:induction false} WithinIff(path: string, root: string)
    ensures Within(path, root) <==> Split('/', root) <= Split('/', path)
    decreases |root|
  {
    var r, p := Split('/', root), Split('/', path);
    if root == "" {
      if path != "" { assert p[0] == "" <==> path[0] == '/'; }
      assert root + "/" == "/";
    } else if path != "" && path[0] == root[0] {
      WithinIff(path[1..], root[1..]);
      WithinTail(path, root);
      PrefixTail(path, root);
    } else {
      FirstPartDiffers(path, root);
    }
  }

  lemma WithinTail(path: string, root: string)
    requires path != "" && root != "" && path[0] == root[0]
    ensures Within(path, root) <==> Within(path[1..], root[1..])
  {
    assert root + "/" == [root[0]] + (root[1..] + "/");
    assert path == [path[0]] + path[1..] && root == [root[0]] + root[1..];
  }

  lemma PrefixTail(path: string, root: string)
    requires path != "" && root != "" && path[0] == root[0]
    ensures Split('/', root) <= Split('/', path) <==> Split('/', root[1..]) <= Split('/', path[1..])
  {
    var r, p := Split('/', root[1..]), Split('/', path[1..]);
    if root[0] != '/' {
      assert [root[0]] + r[0] == [path[0]] + p[0] <==> r[0] == p[0] by {
        assert ([root[0]] + r[0])[1..] == r[0] && ([path[0]] + p[0])[1..] == p[0];
      }
      PrefixCons([root[0]] + r[0], r[1..], [path[0]] + p[0], p[1..]);
      PrefixCons(r[0], r[1..], p[0], p[1..]);
      assert [r[0]] + r[1..] == r && [p[0]] + p[1..] == p;
    } else {
      PrefixCons("", r, "", p);
    }
  }

  lemma PrefixCons(x: string, r: seq<string>, y: string, p: seq<string>)
    ensures [x] + r <= [y] + p <==> x == y && r <= p
  {
    var a, b := [x] + r, [y] + p;
    if a <= b {
      assert a[0] == b[0];
      forall k | 0 <= k < |r| ensures p[k] == r[k] { assert a[k + 1] == b[k + 1]; }
    }
    if x == y && r <= p {
      forall k | 0 <= k < |a| ensures a[k] == b[k] {}
    }
  }

  lemma FirstPartDiffers(path: string, root: string)
    requires root != "" && (path == "" || path[0] != root[0])
    ensures !Within(path, root) && !(Split('/', root) <= Split('/', path))
  {
    assert (root + "/")[0] == root[0];
    var r, p := Split('/', root), Split('/', path);
    if path != "" {
      assert r[0] != p[0] by {
        if root[0] != '/' { assert r[0][0] == root[0]; }
        if path[0] != '/' { assert p[0][0] == path[0]; }
      }
    } else if root[0] == '/' {
      assert |r| > |p|;
    } else {
      assert r[0][0] == root[0];
    }
  }

  // Two roots share a path exactly when one lies in the other.
  lemma SharedIffNested(a: string, b: string)
    ensures (exists path :: Within(path, a) && Within(path, b)) <==> Nested(a, b)
  {
    if path :| Within(path, a) && Within(path, b) {
      if |a| <= |b| { Longer(path, a, b); } else { Longer(path, b, a); }
    }
    if Within(a, b) { assert Within(a, a); }
    if Within(b, a) { assert Within(b, b); }
  }

  lemma Longer(path: string, a: string, b: string)
    requires Within(path, a) && Within(path, b) && |a| <= |b|
    ensures Within(b, a)
  {
    assert a == path[..|a|] && b == path[..|b|];
    if |a| < |b| {
      assert path != a;
      assert (a + "/")[..] == path[..|a| + 1];
      assert b[..|a| + 1] == path[..|a| + 1];
    }
  }

  // What an accepted configuration guarantees: no path belongs to two mounts.
  lemma OneMountEach(roots: seq<string>, path: string, i: nat, j: nat)
    requires AllApart(roots)
    requires i < |roots| && j < |roots| && Within(path, roots[i]) && Within(path, roots[j])
    ensures i == j
  {
    if i < j {
      SharedIffNested(roots[i], roots[j]);
    } else if j < i {
      SharedIffNested(roots[j], roots[i]);
    }
  }

  // ---- the mount argument ----

  function Joined(first: string, rest: string): string {
    first + "," + rest
  }

  function MountArgument(root: string, readOnly: bool): string {
    var target := "target=" + root;
    Joined("type=bind", Joined("source=" + root, if readOnly then Joined(target, "readonly") else target))
  }

  lemma {:induction false} SplitFirst(separator: char, part: string, rest: string)
    requires separator !in part
    ensures Split(separator, part + [separator] + rest) == [part] + Split(separator, rest)
    ensures Split(separator, part) == [part]
  {
    var all := part + [separator] + rest;
    if part == "" {
      assert all[1..] == rest;
    } else {
      SplitFirst(separator, part[1..], rest);
      assert all[1..] == part[1..] + [separator] + rest;
      assert [part[0]] + part[1..] == part;
    }
  }

  lemma JoinedParts(a: string, b: string, c: string, d: string)
    requires ',' !in a && ',' !in b && ',' !in c && ',' !in d
    ensures Split(',', Joined(a, Joined(b, c))) == [a, b, c]
    ensures Split(',', Joined(a, Joined(b, Joined(c, d)))) == [a, b, c, d]
  {
    SplitFirst(',', c, d);
    SplitFirst(',', d, "");
    SplitFirst(',', b, c);
    SplitFirst(',', b, Joined(c, d));
    SplitFirst(',', a, Joined(b, c));
    SplitFirst(',', a, Joined(b, Joined(c, d)));
  }

  // Why a root must not hold a comma: the engine takes the argument apart again at the commas.
  lemma MountArgumentFields(root: string, readOnly: bool)
    requires ',' !in root
    ensures Split(',', MountArgument(root, readOnly)) ==
            ["type=bind", "source=" + root, "target=" + root] + (if readOnly then ["readonly"] else [])
  {
    JoinedParts("type=bind", "source=" + root, "target=" + root, "readonly");
  }

  // And the converse: roots that share no path are accepted, given the working directory.
  lemma ApartIff(roots: seq<string>)
    ensures AllApart(roots) <==>
            forall path, i, j ::
              0 <= i < |roots| && 0 <= j < |roots| && Within(path, roots[i]) && Within(path, roots[j]) ==> i == j
  {
    if AllApart(roots) {
      forall path, i, j | 0 <= i < |roots| && 0 <= j < |roots| && Within(path, roots[i]) && Within(path, roots[j])
        ensures i == j
      {
        OneMountEach(roots, path, i, j);
      }
    } else {
      var i, j :| 0 <= i < j < |roots| && Nested(roots[i], roots[j]);
      SharedIffNested(roots[i], roots[j]);
      var path :| Within(path, roots[i]) && Within(path, roots[j]);
    }
  }
}
