/** The POSIX reading of `std::filesystem::path` on which both programs rely:
    `filename`, `parent_path` and `lexically_normal`, as functions on generic strings. */
module Paths {

  predicate SlashFree(s: string) {
    forall i :: 0 <= i < |s| ==> s[i] != '/'
  }

  predicate AllSlashFree(parts: seq<string>) {
    forall i :: 0 <= i < |parts| ==> SlashFree(parts[i])
  }

  predicate IsAbsolute(p: string) {
    p != "" && p[0] == '/'
  }

  /** The part after the last separator; all of `p` when it has none. */
  function Filename(p: string): (f: string)
    ensures SlashFree(f) && |f| <= |p| && f == p[|p| - |f|..]
    ensures |f| < |p| ==> p[|p| - |f| - 1] == '/'
  {
    if p == "" || p[|p| - 1] == '/' then ""
    else
      assert p == p[..|p| - 1] + [p[|p| - 1]];
      Filename(p[..|p| - 1]) + [p[|p| - 1]]
  }

  function DropTrailingSlashes(p: string): (r: string)
    ensures |r| <= |p| && r == p[..|r|]
    ensures r != "" ==> r[|r| - 1] != '/'
  {
    if p == "" || p[|p| - 1] != '/' then p else DropTrailingSlashes(p[..|p| - 1])
  }

  /** A path without a relative part is its own parent. */
  function Parent(p: string): string {
    var dir := p[..|p| - |Filename(p)|];
    var stem := DropTrailingSlashes(dir);
    if DropTrailingSlashes(p) == "" then p
    else if stem == "" && dir != "" then "/"
    else stem
  }

  lemma ParentIsShorter(p: string)
    requires Parent(p) != p
    ensures |Parent(p)| < |p|
  {}

  // ---- lexically_normal ----

  /** The pieces between separators, the empty ones included. */
  function Split(p: string): (parts: seq<string>)
    ensures |parts| > 0
    ensures AllSlashFree(parts)
  {
    if p == "" then [""]
    else
      var rest := Split(p[..|p| - 1]);
      var c := p[|p| - 1];
      if c == '/' then rest + [""]
      else rest[|rest| - 1 := rest[|rest| - 1] + [c]]
  }

  /** The names kept so far, and whether the text read so far ends like a directory. */
  datatype Normal = Normal(stack: seq<string>, open: bool)

  function Push(absolute: bool, n: Normal, part: string): Normal {
    if part == "" || part == "." then n.(open := true)
    else if part != ".." then Normal(n.stack + [part], false)
    else if n.stack != [] && n.stack[|n.stack| - 1] != ".." then Normal(n.stack[..|n.stack| - 1], true)
    else if absolute then n.(open := true)
    else Normal(n.stack + [part], false)
  }

  function PushAll(absolute: bool, parts: seq<string>): Normal {
    if parts == [] then Normal([], false)
    else Push(absolute, PushAll(absolute, parts[..|parts| - 1]), parts[|parts| - 1])
  }

  function Join(parts: seq<string>): string {
    if parts == [] then ""
    else if |parts| == 1 then parts[0]
    else Join(parts[..|parts| - 1]) + "/" + parts[|parts| - 1]
  }

  function Render(absolute: bool, n: Normal): string {
    if n.stack == [] then (if absolute then "/" else ".")
    else
      (if absolute then "/" else "") + Join(n.stack)
      + (if n.open && n.stack[|n.stack| - 1] != ".." then "/" else "")
  }

  function Normalize(p: string): string {
    if p == "" then ""
    else Render(IsAbsolute(p), PushAll(IsAbsolute(p), Split(p)))
  }

  predicate HasTraversal(p: string) {
    ".." in Split(p)
  }

  // ---- Normalising twice changes nothing ----

  /** What every stack of names satisfies. */
  predicate IsStack(absolute: bool, stack: seq<string>) {
    && AllSlashFree(stack)
    && (forall i :: 0 <= i < |stack| ==> stack[i] != "" && stack[i] != "." && (absolute ==> stack[i] != ".."))
    && (forall i, j :: 0 <= i < j < |stack| && stack[j] == ".." ==> stack[i] == "..")
  }

  lemma {:induction false} PushAllIsStack(absolute: bool, parts: seq<string>)
    requires AllSlashFree(parts)
    ensures IsStack(absolute, PushAll(absolute, parts).stack)
  {
    if parts != [] {
      var init := parts[..|parts| - 1];
      PushAllIsStack(absolute, init);
      var n := PushAll(absolute, init);
      PushIsStack(absolute, n, parts[|parts| - 1]);
    }
  }

  lemma PushIsStack(absolute: bool, n: Normal, part: string)
    requires IsStack(absolute, n.stack) && SlashFree(part)
    ensures IsStack(absolute, Push(absolute, n, part).stack)
  {
  }

  lemma {:induction false} SplitSlashFree(q: string)
    requires SlashFree(q)
    ensures Split(q) == [q]
  {
    if q != "" {
      SplitSlashFree(q[..|q| - 1]);
      assert q == q[..|q| - 1] + [q[|q| - 1]];
    }
  }

  lemma {:induction false} SplitAppend(p: string, q: string)
    requires SlashFree(q)
    ensures Split(p + "/" + q) == Split(p) + [q]
  {
    var s := p + "/" + q;
    if q == "" {
      assert s == p + "/" && s[..|s| - 1] == p;
    } else {
      var q0 := q[..|q| - 1];
      SplitAppend(p, q0);
      assert s[..|s| - 1] == p + "/" + q0;
      assert q == q0 + [q[|q| - 1]];
    }
  }

  lemma {:induction false} SplitJoin(parts: seq<string>)
    requires parts != [] && AllSlashFree(parts)
    ensures Split(Join(parts)) == parts
  {
    hide Split;
    if |parts| == 1 {
      SplitSlashFree(parts[0]);
    } else {
      var init, last := parts[..|parts| - 1], parts[|parts| - 1];
      SplitJoin(init);
      SplitAppend(Join(init), last);
      assert init + [last] == parts;
    }
  }

  lemma {:induction false} JoinIsRelative(parts: seq<string>)
    requires parts != [] && parts[0] != "" && SlashFree(parts[0])
    ensures Join(parts) != "" && !IsAbsolute(Join(parts))
  {
    if |parts| > 1 {
      JoinIsRelative(parts[..|parts| - 1]);
    }
  }

  /** The pieces a rendered path is joined from. */
  function Pieces(absolute: bool, n: Normal): seq<string>
    requires n.stack != []
  {
    (if absolute then [""] else []) + n.stack + (if n.open && n.stack[|n.stack| - 1] != ".." then [""] else [])
  }

  lemma RenderIsJoin(absolute: bool, n: Normal)
    requires n.stack != []
    ensures Render(absolute, n) == Join(Pieces(absolute, n))
  {
    var parts := (if absolute then [""] else []) + n.stack;
    if absolute { JoinSlash(n.stack); } else { assert parts == n.stack; }
    assert Join(parts) == (if absolute then "/" else "") + Join(n.stack);
    if n.open && n.stack[|n.stack| - 1] != ".." {
      assert (parts + [""])[..|parts|] == parts;
    } else {
      assert parts + [] == parts;
    }
  }

  lemma PiecesSlashFree(absolute: bool, n: Normal)
    requires AllSlashFree(n.stack) && n.stack != []
    ensures AllSlashFree(Pieces(absolute, n))
  {}

  /** The pieces of a rendered path. */
  lemma SplitRender(absolute: bool, n: Normal)
    requires IsStack(absolute, n.stack) && n.stack != []
    ensures IsAbsolute(Render(absolute, n)) == absolute
    ensures Split(Render(absolute, n)) == Pieces(absolute, n)
  {
    hide Split;
    RenderIsJoin(absolute, n);
    PiecesSlashFree(absolute, n);
    SplitJoin(Pieces(absolute, n));
    JoinIsRelative(n.stack);
  }

  lemma {:induction false} JoinSlash(parts: seq<string>)
    requires parts != []
    ensures Join([""] + parts) == "/" + Join(parts)
  {
    var all, n := [""] + parts, |parts| - 1;
    if n == 0 {
      assert all[..1] == [""];
    } else {
      JoinSlash(parts[..n]);
      assert all[..n + 1] == [""] + parts[..n] && all[n + 1] == parts[n];
      JoinLast(all, n + 1);
      JoinLast(parts, n);
      hide Join;
    }
  }

  lemma JoinLast(parts: seq<string>, n: nat)
    requires 0 < n && |parts| == n + 1
    ensures Join(parts) == Join(parts[..n]) + "/" + parts[n]
  {}

  lemma {:induction false} PushAllConcat(absolute: bool, parts: seq<string>)
    requires IsStack(absolute, parts)
    ensures PushAll(absolute, parts) == Normal(parts, false)
  {
    if parts != [] {
      var init, last := parts[..|parts| - 1], parts[|parts| - 1];
      PushAllConcat(absolute, init);
      assert init + [last] == parts;
    }
  }

  lemma {:induction false} PushAllRooted(parts: seq<string>)
    requires IsStack(true, parts)
    ensures PushAll(true, [""] + parts) == Normal(parts, parts == [])
  {
    var all := [""] + parts;
    if parts == [] {
      assert all[..0] == [];
    } else {
      var init, last := parts[..|parts| - 1], parts[|parts| - 1];
      PushAllRooted(init);
      assert all[..|all| - 1] == [""] + init;
      assert init + [last] == parts;
    }
  }

  lemma PushOpen(absolute: bool, parts: seq<string>)
    ensures PushAll(absolute, parts + [""]) == PushAll(absolute, parts).(open := true)
  {
    assert (parts + [""])[..|parts|] == parts;
  }

  /** Reading a rendered path gives back the names it was rendered from. */
  lemma PushAllRender(absolute: bool, n: Normal)
    requires IsStack(absolute, n.stack) && n.stack != []
    ensures PushAll(absolute, Split(Render(absolute, n))).stack == n.stack
    ensures PushAll(absolute, Split(Render(absolute, n))).open == (n.open && n.stack[|n.stack| - 1] != "..")
  {
    hide Split, PushAll, IsStack;
    SplitRender(absolute, n);
    var head := (if absolute then [""] else []) + n.stack;
    if absolute { PushAllRooted(n.stack); } else { PushAllConcat(absolute, n.stack); assert head == n.stack; }
    PushOpen(absolute, head);
    assert head + [] == head;
  }

  lemma NormalizeIdempotent(p: string)
    ensures Normalize(Normalize(p)) == Normalize(p)
  {
    if p != "" {
      var n := PushAll(IsAbsolute(p), Split(p));
      PushAllIsStack(IsAbsolute(p), Split(p));
      if n.stack == [] {
        NormalizeRootAndDot();
      } else {
        PushAllRender(IsAbsolute(p), n);
        SplitRender(IsAbsolute(p), n);
        JoinIsRelative(n.stack);
      }
    }
  }

  lemma NormalizeRootAndDot()
    ensures Normalize("/") == "/" && Normalize(".") == "."
  {
    assert Split("/") == ["", ""] by { assert "/"[..0] == ""; }
    assert ["", ""][..1] == [""] && [""][..0] == [];
    SplitSlashFree(".");
    assert ["."][..0] == [];
  }

  /** A normalised absolute path stays absolute and never climbs. */
  lemma NormalizeAbsolute(p: string)
    requires IsAbsolute(p)
    ensures IsAbsolute(Normalize(p)) && !HasTraversal(Normalize(p))
  {
    var n := PushAll(true, Split(p));
    PushAllIsStack(true, Split(p));
    hide PushAll;
    if n.stack == [] {
      assert Split("/") == ["", ""] by { assert "/"[..0] == ""; }
    } else {
      SplitRender(true, n);
    }
  }

  // ---- Names and parents of joined paths ----

  lemma {:induction false} FilenameOf(dir: string, name: string)
    requires SlashFree(name)
    ensures Filename(dir + "/" + name) == name
  {
    var p := dir + "/" + name;
    if name != "" {
      assert p[..|p| - 1] == dir + "/" + name[..|name| - 1] && p[|p| - 1] == name[|name| - 1];
      FilenameOf(dir, name[..|name| - 1]);
    }
  }

  lemma ParentOfJoined(dir: string, name: string)
    requires name != "" && SlashFree(name)
    ensures Parent(dir + "/" + name) == if DropTrailingSlashes(dir + "/") == "" then "/" else DropTrailingSlashes(dir + "/")
  {
    var p := dir + "/" + name;
    FilenameOf(dir, name);
    hide Filename;
    assert p[..|p| - |name|] == dir + "/";
    assert p[|p| - 1] == name[|name| - 1];
    assert DropTrailingSlashes(p) == p;
  }

  /** The parent of a joined path is the path it was joined to. */
  lemma ParentOf(dir: string, name: string)
    requires name != "" && SlashFree(name)
    ensures dir != "" && dir[|dir| - 1] != '/' ==> Parent(dir + "/" + name) == dir
    ensures Parent("/" + name) == "/"
  {
    hide Parent, SlashFree;
    ParentOfJoined(dir, name);
    ParentOfJoined("", name);
    assert "" + "/" == "/" && "" + "/" + name == "/" + name;
    assert (dir + "/")[..|dir + "/"| - 1] == dir;
    assert "/"[..0] == "";
  }

  /** A bare name has no parent, and the root is its own. */
  lemma ParentOfName(name: string)
    requires name != "" && SlashFree(name)
    ensures Parent(name) == "" && Parent("/") == "/"
  {
    NameIsItsFilename(name);
    assert DropTrailingSlashes(name) == name;
    assert "/"[..0] == "";
  }

  lemma {:induction false} NameIsItsFilename(name: string)
    requires SlashFree(name)
    ensures Filename(name) == name
  {
    if name != "" {
      NameIsItsFilename(name[..|name| - 1]);
      assert name == name[..|name| - 1] + [name[|name| - 1]];
    }
  }

  // ---- What normalising does ----

  /** One more character starts a new part or extends the last one. */
  function Extend(parts: seq<string>, c: char): seq<string>
    requires parts != []
  {
    if c == '/' then parts + [""] else parts[|parts| - 1 := parts[|parts| - 1] + [c]]
  }

  lemma SplitStep(p: string, c: char)
    ensures Split(p + [c]) == Extend(Split(p), c)
  {
    assert (p + [c])[..|p|] == p;
  }

  lemma ExtendBehind(front: seq<string>, parts: seq<string>, c: char)
    requires parts != []
    ensures Extend(front + parts, c) == front + Extend(parts, c)
  {}

  lemma {:induction false} SplitConcat(p: string, q: string)
    ensures Split(p + "/" + q) == Split(p) + Split(q)
  {
    if q == "" {
      SplitStep(p, '/');
      assert p + "/" + q == p + ['/'];
    } else {
      hide Split, Extend;
      var r, c := q[..|q| - 1], q[|q| - 1];
      SplitConcat(p, r);
      SplitStep(p + "/" + r, c);
      SplitStep(r, c);
      ExtendBehind(Split(p), Split(r), c);
      assert q == r + [c] && p + "/" + q == p + "/" + r + [c];
    }
  }

  /** Pushing on starts from the names kept so far; how their text ended does not matter. */
  lemma {:induction false} PushAllFrom(absolute: bool, parts: seq<string>, parts': seq<string>, more: seq<string>)
    requires PushAll(absolute, parts).stack == PushAll(absolute, parts').stack && more != []
    ensures PushAll(absolute, parts + more) == PushAll(absolute, parts' + more)
  {
    var n := |more| - 1;
    assert (parts + more)[..|parts + more| - 1] == parts + more[..n];
    assert (parts' + more)[..|parts' + more| - 1] == parts' + more[..n];
    if n > 0 {
      PushAllFrom(absolute, parts, parts', more[..n]);
    } else {
      assert parts + more[..n] == parts && parts' + more[..n] == parts';
    }
  }

  lemma NormalizeSame(p: string, inner: string, q: string)
    requires p != "" && PushAll(IsAbsolute(p), Split(p) + Split(inner)).stack == PushAll(IsAbsolute(p), Split(p)).stack
    ensures Normalize(p + "/" + inner + "/" + q) == Normalize(p + "/" + q)
  {
    hide PushAll, Split, Render;
    SplitConcat(p, q);
    SplitConcat(p, inner);
    SplitConcat(p + "/" + inner, q);
    PushAllFrom(IsAbsolute(p), Split(p) + Split(inner), Split(p), Split(q));
    assert IsAbsolute(p + "/" + q) == IsAbsolute(p) && IsAbsolute(p + "/" + inner + "/" + q) == IsAbsolute(p);
  }

  /** Empty parts and single dots go away, and a name goes away with the double dot behind it. */
  lemma NormalizeDrops(p: string, name: string, q: string)
    requires p != "" && SlashFree(name) && name != "" && name != "." && name != ".."
    ensures Normalize(p + "/" + "" + "/" + q) == Normalize(p + "/" + q)
    ensures Normalize(p + "/" + "." + "/" + q) == Normalize(p + "/" + q)
    ensures Normalize(p + "/" + (name + "/" + "..") + "/" + q) == Normalize(p + "/" + q)
  {
    hide Split, PushAll, SlashFree, Normalize;
    var absolute, parts := IsAbsolute(p), Split(p);
    SplitSlashFree("");
    SplitSlashFree(".");
    SplitSlashFree("..");
    SplitSlashFree(name);
    SplitConcat(name, "..");
    PushAllStep(absolute, parts, "");
    PushAllStep(absolute, parts, ".");
    PushAllStep(absolute, parts, name);
    PushAllStep(absolute, parts + [name], "..");
    assert parts + ([name] + [".."]) == parts + [name] + [".."];
    NormalizeSame(p, "", q);
    NormalizeSame(p, ".", q);
    NormalizeSame(p, name + "/" + "..", q);
  }

  lemma PushAllStep(absolute: bool, parts: seq<string>, part: string)
    ensures PushAll(absolute, parts + [part]) == Push(absolute, PushAll(absolute, parts), part)
  {
    assert (parts + [part])[..|parts|] == parts;
  }

  lemma NormalizeSameEnd(p: string, inner: string)
    requires p != "" && PushAll(IsAbsolute(p), Split(p) + Split(inner)) == PushAll(IsAbsolute(p), Split(p)).(open := true)
    ensures Normalize(p + "/" + inner) == Normalize(p + "/")
  {
    hide PushAll, Split, Render;
    SplitConcat(p, inner);
    SplitConcat(p, "");
    SplitSlashFree("");
    PushOpen(IsAbsolute(p), Split(p));
    assert p + "/" + "" == p + "/";
    assert IsAbsolute(p + "/" + inner) == IsAbsolute(p) && IsAbsolute(p + "/") == IsAbsolute(p);
  }

  /** At the end of a path they leave a slash behind. */
  lemma NormalizeEnds(p: string, name: string)
    requires p != "" && SlashFree(name) && name != "" && name != "." && name != ".."
    ensures Normalize(p + "/" + ".") == Normalize(p + "/")
    ensures Normalize(p + "/" + (name + "/" + "..")) == Normalize(p + "/")
  {
    hide Split;
    var absolute, parts := IsAbsolute(p), Split(p);
    SplitSlashFree(".");
    SplitSlashFree("..");
    SplitSlashFree(name);
    SplitConcat(name, "..");
    assert (parts + ["."])[..|parts|] == parts;
    assert (parts + ([name] + [".."]))[..|parts| + 1] == parts + [name] && (parts + [name])[..|parts|] == parts;
    NormalizeSameEnd(p, ".");
    NormalizeSameEnd(p, name + "/" + "..");
  }

  /** A relative path of names, with double dots only in front, is as it was; behind a double dot a slash goes away. */
  lemma NormalizeRelative(names: seq<string>)
    requires names != [] && IsStack(false, names)
    ensures Normalize(Join(names)) == Join(names)
    ensures Normalize(Join(names) + "/") == Join(names) + if names[|names| - 1] == ".." then "" else "/"
  {
    hide Split, Join, PushAll;
    var p := Join(names);
    SplitSlashFree("");
    SplitJoin(names);
    SplitConcat(p, "");
    assert p + "/" + "" == p + "/";
    JoinIsRelative(names);
    PushAllConcat(false, names);
    PushOpen(false, names);
  }

  /** Nothing is left of a name and the double dot behind it, nor of a single dot, which is what an empty rest becomes. */
  lemma NormalizeToDot(name: string)
    requires SlashFree(name) && name != "" && name != "." && name != ".."
    ensures Normalize(name + "/" + "..") == "." && Normalize(".") == "." && Normalize("") == ""
  {
    hide Split;
    SplitSlashFree(name);
    SplitSlashFree("..");
    SplitConcat(name, "..");
    NormalizeRootAndDot();
    var p := name + "/" + "..";
    assert p[0] == name[0] && !IsAbsolute(p);
    assert Split(p) == [name, ".."] && [name, ".."][..1] == [name] && [name][..0] == [];
    assert PushAll(false, [name]) == Normal([name], false);
    assert PushAll(false, [name, ".."]) == Normal([], true);
  }

  /** Joining the pieces of a path gives the path. */
  lemma {:induction false} JoinOfSplit(p: string)
    ensures Join(Split(p)) == p
  {
    if p != "" {
      var q, c := p[..|p| - 1], p[|p| - 1];
      JoinOfSplit(q);
      assert p == q + [c];
      hide Join;
      SplitStep(q, c);
      JoinExtended(Split(q), c);
    }
  }

  lemma JoinExtended(parts: seq<string>, c: char)
    requires parts != []
    ensures Join(Extend(parts, c)) == Join(parts) + [c]
  {
    var n := |parts| - 1;
    if c == '/' {
      assert (parts + [""])[..n + 1] == parts;
    } else {
      assert parts[n := parts[n] + [c]][..n] == parts[..n];
    }
  }

  /** Nothing is above the root. */
  lemma NormalizeAtRoot(q: string)
    ensures Normalize("/" + ".." + "/" + q) == Normalize("/" + q)
  {
    hide Split;
    SplitSlashFree("");
    SplitSlashFree("..");
    SplitConcat("", "..");
    SplitConcat("" + "/" + "..", q);
    SplitConcat("", q);
    assert "" + "/" + ".." == "/" + ".." && "" + "/" + q == "/" + q;
    assert ([""] + [".."])[..1] == [""] && [""][..0] == [];
    PushAllFrom(true, [""] + [".."], [""], Split(q));
  }

  predicate PlainNames(names: seq<string>) {
    AllSlashFree(names) && forall i :: 0 <= i < |names| ==> names[i] != "" && names[i] != "." && names[i] != ".."
  }

  lemma SplitRooted(names: seq<string>)
    requires names != [] && AllSlashFree(names)
    ensures Split("/" + Join(names)) == [""] + names
    ensures Split("/" + Join(names) + "/") == [""] + names + [""]
  {
    hide Split, Join;
    var p := "/" + Join(names);
    SplitSlashFree("");
    SplitConcat("", Join(names));
    SplitConcat(p, "");
    SplitJoin(names);
    assert "" + "/" + Join(names) == p && p + "/" + "" == p + "/";
  }

  /** A path of plain names is as it was, with or without a slash at the end. */
  lemma NormalizeKeeps(names: seq<string>)
    requires names != [] && PlainNames(names)
    ensures Normalize("/" + Join(names)) == "/" + Join(names)
    ensures Normalize("/" + Join(names) + "/") == "/" + Join(names) + "/"
  {
    hide Split, Join, PushAll, AllSlashFree;
    SplitRooted(names);
    assert IsStack(true, names);
    PushAllRooted(names);
    PushOpen(true, [""] + names);
    assert names[|names| - 1] != "..";
  }

  lemma RootIsNormal()
    ensures Normalize("/") == "/" && !HasTraversal("/")
  {
    assert "/"[..0] == "" && Split("/") == ["", ""];
    assert ["", ""][..1] == [""] && [""][..0] == [];
  }

  lemma PlainHasNoTraversal(names: seq<string>)
    requires names != [] && PlainNames(names)
    ensures !HasTraversal("/" + Join(names)) && !HasTraversal("/" + Join(names) + "/")
  {
    hide Split, Join;
    SplitRooted(names);
  }

  /** `/`, or plain names behind a slash each, with or without a slash at the end. */
  ghost predicate PlainPath(p: string) {
    p == "/" || exists names :: PlainText(p, names)
  }

  ghost predicate PlainText(p: string, names: seq<string>) {
    names != [] && PlainNames(names) && p in {"/" + Join(names), "/" + Join(names) + "/"}
  }

  /** What normalising leaves of an absolute path. */
  lemma NormalIsPlain(p: string)
    requires IsAbsolute(p)
    ensures PlainPath(Normalize(p))
  {
    hide Split, Join;
    PushAllIsStack(true, Split(p));
    var n := PushAll(true, Split(p));
    if n.stack != [] {
      assert PlainNames(n.stack);
      assert Normalize(p) == "/" + Join(n.stack) + if n.open then "/" else "";
      assert "/" + Join(n.stack) + "" == "/" + Join(n.stack);
      assert PlainText(Normalize(p), n.stack);
    }
  }
}
