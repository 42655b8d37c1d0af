/**
  How a repository's files become symlink declarations (lib/dotty/repository.rb).

  A repository checkout is a tree of `Node`s. Every top-level directory whose name ends in
  `dotfiles` is scanned: its direct children map to themselves below the home directory,
  and everything below an `in+NAME` child maps to the same path with every `in+` removed,
  so `dotfiles/in+.config/app/rc` is linked as `~/.config/app/rc`. Sources are relative to
  the repository's local path, targets relative to the home directory.
*/
module Dotfiles {
  import opened Wrappers
  import opened Paths
  import opened Assoc

  /** The prefix that marks a directory whose contents are linked one by one. */
  const InPlus := "in+"

  /** `name =~ /^in\+/`. Ruby's `^` matches at the start of every line, not only of the string. */
  predicate IsPlaceholder(name: string) {
    StartsWith(name, InPlus) || Contains(name, "\nin+")
  }

  /** `s.gsub('in+', '')`: occurrences are removed left to right and never overlap. */
  function RemoveInPlus(s: string): string
    decreases |s|
  {
    if StartsWith(s, InPlus) then RemoveInPlus(s[|InPlus|..])
    else if s == [] then []
    else [s[0]] + RemoveInPlus(s[1..])
  }

  datatype Node = File(name: string) | Dir(name: string, children: seq<Node>)

  function Children(n: Node): seq<Node> {
    if n.Dir? then n.children else []
  }

  /** Matched by the glob `*dotfiles/`: a directory, `*` does not match a leading dot. */
  predicate IsDotfilesDir(n: Node) {
    n.Dir? && EndsWith(n.name, "dotfiles") && !StartsWith(n.name, ".")
  }

  /** The directories `Dir.glob(File.join(local_path, '*dotfiles/'))` yields, in order. */
  function DotfilesDirs(top: seq<Node>): (dirs: seq<Node>)
    ensures forall d :: d in dirs <==> d in top && IsDotfilesDir(d)
  {
    if top == [] then []
    else (if IsDotfilesDir(top[0]) then [top[0]] else []) + DotfilesDirs(top[1..])
  }

  function Under(name: string, ps: seq<Path>): (qs: seq<Path>)
    ensures |qs| == |ps| && forall i :: 0 <= i < |ps| ==> qs[i] == [name] + ps[i]
  {
    seq(|ps|, i requires 0 <= i < |ps| => [name] + ps[i])
  }

  /**
    Every entry of the forest `cs` at any depth, each directory before its contents, as a
    path relative to the directory holding `cs` (what `**` + `*` enumerates with
    `File::FNM_DOTMATCH`).
  */
  function Walk(cs: seq<Node>): seq<Path>
    decreases cs
  {
    if cs == [] then []
    else [[cs[0].name]] + Under(cs[0].name, if cs[0].Dir? then Walk(cs[0].children) else []) + Walk(cs[1..])
  }

  /** `p` names an entry of the forest `cs`: the independent description of `Walk`. */
  predicate Reaches(cs: seq<Node>, p: Path)
    decreases cs
  {
    p != [] &&
    exists i :: 0 <= i < |cs| && cs[i].name == p[0] &&
      (|p| == 1 || (cs[i].Dir? && Reaches(cs[i].children, p[1..])))
  }

  /**
    The in+ glob of line 124 (pattern `in+*`, then `**`, then `*`, below the dotfiles
    directory): every entry strictly below a child directory whose name starts with `in+`,
    relative to the dotfiles directory.
  */
  function InPlusPaths(cs: seq<Node>): seq<Path> {
    if cs == [] then []
    else
      (if cs[0].Dir? && StartsWith(cs[0].name, InPlus) then Under(cs[0].name, Walk(cs[0].children)) else [])
      + InPlusPaths(cs[1..])
  }

  /** The globbed path as a string: the local path, the dotfiles directory, then `p`. */
  function FullPath(localPath: string, dirName: string, p: Path): string {
    localPath + "/" + dirName + "/" + Join(p, "/")
  }

  /**
    The filters of lines 125 and 127: any `..` in the whole path, a path ending in `/.`
    (line-anchored, like `^` above), or a placeholder basename.
  */
  predicate Skipped(full: string, p: Path)
    requires p != []
  {
    Contains(full, "..") || EndsWith(full, "/.") || Contains(full, "/.\n") || IsPlaceholder(Last(p))
  }

  /** The merges made for the direct children `cs` of dotfiles directory `dirName`, in order. */
  function RootEntries(dirName: string, cs: seq<Node>): seq<(string, string)> {
    if cs == [] then []
    else
      var c := cs[|cs| - 1];
      RootEntries(dirName, cs[..|cs| - 1])
      + if IsPlaceholder(c.name) then [] else [(dirName + "/" + c.name, c.name)]
  }

  /** The merges made for the globbed `in+` paths `ps` of dotfiles directory `dirName`, in order. */
  function InPlusEntries(localPath: string, dirName: string, ps: seq<Path>): seq<(string, string)> {
    if ps == [] then []
    else
      var p := ps[|ps| - 1];
      InPlusEntries(localPath, dirName, ps[..|ps| - 1])
      + if p == [] || Skipped(FullPath(localPath, dirName, p), p) then []
        else [(dirName + "/" + Join(p, "/"), RemoveInPlus(Join(p, "/")))]
  }

  function DirEntries(localPath: string, d: Node): seq<(string, string)> {
    RootEntries(d.name, Children(d)) + InPlusEntries(localPath, d.name, InPlusPaths(Children(d)))
  }

  /** Every merge the scan makes, dotfiles directory by dotfiles directory. */
  function ScanEntries(localPath: string, dirs: seq<Node>): seq<(string, string)> {
    if dirs == [] then []
    else ScanEntries(localPath, dirs[..|dirs| - 1]) + DirEntries(localPath, dirs[|dirs| - 1])
  }

  /** The hash `symlinks_from_dotfiles_directories` returns. */
  function Scan(localPath: string, top: seq<Node>): map<string, string> {
    ToMap(ScanEntries(localPath, DotfilesDirs(top)))
  }

  lemma ScanEntriesStep(localPath: string, dirs: seq<Node>, i: nat)
    requires i < |dirs|
    ensures ScanEntries(localPath, dirs[..i + 1]) == ScanEntries(localPath, dirs[..i]) + DirEntries(localPath, dirs[i])
  {
    assert dirs[..i + 1][..i] == dirs[..i];
  }

  lemma RootEntriesStep(dirName: string, cs: seq<Node>, j: nat)
    requires j < |cs|
    ensures RootEntries(dirName, cs[..j + 1]) == RootEntries(dirName, cs[..j])
      + if IsPlaceholder(cs[j].name) then [] else [(dirName + "/" + cs[j].name, cs[j].name)]
  {
    assert cs[..j + 1][..j] == cs[..j];
  }

  lemma InPlusEntriesStep(localPath: string, dirName: string, ps: seq<Path>, k: nat)
    requires k < |ps|
    ensures InPlusEntries(localPath, dirName, ps[..k + 1]) == InPlusEntries(localPath, dirName, ps[..k])
      + if ps[k] == [] || Skipped(FullPath(localPath, dirName, ps[k]), ps[k]) then []
        else [(dirName + "/" + Join(ps[k], "/"), RemoveInPlus(Join(ps[k], "/")))]
  {
    assert ps[..k + 1][..k] == ps[..k];
  }

  /** symlinks_from_dotfiles_directories (lines 110-134): one dotfiles directory after another. */
  method SymlinksFromDotfilesDirectories(localPath: string, top: seq<Node>) returns (hsh: map<string, string>)
    ensures hsh == Scan(localPath, top)
  {
    hsh := map[];
    var dirs := DotfilesDirs(top);
    for i := 0 to |dirs|
      invariant hsh == ToMap(ScanEntries(localPath, dirs[..i]))
    {
      var d := dirs[i];
      var cs := Children(d);
      ghost var done := ScanEntries(localPath, dirs[..i]);
      ghost var roots := RootEntries(d.name, cs);
      ghost var nested := InPlusEntries(localPath, d.name, InPlusPaths(cs));
      ScanEntriesStep(localPath, dirs, i);
      assert ScanEntries(localPath, dirs[..i + 1]) == (done + roots) + nested;
      ToMapConcat(done, roots);
      ToMapConcat(done + roots, nested);
      hsh := MergeRootFiles(hsh, d.name, cs);
      hsh := MergeInPlusPaths(hsh, localPath, d.name, InPlusPaths(cs));
    }
    assert dirs[..|dirs|] == dirs;
  }

  /** The 'root' files loop (lines 115-121) over the children `cs` of dotfiles directory `dirName`. */
  method MergeRootFiles(hsh0: map<string, string>, dirName: string, cs: seq<Node>) returns (hsh: map<string, string>)
    ensures hsh == hsh0 + ToMap(RootEntries(dirName, cs))
  {
    hsh := hsh0;
    for j := 0 to |cs|
      invariant hsh == hsh0 + ToMap(RootEntries(dirName, cs[..j]))
    {
      var c := cs[j];
      RootEntriesStep(dirName, cs, j);
      if !IsPlaceholder(c.name) {
        MergeSnoc(hsh0, RootEntries(dirName, cs[..j]), (dirName + "/" + c.name, c.name));
        hsh := hsh[dirName + "/" + c.name := c.name];
      } else {
        assert RootEntries(dirName, cs[..j]) + [] == RootEntries(dirName, cs[..j]);
      }
    }
    assert cs[..|cs|] == cs;
  }

  /** The loop over the in+ glob (lines 123-131), given the globbed paths `ps`. */
  method MergeInPlusPaths(hsh0: map<string, string>, localPath: string, dirName: string, ps: seq<Path>)
    returns (hsh: map<string, string>)
    ensures hsh == hsh0 + ToMap(InPlusEntries(localPath, dirName, ps))
  {
    hsh := hsh0;
    for k := 0 to |ps|
      invariant hsh == hsh0 + ToMap(InPlusEntries(localPath, dirName, ps[..k]))
    {
      var p := ps[k];
      InPlusEntriesStep(localPath, dirName, ps, k);
      if p != [] && !Skipped(FullPath(localPath, dirName, p), p) {
        var source := dirName + "/" + Join(p, "/");
        var target := RemoveInPlus(Join(p, "/"));
        MergeSnoc(hsh0, InPlusEntries(localPath, dirName, ps[..k]), (source, target));
        hsh := hsh[source := target];
      } else {
        assert InPlusEntries(localPath, dirName, ps[..k]) + [] == InPlusEntries(localPath, dirName, ps[..k]);
      }
    }
    assert ps[..|ps|] == ps;
  }

  // ---------------------------------------------------------------------------------------
  // Removing `in+` from a joined path

  /** "in+" holds no '/', so no occurrence of it straddles a separator. */
  lemma {:induction false} RemoveInPlusSlash(a: string, b: string)
    ensures RemoveInPlus(a + "/" + b) == RemoveInPlus(a) + "/" + RemoveInPlus(b)
    decreases |a|
  {
    var s := a + "/" + b;
    if StartsWith(a, InPlus) {
      assert s[..3] == a[..3];
      assert s[3..] == a[3..] + "/" + b;
      assert RemoveInPlus(s) == RemoveInPlus(a[3..] + "/" + b);
      RemoveInPlusSlash(a[3..], b);
    } else if a == [] {
      assert s[0] == '/';
      assert s[1..] == b;
      assert RemoveInPlus(s) == "/" + RemoveInPlus(b);
    } else {
      if |a| >= 3 {
        assert s[..3] == a[..3];
      } else {
        assert s[|a|] == '/';
      }
      assert s[1..] == a[1..] + "/" + b;
      assert RemoveInPlus(s) == [a[0]] + RemoveInPlus(a[1..] + "/" + b);
      RemoveInPlusSlash(a[1..], b);
      assert RemoveInPlus(a) == [a[0]] + RemoveInPlus(a[1..]);
    }
  }

  function RemoveInPlusEach(p: Path): (q: Path)
    ensures |q| == |p| && forall i :: 0 <= i < |p| ==> q[i] == RemoveInPlus(p[i])
  {
    seq(|p|, i requires 0 <= i < |p| => RemoveInPlus(p[i]))
  }

  /** `gsub('in+', '')` on the joined path is the same as removing `in+` from each component. */
  lemma {:induction false} RemoveInPlusJoin(p: Path)
    ensures RemoveInPlus(Join(p, "/")) == Join(RemoveInPlusEach(p), "/")
    decreases |p|
  {
    if |p| > 1 {
      RemoveInPlusJoin(p[1..]);
      RemoveInPlusSlash(p[0], Join(p[1..], "/"));
      assert RemoveInPlusEach(p)[1..] == RemoveInPlusEach(p[1..]);
    }
  }

  /** A string without `in+` is left alone. */
  lemma {:induction false} RemoveInPlusAbsent(s: string)
    requires !Contains(s, InPlus)
    ensures RemoveInPlus(s) == s
    decreases |s|
  {
    if s != [] {
      RemoveInPlusAbsent(s[1..]);
      assert [s[0]] + s[1..] == s;
    }
  }

  // ---------------------------------------------------------------------------------------
  // What a source is linked as

  /** A source without its first component, the dotfiles directory. */
  function BelowDotfilesDir(source: string): string {
    Join(SplitOn(source, '/')[1..], "/")
  }

  /**
    The home-relative target a scanned source is linked as, computed from the source alone:
    below an `in+` directory every `in+` is removed, a direct child is kept as it is.
  */
  function TargetOf(source: string): string {
    var rest := BelowDotfilesDir(source);
    if StartsWith(rest, InPlus) then RemoveInPlus(rest) else rest
  }

  lemma BelowDotfilesDirOf(dirName: string, rest: string)
    requires '/' !in dirName
    ensures BelowDotfilesDir(dirName + "/" + rest) == rest
  {
    SplitOnField(dirName, '/', rest);
    JoinSplitOn(rest, '/');
  }

  lemma {:induction false} JoinStartsWith(p: Path, sep: string)
    requires p != []
    ensures StartsWith(Join(p, sep), p[0])
  {
    if |p| > 1 {
      assert Join(p, sep) == p[0] + (sep + Join(p[1..], sep));
    }
  }

  // ---------------------------------------------------------------------------------------
  // The globs, described without their enumeration order

  lemma UnderMember(name: string, ps: seq<Path>, p: Path)
    ensures p in Under(name, ps) <==> p != [] && p[0] == name && p[1..] in ps
  {
    if p in Under(name, ps) {
      var i :| 0 <= i < |ps| && Under(name, ps)[i] == p;
      assert p[1..] == ps[i];
    }
    if p != [] && p[0] == name && p[1..] in ps {
      var i :| 0 <= i < |ps| && ps[i] == p[1..];
      assert Under(name, ps)[i] == p;
    }
  }

  lemma ReachesCons(cs: seq<Node>, p: Path)
    requires cs != []
    ensures Reaches(cs, p) <==> (p != [] &&
      ((cs[0].name == p[0] && (|p| == 1 || (cs[0].Dir? && Reaches(cs[0].children, p[1..])))) || Reaches(cs[1..], p)))
  {
    if p != [] {
      if Reaches(cs[1..], p) {
        var i :| 0 <= i < |cs[1..]| && cs[1..][i].name == p[0] &&
          (|p| == 1 || (cs[1..][i].Dir? && Reaches(cs[1..][i].children, p[1..])));
        assert cs[i + 1] == cs[1..][i];
      }
      if Reaches(cs, p) {
        var i :| 0 <= i < |cs| && cs[i].name == p[0] &&
          (|p| == 1 || (cs[i].Dir? && Reaches(cs[i].children, p[1..])));
        if i > 0 {
          assert cs[1..][i - 1] == cs[i];
        }
      }
    }
  }

  /** `Walk` enumerates exactly the entries of the forest. */
  lemma {:induction false} WalkReaches(cs: seq<Node>, p: Path)
    ensures p in Walk(cs) <==> Reaches(cs, p)
    decreases cs
  {
    if cs != [] {
      var c := cs[0];
      var sub := if c.Dir? then Walk(c.children) else [];
      assert Walk(cs) == [[c.name]] + Under(c.name, sub) + Walk(cs[1..]);
      WalkReaches(cs[1..], p);
      ReachesCons(cs, p);
      UnderMember(c.name, sub, p);
      if c.Dir? && p != [] {
        WalkReaches(c.children, p[1..]);
      }
      if p != [] && p[0] == c.name && |p| == 1 {
        assert p == [c.name];
      }
    }
  }

  /**
    The in+ glob lists exactly the entries at depth two or more whose first component is
    a child directory named `in+...`; the contents of other directories are not listed.
  */
  lemma {:induction false} InPlusPathsSpec(cs: seq<Node>, p: Path)
    ensures p in InPlusPaths(cs) <==> (|p| >= 2 &&
      exists i :: 0 <= i < |cs| && cs[i].Dir? && StartsWith(cs[i].name, InPlus) && cs[i].name == p[0]
                  && Reaches(cs[i].children, p[1..]))
    decreases |cs|
  {
    if cs != [] {
      var c := cs[0];
      InPlusPathsSpec(cs[1..], p);
      if c.Dir? && StartsWith(c.name, InPlus) {
        UnderMember(c.name, Walk(c.children), p);
        if p != [] {
          WalkReaches(c.children, p[1..]);
        }
      }
      if |p| >= 2 && exists i :: 0 <= i < |cs| && cs[i].Dir? && StartsWith(cs[i].name, InPlus) && cs[i].name == p[0]
                                 && Reaches(cs[i].children, p[1..]) {
        var i :| 0 <= i < |cs| && cs[i].Dir? && StartsWith(cs[i].name, InPlus) && cs[i].name == p[0]
                 && Reaches(cs[i].children, p[1..]);
        if i > 0 {
          assert cs[1..][i - 1] == cs[i];
        }
      }
      if p in InPlusPaths(cs[1..]) {
        var i :| 0 <= i < |cs[1..]| && cs[1..][i].Dir? && StartsWith(cs[1..][i].name, InPlus) && cs[1..][i].name == p[0]
                 && Reaches(cs[1..][i].children, p[1..]);
        assert cs[i + 1] == cs[1..][i];
      }
    }
  }

  // ---------------------------------------------------------------------------------------
  // The scan as a set of sources, each linked as its TargetOf

  function RootSources(dirName: string, cs: seq<Node>): set<string> {
    set c | c in cs && !IsPlaceholder(c.name) :: dirName + "/" + c.name
  }

  function InPlusSources(localPath: string, dirName: string, ps: seq<Path>): set<string> {
    set p | p in ps && p != [] && !Skipped(FullPath(localPath, dirName, p), p) :: dirName + "/" + Join(p, "/")
  }

  function DirSources(localPath: string, d: Node): set<string> {
    RootSources(d.name, Children(d)) + InPlusSources(localPath, d.name, InPlusPaths(Children(d)))
  }

  /** `source` is listed by the scan: no visiting order is involved. */
  predicate IsSource(localPath: string, top: seq<Node>, source: string) {
    exists d :: d in top && IsDotfilesDir(d) && source in DirSources(localPath, d)
  }

  /** Each entry links its source to the source's TargetOf. */
  predicate Targeted(entries: seq<(string, string)>) {
    forall i :: 0 <= i < |entries| ==> entries[i].1 == TargetOf(entries[i].0)
  }

  lemma TargetedConcat(a: seq<(string, string)>, b: seq<(string, string)>)
    requires Targeted(a) && Targeted(b)
    ensures Targeted(a + b)
  {
    forall i | 0 <= i < |a + b| ensures (a + b)[i].1 == TargetOf((a + b)[i].0) {
      if i < |a| {
        assert (a + b)[i] == a[i];
      } else {
        assert (a + b)[i] == b[i - |a|];
      }
    }
  }

  /** A top-level directory name never holds '/'. */
  predicate PlainNames(top: seq<Node>) {
    forall n :: n in top ==> '/' !in n.name
  }

  lemma {:induction false} RootEntriesSpec(dirName: string, cs: seq<Node>)
    requires '/' !in dirName
    ensures KeysOf(RootEntries(dirName, cs)) == RootSources(dirName, cs)
    ensures Targeted(RootEntries(dirName, cs))
    decreases |cs|
  {
    if cs != [] {
      var n := |cs| - 1;
      var c := cs[n];
      var init := cs[..n];
      RootEntriesSpec(dirName, init);
      var added: seq<(string, string)> := if IsPlaceholder(c.name) then [] else [(dirName + "/" + c.name, c.name)];
      assert RootEntries(dirName, cs) == RootEntries(dirName, init) + added;
      KeysOfConcat(RootEntries(dirName, init), added);
      assert cs == init + [c];
      assert RootSources(dirName, cs) == RootSources(dirName, init) + KeysOf(added);
      if !IsPlaceholder(c.name) {
        BelowDotfilesDirOf(dirName, c.name);
      }
    }
  }

  lemma InPlusEntriesSpec(localPath: string, dirName: string, ps: seq<Path>)
    requires '/' !in dirName
    requires forall p :: p in ps && p != [] ==> StartsWith(p[0], InPlus)
    ensures KeysOf(InPlusEntries(localPath, dirName, ps)) == InPlusSources(localPath, dirName, ps)
    ensures Targeted(InPlusEntries(localPath, dirName, ps))
  {
    InPlusEntriesKeys(localPath, dirName, ps);
    InPlusEntriesTargeted(localPath, dirName, ps);
  }

  lemma {:induction false} InPlusEntriesKeys(localPath: string, dirName: string, ps: seq<Path>)
    ensures KeysOf(InPlusEntries(localPath, dirName, ps)) == InPlusSources(localPath, dirName, ps)
    decreases |ps|
  {
    if ps != [] {
      var n := |ps| - 1;
      var p := ps[n];
      var init := ps[..n];
      InPlusEntriesKeys(localPath, dirName, init);
      var added: seq<(string, string)> :=
        if p == [] || Skipped(FullPath(localPath, dirName, p), p) then []
        else [(dirName + "/" + Join(p, "/"), RemoveInPlus(Join(p, "/")))];
      assert InPlusEntries(localPath, dirName, ps) == InPlusEntries(localPath, dirName, init) + added;
      KeysOfConcat(InPlusEntries(localPath, dirName, init), added);
      assert ps == init + [p];
      InPlusSourcesSnoc(localPath, dirName, init, p);
      if added != [] {
        KeysOfSingleton(dirName + "/" + Join(p, "/"), RemoveInPlus(Join(p, "/")));
      }
    }
  }

  /** One more globbed path adds its source exactly when the filters keep it. */
  lemma InPlusSourcesSnoc(localPath: string, dirName: string, init: seq<Path>, p: Path)
    ensures InPlusSources(localPath, dirName, init + [p]) ==
      InPlusSources(localPath, dirName, init) +
      (if p == [] || Skipped(FullPath(localPath, dirName, p), p) then {} else {dirName + "/" + Join(p, "/")})
  {
    var ps := init + [p];
    forall x | x in InPlusSources(localPath, dirName, ps)
      ensures x in InPlusSources(localPath, dirName, init) || (x == dirName + "/" + Join(p, "/") && p != [] && !Skipped(FullPath(localPath, dirName, p), p))
    {
      var q :| q in ps && q != [] && !Skipped(FullPath(localPath, dirName, q), q) && x == dirName + "/" + Join(q, "/");
      if q != p {
        assert q in init;
      }
    }
    assert p in ps;
    forall q | q in init ensures q in ps {
    }
  }

  lemma InPlusEntriesTargeted(localPath: string, dirName: string, ps: seq<Path>)
    requires '/' !in dirName
    requires forall p :: p in ps && p != [] ==> StartsWith(p[0], InPlus)
    ensures Targeted(InPlusEntries(localPath, dirName, ps))
  {
    InPlusPrefixTargeted(localPath, dirName, ps, |ps|);
    assert ps[..|ps|] == ps;
  }

  lemma {:induction false} InPlusPrefixTargeted(localPath: string, dirName: string, ps: seq<Path>, k: nat)
    requires k <= |ps| && '/' !in dirName
    requires forall p :: p in ps && p != [] ==> StartsWith(p[0], InPlus)
    ensures Targeted(InPlusEntries(localPath, dirName, ps[..k]))
    decreases k
  {
    if k > 0 {
      var p := ps[k - 1];
      InPlusPrefixTargeted(localPath, dirName, ps, k - 1);
      InPlusEntriesStep(localPath, dirName, ps, k - 1);
      InPlusAddedTargeted(localPath, dirName, p);
      var added: seq<(string, string)> :=
        if p == [] || Skipped(FullPath(localPath, dirName, p), p) then []
        else [(dirName + "/" + Join(p, "/"), RemoveInPlus(Join(p, "/")))];
      TargetedConcat(InPlusEntries(localPath, dirName, ps[..k - 1]), added);
    }
  }

  lemma InPlusAddedTargeted(localPath: string, dirName: string, p: Path)
    requires '/' !in dirName && (p != [] ==> StartsWith(p[0], InPlus))
    ensures Targeted(if p == [] || Skipped(FullPath(localPath, dirName, p), p) then []
                     else [(dirName + "/" + Join(p, "/"), RemoveInPlus(Join(p, "/")))])
  {
    if p != [] {
      InPlusTargetOf(dirName, p);
    }
  }

  lemma {:induction false} ScanEntriesKeys(localPath: string, dirs: seq<Node>, source: string)
    requires PlainNames(dirs)
    ensures source in KeysOf(ScanEntries(localPath, dirs)) <==> exists d :: d in dirs && source in DirSources(localPath, d)
    decreases |dirs|
  {
    if dirs != [] {
      var n := |dirs| - 1;
      var d := dirs[n];
      var init := dirs[..n];
      assert dirs == init + [d];
      assert PlainNames(init);
      ScanEntriesKeys(localPath, init, source);
      DirEntriesSpec(localPath, d);
      assert ScanEntries(localPath, dirs) == ScanEntries(localPath, init) + DirEntries(localPath, d);
      KeysOfConcat(ScanEntries(localPath, init), DirEntries(localPath, d));
      if source in KeysOf(ScanEntries(localPath, dirs)) {
        if source !in DirSources(localPath, d) {
          var d' :| d' in init && source in DirSources(localPath, d');
          assert d' in dirs;
        }
      }
      if exists d' :: d' in dirs && source in DirSources(localPath, d') {
        var d' :| d' in dirs && source in DirSources(localPath, d');
        if d' != d {
          assert d' in init;
        }
      }
    }
  }

  lemma {:induction false} ScanEntriesTargeted(localPath: string, dirs: seq<Node>)
    requires PlainNames(dirs)
    ensures Targeted(ScanEntries(localPath, dirs))
    decreases |dirs|
  {
    if dirs != [] {
      var n := |dirs| - 1;
      ScanEntriesTargeted(localPath, dirs[..n]);
      DirEntriesSpec(localPath, dirs[n]);
    }
  }

  lemma DirEntriesSpec(localPath: string, d: Node)
    requires '/' !in d.name
    ensures KeysOf(DirEntries(localPath, d)) == DirSources(localPath, d)
    ensures Targeted(DirEntries(localPath, d))
  {
    var cs := Children(d);
    forall p | p in InPlusPaths(cs) && p != [] ensures StartsWith(p[0], InPlus) {
      InPlusPathsSpec(cs, p);
    }
    RootEntriesSpec(d.name, cs);
    InPlusEntriesSpec(localPath, d.name, InPlusPaths(cs));
    KeysOfConcat(RootEntries(d.name, cs), InPlusEntries(localPath, d.name, InPlusPaths(cs)));
  }

  /**
    symlinks_from_dotfiles_directories maps exactly the listed sources, each to its
    TargetOf. The value depends on the source alone, so the result is the same whatever
    order the directories and entries are visited in.
  */
  lemma ScanIsTargetMap(localPath: string, top: seq<Node>)
    requires PlainNames(top)
    ensures forall k :: k in Scan(localPath, top) <==> IsSource(localPath, top, k)
    ensures forall k :: k in Scan(localPath, top) ==> Scan(localPath, top)[k] == TargetOf(k)
  {
    var dirs := DotfilesDirs(top);
    var entries := ScanEntries(localPath, dirs);
    ScanEntriesTargeted(localPath, dirs);
    ToMapKeys(entries);
    ToMapSpec(entries);
    forall k ensures k in Scan(localPath, top) <==> IsSource(localPath, top, k) {
      ScanEntriesKeys(localPath, dirs, k);
    }
    forall k | k in Scan(localPath, top) ensures Scan(localPath, top)[k] == TargetOf(k) {
      var i :| 0 <= i < |entries| && entries[i] == (k, Scan(localPath, top)[k]);
    }
  }

  /** Listing the same top-level entries in another order gives the same hash. */
  lemma ScanOrderIndependent(localPath: string, top1: seq<Node>, top2: seq<Node>)
    requires PlainNames(top1)
    requires forall n :: n in top1 <==> n in top2
    ensures Scan(localPath, top1) == Scan(localPath, top2)
  {
    ScanIsTargetMap(localPath, top1);
    ScanIsTargetMap(localPath, top2);
  }

  /** A direct child of a dotfiles directory that is not a placeholder is linked as itself. */
  lemma RootChildLinked(localPath: string, top: seq<Node>, d: Node, c: Node)
    requires PlainNames(top)
    requires d in top && IsDotfilesDir(d) && c in d.children && !IsPlaceholder(c.name)
    ensures (d.name + "/" + c.name) in Scan(localPath, top)
    ensures Scan(localPath, top)[d.name + "/" + c.name] == c.name
  {
    ScanIsTargetMap(localPath, top);
    assert (d.name + "/" + c.name) in DirSources(localPath, d);
    BelowDotfilesDirOf(d.name, c.name);
  }

  /**
    An entry at any depth below an `in+` directory, that the filters keep, is linked as
    its path below the dotfiles directory with `in+` removed from every component:
    `dotfiles/in+first/in+second/c` is linked as `first/second/c`.
  */
  lemma InPlusEntryLinked(localPath: string, top: seq<Node>, d: Node, c: Node, p: Path)
    requires PlainNames(top)
    requires d in top && IsDotfilesDir(d) && c in d.children
    requires c.Dir? && StartsWith(c.name, InPlus)
    requires |p| >= 2 && p[0] == c.name && Reaches(c.children, p[1..])
    requires !Skipped(FullPath(localPath, d.name, p), p)
    ensures (d.name + "/" + Join(p, "/")) in Scan(localPath, top)
    ensures Scan(localPath, top)[d.name + "/" + Join(p, "/")] == Join(RemoveInPlusEach(p), "/")
  {
    var key := d.name + "/" + Join(p, "/");
    assert p in InPlusPaths(Children(d)) by {
      var i :| 0 <= i < |d.children| && d.children[i] == c;
      InPlusPathsSpec(d.children, p);
    }
    assert key in DirSources(localPath, d);
    assert IsSource(localPath, top, key);
    ScanIsTargetMap(localPath, top);
    InPlusEntryTarget(d.name, p);
  }

  /** The link name of an entry below an `in+` directory: the path with every `in+` removed. */
  lemma InPlusEntryTarget(dirName: string, p: Path)
    requires '/' !in dirName && p != [] && StartsWith(p[0], InPlus)
    ensures TargetOf(dirName + "/" + Join(p, "/")) == Join(RemoveInPlusEach(p), "/")
  {
    InPlusTargetOf(dirName, p);
    RemoveInPlusJoin(p);
  }

  lemma InPlusTargetOf(dirName: string, p: Path)
    requires '/' !in dirName && p != [] && StartsWith(p[0], InPlus)
    ensures TargetOf(dirName + "/" + Join(p, "/")) == RemoveInPlus(Join(p, "/"))
  {
    BelowDotfilesDirOf(dirName, Join(p, "/"));
    JoinStartsWith(p, "/");
    assert Join(p, "/")[..3] == p[0][..3];
  }

  /**
    How child `c` of dotfiles directory `d` contributes `source`: as itself when it is not a
    placeholder, or, for an `in+` directory, through a path `p` from it to an entry below it
    that the filters keep.
  */
  ghost predicate ListedThrough(localPath: string, d: Node, c: Node, source: string) {
    (!IsPlaceholder(c.name) && source == d.name + "/" + c.name) ||
    (c.Dir? && StartsWith(c.name, InPlus) &&
     exists p :: |p| >= 2 && p[0] == c.name && Reaches(c.children, p[1..]) &&
                 !Skipped(FullPath(localPath, d.name, p), p) && source == d.name + "/" + Join(p, "/"))
  }

  /** The hash lists no other source: no placeholder, no filtered path, nothing from ordinary subdirectories. */
  lemma ScanSourceShape(localPath: string, top: seq<Node>, source: string)
    requires PlainNames(top)
    requires source in Scan(localPath, top)
    ensures exists d, c :: d in top && IsDotfilesDir(d) && c in d.children && ListedThrough(localPath, d, c, source)
  {
    ScanIsTargetMap(localPath, top);
    assert IsSource(localPath, top, source);
    var d :| d in top && IsDotfilesDir(d) && source in DirSources(localPath, d);
    if source in RootSources(d.name, d.children) {
      var c :| c in d.children && !IsPlaceholder(c.name) && source == d.name + "/" + c.name;
      assert ListedThrough(localPath, d, c, source);
    } else {
      InPlusSourceShape(localPath, d, source);
    }
  }

  lemma InPlusSourceShape(localPath: string, d: Node, source: string)
    requires d.Dir? && source in InPlusSources(localPath, d.name, InPlusPaths(d.children))
    ensures exists c :: c in d.children && ListedThrough(localPath, d, c, source)
  {
    var p :| p in InPlusPaths(d.children) && p != [] && !Skipped(FullPath(localPath, d.name, p), p)
             && source == d.name + "/" + Join(p, "/");
    InPlusPathsSpec(d.children, p);
    var i :| 0 <= i < |d.children| && d.children[i].Dir? && StartsWith(d.children[i].name, InPlus)
             && d.children[i].name == p[0] && Reaches(d.children[i].children, p[1..]);
    var c := d.children[i];
    assert ListedThrough(localPath, d, c, source);
    assert c in d.children;
  }

  // ---------------------------------------------------------------------------------------
  // symlinks: the scan overridden by dotty-symlinks.yml

  /**
    symlinks_from_yaml (lines 105-108): the parsed `dotty-symlinks.yml` of the repository,
    or `{}` when the file is missing or parses to nothing.
  */
  function SymlinksFromYaml(declared: Option<map<string, string>>): map<string, string> {
    declared.GetOr(map[])
  }

  /** symlinks (lines 101-103): the scanned links merged with the declared ones. */
  function Symlinks(localPath: string, top: seq<Node>, declared: Option<map<string, string>>): map<string, string> {
    Scan(localPath, top) + SymlinksFromYaml(declared)
  }

  /**
    A declared link wins over a scanned one for the same source; every other scanned source
    keeps its TargetOf; nothing else is linked, so with nothing declared and nothing
    scanned the hash is empty.
  */
  lemma SymlinksSpec(localPath: string, top: seq<Node>, declared: Option<map<string, string>>)
    requires PlainNames(top)
    ensures forall k :: k in Symlinks(localPath, top, declared) <==>
      k in SymlinksFromYaml(declared) || IsSource(localPath, top, k)
    ensures forall k :: k in SymlinksFromYaml(declared) ==>
      Symlinks(localPath, top, declared)[k] == SymlinksFromYaml(declared)[k]
    ensures forall k :: k !in SymlinksFromYaml(declared) && IsSource(localPath, top, k) ==>
      Symlinks(localPath, top, declared)[k] == TargetOf(k)
    ensures Symlinks(localPath, top, declared) == map[] <==>
      (declared.None? || declared.value == map[]) && forall k :: !IsSource(localPath, top, k)
  {
    ScanIsTargetMap(localPath, top);
    if Symlinks(localPath, top, declared) != map[] {
      var k :| k in Symlinks(localPath, top, declared);
    }
  }

  // ---------------------------------------------------------------------------------------
  // destination_path: where track_file moves a file inside the repository

  /** The directory components a tracked file is stored under: `.` skipped, the rest prefixed with `in+`. */
  function InPlusDirs(dirs: seq<string>): seq<string> {
    if dirs == [] then []
    else InPlusDirs(dirs[..|dirs| - 1]) + if dirs[|dirs| - 1] == "." then [] else [InPlus + dirs[|dirs| - 1]]
  }

  /** `Pathname#+` with one component: `.` changes nothing, `..` goes up one level. */
  function PlusComponent(p: Path, component: string): Path
    requires p != []
  {
    if component == "." then p
    else if component == ".." then p[..|p| - 1]
    else p + [component]
  }

  /** The components of a tracked file's destination below the repository's local path. */
  function Destination(file: Path): Path
    requires file != []
  {
    PlusComponent(["dotfiles"] + InPlusDirs(file[..|file| - 1]), Last(file))
  }

  /**
    destination_path (lines 188-195), `file` being the components of the home-relative
    file name: `dotfiles`, then each directory as `in+` + name, then the file name.
  */
  method DestinationPath(localPath: Path, file: Path) returns (final: Path)
    requires file != []
    ensures final == localPath + Destination(file)
  {
    final := localPath + ["dotfiles"];
    var dirs := file[..|file| - 1];
    for i := 0 to |dirs|
      invariant final == localPath + ["dotfiles"] + InPlusDirs(dirs[..i])
    {
      assert dirs[..i + 1][..i] == dirs[..i];
      if dirs[i] != "." {
        final := final + [InPlus + dirs[i]];
      }
    }
    assert dirs[..|dirs|] == dirs;
    var base := Last(file);
    if base == "." {
    } else if base == ".." {
      final := final[..|final| - 1];
    } else {
      final := final + [base];
    }
  }

  /** The tracked file's directories with the `.` components dropped. */
  function WithoutDots(dirs: seq<string>): seq<string> {
    if dirs == [] then []
    else WithoutDots(dirs[..|dirs| - 1]) + if dirs[|dirs| - 1] == "." then [] else [dirs[|dirs| - 1]]
  }

  lemma {:induction false} InPlusDirsSpec(dirs: seq<string>)
    ensures |InPlusDirs(dirs)| == |WithoutDots(dirs)|
    ensures forall i :: 0 <= i < |InPlusDirs(dirs)| ==> InPlusDirs(dirs)[i] == InPlus + WithoutDots(dirs)[i]
    decreases |dirs|
  {
    if dirs != [] {
      InPlusDirsSpec(dirs[..|dirs| - 1]);
    }
  }

  lemma RemoveInPlusPrefix(x: string)
    ensures RemoveInPlus(InPlus + x) == RemoveInPlus(x)
  {
    assert (InPlus + x)[..3] == InPlus;
    assert (InPlus + x)[3..] == x;
  }

  /**
    Removing `in+` from a destination gives back the tracked file's path (its `.`
    components dropped) when no component holds `in+`.
  */
  lemma DestinationRoundTrip(dirs: seq<string>, base: string)
    requires forall x :: x in dirs ==> !Contains(x, InPlus)
    requires !Contains(base, InPlus)
    ensures RemoveInPlus(Join(InPlusDirs(dirs) + [base], "/")) == Join(WithoutDots(dirs) + [base], "/")
  {
    var p := InPlusDirs(dirs) + [base];
    RemoveInPlusJoin(p);
    InPlusDirsSpec(dirs);
    WithoutDotsMembers(dirs);
    forall i | 0 <= i < |p| ensures RemoveInPlusEach(p)[i] == (WithoutDots(dirs) + [base])[i] {
      if i < |InPlusDirs(dirs)| {
        var x := WithoutDots(dirs)[i];
        assert x in dirs;
        RemoveInPlusPrefix(x);
        RemoveInPlusAbsent(x);
      } else {
        RemoveInPlusAbsent(base);
      }
    }
    assert RemoveInPlusEach(p) == WithoutDots(dirs) + [base];
  }

  lemma {:induction false} WithoutDotsMembers(dirs: seq<string>)
    ensures forall x :: x in WithoutDots(dirs) ==> x in dirs && x != "."
    decreases |dirs|
  {
    if dirs != [] {
      WithoutDotsMembers(dirs[..|dirs| - 1]);
      assert forall x :: x in dirs[..|dirs| - 1] ==> x in dirs;
    }
  }

  /**
    A file tracked into the `dotfiles` directory is linked back to where it came from: once
    the tree holds it at its destination, and the glob filters keep that path, the scan
    maps the destination to the file's home-relative path.
  */
  lemma TrackedFileIsLinked(localPath: string, top: seq<Node>, d: Node, dirs: seq<string>, base: string)
    requires PlainNames(top)
    requires d in top && d.Dir? && d.name == "dotfiles"
    requires forall x :: x in dirs ==> !Contains(x, InPlus)
    requires !Contains(base, InPlus) && base != "." && base != ".."
    requires Reaches(d.children, InPlusDirs(dirs) + [base])
    requires !Skipped(FullPath(localPath, "dotfiles", InPlusDirs(dirs) + [base]), InPlusDirs(dirs) + [base])
    ensures Destination(dirs + [base]) == ["dotfiles"] + InPlusDirs(dirs) + [base]
    ensures ("dotfiles/" + Join(InPlusDirs(dirs) + [base], "/")) in Scan(localPath, top)
    ensures Scan(localPath, top)["dotfiles/" + Join(InPlusDirs(dirs) + [base], "/")] == Join(WithoutDots(dirs) + [base], "/")
  {
    var p := InPlusDirs(dirs) + [base];
    assert (dirs + [base])[..|dirs|] == dirs;
    assert Last(p) == base;
    assert IsDotfilesDir(d) by {
      assert d.name[..1] == "d";
    }
    DestinationRoundTrip(dirs, base);
    InPlusDirsSpec(dirs);
    var i :| 0 <= i < |d.children| && d.children[i].name == p[0] &&
      (|p| == 1 || (d.children[i].Dir? && Reaches(d.children[i].children, p[1..])));
    if |p| == 1 {
      TrackedRootFileIsLinked(localPath, top, d, d.children[i], dirs, base);
    } else {
      TrackedNestedFileIsLinked(localPath, top, d, d.children[i], dirs, base);
    }
  }

  lemma TrackedRootFileIsLinked(localPath: string, top: seq<Node>, d: Node, c: Node, dirs: seq<string>, base: string)
    requires PlainNames(top)
    requires d in top && IsDotfilesDir(d) && d.name == "dotfiles" && c in d.children && c.name == base
    requires |InPlusDirs(dirs)| == |WithoutDots(dirs)| == 0
    requires !IsPlaceholder(base)
    ensures ("dotfiles/" + Join(InPlusDirs(dirs) + [base], "/")) in Scan(localPath, top)
    ensures Scan(localPath, top)["dotfiles/" + Join(InPlusDirs(dirs) + [base], "/")] == Join(WithoutDots(dirs) + [base], "/")
  {
    assert InPlusDirs(dirs) + [base] == [base];
    assert WithoutDots(dirs) + [base] == [base];
    DotfilesSlash(base);
    RootChildLinked(localPath, top, d, c);
  }

  /** The source key of an entry of the `dotfiles` directory. */
  lemma DotfilesSlash(rest: string)
    ensures "dotfiles" + "/" + rest == "dotfiles/" + rest
  {
    assert "dotfiles" + "/" == "dotfiles/";
  }

  lemma TrackedNestedFileIsLinked(localPath: string, top: seq<Node>, d: Node, c: Node, dirs: seq<string>, base: string)
    requires PlainNames(top)
    requires d in top && IsDotfilesDir(d) && d.name == "dotfiles" && c in d.children
    requires InPlusDirs(dirs) != [] && c.name == InPlusDirs(dirs)[0]
    requires c.Dir? && Reaches(c.children, (InPlusDirs(dirs) + [base])[1..])
    requires !Skipped(FullPath(localPath, "dotfiles", InPlusDirs(dirs) + [base]), InPlusDirs(dirs) + [base])
    requires RemoveInPlus(Join(InPlusDirs(dirs) + [base], "/")) == Join(WithoutDots(dirs) + [base], "/")
    ensures ("dotfiles/" + Join(InPlusDirs(dirs) + [base], "/")) in Scan(localPath, top)
    ensures Scan(localPath, top)["dotfiles/" + Join(InPlusDirs(dirs) + [base], "/")] == Join(WithoutDots(dirs) + [base], "/")
  {
    var p := InPlusDirs(dirs) + [base];
    assert StartsWith(c.name, InPlus) by {
      InPlusDirsSpec(dirs);
      assert c.name == InPlus + WithoutDots(dirs)[0];
    }
    assert |p| >= 2 && p[0] == c.name;
    InPlusEntryLinked(localPath, top, d, c, p);
    DotfilesSlash(Join(p, "/"));
    RemoveInPlusJoin(p);
  }
}
