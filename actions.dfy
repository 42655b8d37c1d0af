/**
  RepositoryActions (lib/dotty/repository_actions.rb) and the remove_symlink helper
  (lib/dotty/helpers.rb), over an abstract file system: a map from absolute paths,
  kept as components, to what is stored there. Shell commands are recorded as the
  command lines run, with the directory they run in; git and thor themselves are not
  modelled.
*/
module Actions {
  import opened Wrappers
  import opened Errors
  import opened Paths
  import opened Assoc

  datatype Entry = RegularFile | Directory | Symlink(target: Path)

  type FileSystem = map<Path, Entry>

  /** A command line run by `run`, in `dir` when it runs inside a directory. */
  datatype Command = Command(dir: Option<Path>, line: string)

  /** The number of symbolic links the system follows before it gives up (Linux's MAXSYMLINKS). */
  const MaxSymlinkHops: nat := 40

  predicate ExistsWithin(fs: FileSystem, p: Path, hops: nat)
    decreases hops
  {
    p in fs && (fs[p].Symlink? ==> hops > 0 && ExistsWithin(fs, fs[p].target, hops - 1))
  }

  /**
    `File.exist?`: the path names an entry once symbolic links are followed; a dangling
    link, or one in a loop, does not exist.
  */
  predicate Exists(fs: FileSystem, p: Path) {
    ExistsWithin(fs, p, MaxSymlinkHops)
  }

  /** `File.symlink?`: the entry itself is a link, wherever it points. */
  predicate IsSymlink(fs: FileSystem, p: Path) {
    p in fs && fs[p].Symlink?
  }

  /** A link that points at something that exists. */
  predicate LiveLink(fs: FileSystem, p: Path) {
    IsSymlink(fs, p) && Exists(fs, p)
  }

  /** Every entry of `small` is in `big`, unchanged. */
  predicate SubMap(small: FileSystem, big: FileSystem) {
    forall q :: q in small ==> q in big && big[q] == small[q]
  }

  // ---------------------------------------------------------------------------------------
  // remove_symlink (lib/dotty/helpers.rb)

  /** The file system after `remove_symlink(path)`. */
  function AfterRemoveSymlink(fs: FileSystem, path: Path): FileSystem {
    if Exists(fs, path) && IsSymlink(fs, path) then fs - {path} else fs
  }

  /** What `remove_symlink(path)` reports through say_status. */
  function RemoveSymlinkStatus(fs: FileSystem, path: Path): seq<(string, string)> {
    if !Exists(fs, path) then []
    else if IsSymlink(fs, path) then [("remove", Absolute(path))]
    else [("remove", Absolute(path)), ("error", Absolute(path) + " is not a symlink - not removing")]
  }

  /** Removing entries never makes a path exist. */
  lemma {:induction false} ExistsWithinSubMap(small: FileSystem, big: FileSystem, p: Path, hops: nat)
    requires SubMap(small, big) && ExistsWithin(small, p, hops)
    ensures ExistsWithin(big, p, hops)
    decreases hops
  {
    if small[p].Symlink? {
      ExistsWithinSubMap(small, big, small[p].target, hops - 1);
    }
  }

  /**
    remove_symlink deletes the path exactly when it is a link to something that exists;
    a missing path, a dangling link and anything that is not a link stay; no other
    path is touched. Afterwards the path is not a live link, and a second call changes
    nothing.
  */
  lemma RemoveSymlinkSpec(fs: FileSystem, path: Path)
    ensures SubMap(AfterRemoveSymlink(fs, path), fs)
    ensures forall q :: q in fs && q != path ==> q in AfterRemoveSymlink(fs, path)
    ensures path !in AfterRemoveSymlink(fs, path) <==> path !in fs || LiveLink(fs, path)
    ensures !LiveLink(AfterRemoveSymlink(fs, path), path)
    ensures AfterRemoveSymlink(AfterRemoveSymlink(fs, path), path) == AfterRemoveSymlink(fs, path)
  {
    var after := AfterRemoveSymlink(fs, path);
    if LiveLink(after, path) {
      ExistsWithinSubMap(after, fs, path, MaxSymlinkHops);
    }
  }

  /** A dangling link is left in place, because File.exist? follows it and finds nothing. */
  lemma DanglingSymlinkKept(fs: FileSystem, path: Path, target: Path)
    requires path in fs && fs[path] == Symlink(target) && target !in fs
    ensures AfterRemoveSymlink(fs, path) == fs
    ensures RemoveSymlinkStatus(fs, path) == []
  {
    assert !ExistsWithin(fs, target, MaxSymlinkHops - 1);
  }

  /** Something that is not a link is never removed, and the error is reported. */
  lemma NonSymlinkKept(fs: FileSystem, path: Path)
    requires path in fs && !fs[path].Symlink?
    ensures AfterRemoveSymlink(fs, path) == fs
    ensures RemoveSymlinkStatus(fs, path) ==
      [("remove", Absolute(path)), ("error", Absolute(path) + " is not a symlink - not removing")]
  {
  }

  // ---------------------------------------------------------------------------------------
  // Links of a repository

  /** `File.join(USER_HOME, destination_filename)` */
  function LinkPath(home: Path, destination: string): Path {
    home + SplitOn(destination, '/')
  }

  /** `File.join(repo.local_path, source)` */
  function TargetPath(localPath: Path, source: string): Path {
    localPath + SplitOn(source, '/')
  }

  /** `mkdir_p` of `path[..k]`: each missing leading part of the path becomes a directory. */
  function WithDirs(fs: FileSystem, path: Path, k: nat): FileSystem
    requires k <= |path|
    decreases k
  {
    if k == 0 then fs
    else
      var before := WithDirs(fs, path, k - 1);
      if path[..k] in before then before else before[path[..k] := Directory]
  }

  /** Thor's `create_link(link, target)`: the parent directories, then the link in place of whatever was there. */
  function Linked(fs: FileSystem, link: Path, target: Path): FileSystem
    requires link != []
  {
    WithDirs(fs, link, |link| - 1)[link := Symlink(target)]
  }

  /** mkdir_p adds directories and keeps every existing entry. */
  lemma {:induction false} WithDirsSpec(fs: FileSystem, path: Path, k: nat)
    requires k <= |path|
    ensures SubMap(fs, WithDirs(fs, path, k))
    ensures forall j :: 1 <= j <= k ==> path[..j] in WithDirs(fs, path, k)
    ensures forall q :: q in WithDirs(fs, path, k) && q !in fs ==>
      WithDirs(fs, path, k)[q] == Directory && exists j :: 1 <= j <= k && q == path[..j]
    decreases k
  {
    if k > 0 {
      WithDirsSpec(fs, path, k - 1);
    }
  }

  /** The path is the destination of some entry. */
  predicate IsDestination(home: Path, links: Assoc<string, string>, q: Path) {
    exists j :: 0 <= j < |links| && q == LinkPath(home, links[j].1)
  }

  /**
    create_link puts the link in place with every directory above it, and keeps every other
    entry as it was.
  */
  lemma LinkedSpec(fs: FileSystem, link: Path, target: Path)
    requires link != []
    ensures link in Linked(fs, link, target) && Linked(fs, link, target)[link] == Symlink(target)
    ensures forall k :: 1 <= k < |link| ==> link[..k] in Linked(fs, link, target)
    ensures forall q :: q in fs ==> q in Linked(fs, link, target)
    ensures forall q :: q in fs && q != link ==> Linked(fs, link, target)[q] == fs[q]
  {
    WithDirsSpec(fs, link, |link| - 1);
  }

  /** The file system after the links of `links` (source => destination) are created in order. */
  function BootstrapFs(fs: FileSystem, home: Path, localPath: Path, links: Assoc<string, string>): FileSystem {
    if links == [] then fs
    else
      var last := links[|links| - 1];
      Linked(BootstrapFs(fs, home, localPath, links[..|links| - 1]), LinkPath(home, last.1), TargetPath(localPath, last.0))
  }

  /** One more link on top of the ones before it. */
  lemma BootstrapFsStep(fs: FileSystem, home: Path, localPath: Path, links: Assoc<string, string>, i: nat)
    requires i < |links|
    ensures BootstrapFs(fs, home, localPath, links[..i + 1]) ==
      Linked(BootstrapFs(fs, home, localPath, links[..i]), LinkPath(home, links[i].1), TargetPath(localPath, links[i].0))
  {
    assert links[..i + 1][..i] == links[..i];
  }

  /** The destination of the entry is a link to its source, with every directory above it. */
  predicate LinkedEntry(fs: FileSystem, home: Path, localPath: Path, entry: (string, string)) {
    var link := LinkPath(home, entry.1);
    link in fs && fs[link] == Symlink(TargetPath(localPath, entry.0)) &&
    forall k :: 1 <= k < |link| ==> link[..k] in fs
  }

  /**
    After bootstrap, the destination of each entry that no later entry overrides is a link
    to the entry's source in the repository, and every directory above it exists.
  */
  lemma {:induction false} BootstrapLinks(fs: FileSystem, home: Path, localPath: Path, links: Assoc<string, string>, i: nat)
    requires i < |links|
    requires forall j :: i < j < |links| ==> LinkPath(home, links[j].1) != LinkPath(home, links[i].1)
    ensures LinkedEntry(BootstrapFs(fs, home, localPath, links), home, localPath, links[i])
    decreases |links|
  {
    var n := |links| - 1;
    var init := links[..n];
    var before := BootstrapFs(fs, home, localPath, init);
    LinkedSpec(before, LinkPath(home, links[n].1), TargetPath(localPath, links[n].0));
    if i < n {
      assert init[i] == links[i];
      BootstrapLinks(fs, home, localPath, init, i);
    }
  }

  /** Bootstrap keeps every entry that is not a destination, and removes nothing. */
  lemma {:induction false} BootstrapKeeps(fs: FileSystem, home: Path, localPath: Path, links: Assoc<string, string>)
    ensures forall q :: q in fs ==> q in BootstrapFs(fs, home, localPath, links)
    ensures forall q :: q in fs && !IsDestination(home, links, q) ==> BootstrapFs(fs, home, localPath, links)[q] == fs[q]
    decreases |links|
  {
    if links != [] {
      var n := |links| - 1;
      var before := BootstrapFs(fs, home, localPath, links[..n]);
      BootstrapKeeps(fs, home, localPath, links[..n]);
      LinkedSpec(before, LinkPath(home, links[n].1), TargetPath(localPath, links[n].0));
      forall q | IsDestination(home, links[..n], q) ensures IsDestination(home, links, q) {
        var j :| 0 <= j < n && q == LinkPath(home, links[..n][j].1);
        assert links[..n][j] == links[j];
      }
    }
  }

  /** The file system after remove_symlink on the destination of every entry, in order. */
  function ImplodeFs(fs: FileSystem, home: Path, links: Assoc<string, string>): FileSystem {
    if links == [] then fs
    else AfterRemoveSymlink(ImplodeFs(fs, home, links[..|links| - 1]), LinkPath(home, links[|links| - 1].1))
  }

  lemma ImplodeFsStep(fs: FileSystem, home: Path, links: Assoc<string, string>, i: nat)
    requires i < |links|
    ensures ImplodeFs(fs, home, links[..i + 1]) == AfterRemoveSymlink(ImplodeFs(fs, home, links[..i]), LinkPath(home, links[i].1))
  {
    assert links[..i + 1][..i] == links[..i];
  }

  /**
    implode only removes, and only links at destinations; afterwards no destination is a
    link to something that exists.
  */
  lemma {:induction false} ImplodeSpec(fs: FileSystem, home: Path, links: Assoc<string, string>)
    ensures SubMap(ImplodeFs(fs, home, links), fs)
    ensures forall q :: q in fs && q !in ImplodeFs(fs, home, links) ==> fs[q].Symlink? && IsDestination(home, links, q)
    ensures forall j :: 0 <= j < |links| ==> !LiveLink(ImplodeFs(fs, home, links), LinkPath(home, links[j].1))
    decreases |links|
  {
    if links != [] {
      var n := |links| - 1;
      var init := links[..n];
      var before := ImplodeFs(fs, home, init);
      var after := ImplodeFs(fs, home, links);
      ImplodeSpec(fs, home, init);
      RemoveSymlinkSpec(before, LinkPath(home, links[n].1));
      forall q | q in fs && q !in after ensures fs[q].Symlink? && IsDestination(home, links, q) {
        if q in before {
          assert q == LinkPath(home, links[n].1);
        } else {
          var j :| 0 <= j < |init| && q == LinkPath(home, init[j].1);
          assert init[j] == links[j];
        }
      }
      forall j | 0 <= j < |links| ensures !LiveLink(after, LinkPath(home, links[j].1)) {
        var p := LinkPath(home, links[j].1);
        if j < n && LiveLink(after, p) {
          assert init[j] == links[j];
          ExistsWithinSubMap(after, before, p, MaxSymlinkHops);
          assert LiveLink(before, p);
        }
      }
    }
  }

  /** `FileUtils.rm_rf(path)`: the path and everything below it are gone. */
  function RemoveTree(fs: FileSystem, path: Path): (after: FileSystem)
    ensures SubMap(after, fs)
    ensures forall q :: q in fs ==> (q in after <==> !(path <= q))
  {
    map q | q in fs && !(path <= q) :: fs[q]
  }

  // ---------------------------------------------------------------------------------------
  // update_submodules

  datatype SubmoduleOptions = SubmoduleOptions(ignoreDirty: bool, commitMessage: string, commit: bool, push: bool)

  /** The method options' defaults: no ignoredirty, message 'Updated submodules', commit and push. */
  const DefaultSubmoduleOptions := SubmoduleOptions(false, "Updated submodules", true, true)

  const SubmoduleInit := "git submodule update --init"
  const SubmodulePull := "git submodule foreach git pull origin master"
  const Push := "git push"

  /** The repository's own thor tasks, run when it has a `dotty-repository.thor`. */
  const BootstrapHook := "thor dotty_repository:bootstrap"
  const ImplodeHook := "thor dotty_repository:implode"

  function CommitCommand(message: string): string {
    "git commit -am '" + message + "'"
  }

  /** `[nil, ""].include?(changes)`: `git status -s` reported nothing. */
  predicate Clean(changes: Option<string>) {
    changes == None || changes == Some("")
  }

  /** The parts of the command update_submodules runs, or the error it raises. */
  function SubmoduleCommands(name: string, opts: SubmoduleOptions, changes: Option<string>): Result<seq<string>, Error> {
    if !opts.commit then Success([SubmoduleInit, SubmodulePull])
    else if !(opts.ignoreDirty || Clean(changes)) then Failure(DottyError(DirtyRepositoryMessage(name)))
    else Success([SubmoduleInit, SubmodulePull, CommitCommand(opts.commitMessage)] + (if opts.push then [Push] else []))
  }

  /**
    The command always starts with the submodule update and pull; it commits exactly when
    commit is set (and then only on a clean status or with ignoredirty, raising otherwise);
    it pushes exactly when both commit and push are set.
  */
  lemma SubmoduleCommandsSpec(name: string, opts: SubmoduleOptions, changes: Option<string>)
    ensures SubmoduleCommands(name, opts, changes).Failure? <==> opts.commit && !opts.ignoreDirty && !Clean(changes)
    ensures SubmoduleCommands(name, opts, changes).Failure? ==>
      SubmoduleCommands(name, opts, changes).error == DottyError(DirtyRepositoryMessage(name))
    ensures SubmoduleCommands(name, opts, changes).Success? ==>
      (var cmd := SubmoduleCommands(name, opts, changes).value;
       |cmd| >= 2 && cmd[0] == SubmoduleInit && cmd[1] == SubmodulePull &&
       (CommitCommand(opts.commitMessage) in cmd <==> opts.commit) &&
       (Push in cmd <==> opts.commit && opts.push))
  {
    if SubmoduleCommands(name, opts, changes).Success? {
      var cmd := SubmoduleCommands(name, opts, changes).value;
      assert SubmoduleInit[4] != CommitCommand(opts.commitMessage)[4];
      assert SubmodulePull[4] != CommitCommand(opts.commitMessage)[4];
      assert SubmoduleInit[4] != Push[4] && SubmodulePull[4] != Push[4];
      assert CommitCommand(opts.commitMessage)[4] != Push[4];
    }
  }

  /** With the default message, commit and no push, on a clean repository (repository_actions_spec.rb:156-161). */
  lemma DefaultSubmoduleCommandLine(name: string)
    ensures SubmoduleCommands(name, DefaultSubmoduleOptions.(push := false), Some("")).Success?
    ensures Join(SubmoduleCommands(name, DefaultSubmoduleOptions.(push := false), Some("")).value, " && ") ==
      SubmoduleInit + " && " + SubmodulePull + " && " + CommitCommand("Updated submodules")
  {
    var cmd := [SubmoduleInit, SubmodulePull, CommitCommand("Updated submodules")];
    assert SubmoduleCommands(name, DefaultSubmoduleOptions.(push := false), Some("")).value == cmd;
    assert cmd[1..] == [SubmodulePull, CommitCommand("Updated submodules")];
    assert Join(cmd[1..], " && ") == SubmodulePull + " && " + CommitCommand("Updated submodules");
  }

  // ---------------------------------------------------------------------------------------
  // The actions, run in place

  class Machine {
    /** The file system. */
    var fs: FileSystem
    /** Every command run so far, in order. */
    var runs: seq<Command>
    /** Every say_status call in dotty's own code so far: the status word and its text. */
    var statuses: seq<(string, string)>
    /** `USER_HOME` */
    const home: Path

    constructor(home: Path, fs: FileSystem)
      ensures this.home == home && this.fs == fs && runs == [] && statuses == []
    {
      this.home := home;
      this.fs := fs;
      runs := [];
      statuses := [];
    }

    /** `remove_symlink(path)` */
    method RemoveSymlink(path: Path)
      modifies this
      ensures fs == AfterRemoveSymlink(old(fs), path)
      ensures statuses == old(statuses) + RemoveSymlinkStatus(old(fs), path)
      ensures runs == old(runs)
    {
      if Exists(fs, path) {
        statuses := statuses + [("remove", Absolute(path))];
        if IsSymlink(fs, path) {
          fs := fs - {path};
        } else {
          statuses := statuses + [("error", Absolute(path) + " is not a symlink - not removing")];
        }
      }
    }

    /** `FileUtils.mkdir_p(path)`: one leading part of the path after another. */
    method MakeDirs(path: Path, k: nat)
      requires k <= |path|
      modifies this
      ensures fs == WithDirs(old(fs), path, k)
      ensures runs == old(runs) && statuses == old(statuses)
    {
      var j := 0;
      while j < k
        invariant 0 <= j <= k
        invariant fs == WithDirs(old(fs), path, j)
        invariant runs == old(runs) && statuses == old(statuses)
      {
        j := j + 1;
        if path[..j] !in fs {
          fs := fs[path[..j] := Directory];
        }
      }
    }

    /** Thor's `create_link(link, target)`, taking over the destination as a forced conflict does. */
    method CreateLink(link: Path, target: Path)
      requires link != []
      modifies this
      ensures fs == Linked(old(fs), link, target)
      ensures runs == old(runs) && statuses == old(statuses)
    {
      MakeDirs(link, |link| - 1);
      fs := fs[link := Symlink(target)];
    }

    /** Runs the repository's own thor task when `dotty-repository.thor` exists in it. */
    method RunHook(localPath: Path, line: string)
      modifies this
      ensures fs == old(fs) && statuses == old(statuses)
      ensures runs == old(runs) +
        if Exists(old(fs), localPath + ["dotty-repository.thor"])
        then [Command(Some(localPath), line)] else []
    {
      if Exists(fs, localPath + ["dotty-repository.thor"]) {
        runs := runs + [Command(Some(localPath), line)];
      }
    }

    /**
      `bootstrap(repo)`: a link for every entry of `repo.symlinks` (source => destination),
      then the repository's bootstrap task when it has one.
    */
    method Bootstrap(name: string, localPath: Path, links: Assoc<string, string>)
      modifies this
      ensures fs == BootstrapFs(old(fs), home, localPath, links)
      ensures statuses == old(statuses) + [("bootstrap", name)]
      ensures runs == old(runs) +
        if Exists(fs, localPath + ["dotty-repository.thor"])
        then [Command(Some(localPath), BootstrapHook)] else []
    {
      statuses := statuses + [("bootstrap", name)];
      var i := 0;
      while i < |links|
        invariant 0 <= i <= |links|
        invariant fs == BootstrapFs(old(fs), home, localPath, links[..i])
        invariant statuses == old(statuses) + [("bootstrap", name)] && runs == old(runs)
      {
        BootstrapFsStep(old(fs), home, localPath, links, i);
        CreateLink(LinkPath(home, links[i].1), TargetPath(localPath, links[i].0));
        i := i + 1;
      }
      assert links[..i] == links;
      RunHook(localPath, BootstrapHook);
    }

    /**
      `implode(repo)`: remove_symlink on the destination of every entry of `repo.symlinks`,
      then the repository's implode task when it has one.
    */
    method Implode(name: string, localPath: Path, links: Assoc<string, string>)
      modifies this
      ensures fs == ImplodeFs(old(fs), home, links)
      ensures runs == old(runs) +
        if Exists(fs, localPath + ["dotty-repository.thor"])
        then [Command(Some(localPath), ImplodeHook)] else []
    {
      statuses := statuses + [("implode", name)];
      var i := 0;
      while i < |links|
        invariant 0 <= i <= |links|
        invariant fs == ImplodeFs(old(fs), home, links[..i])
        invariant runs == old(runs)
      {
        ImplodeFsStep(old(fs), home, links, i);
        RemoveSymlink(LinkPath(home, links[i].1));
        i := i + 1;
      }
      assert links[..i] == links;
      RunHook(localPath, ImplodeHook);
    }

    /** `destroy(repo)`: implode, then remove the repository's directory and everything in it. */
    method Destroy(name: string, localPath: Path, links: Assoc<string, string>)
      modifies this
      ensures fs == RemoveTree(ImplodeFs(old(fs), home, links), localPath)
      ensures runs == old(runs) +
        if Exists(ImplodeFs(old(fs), home, links), localPath + ["dotty-repository.thor"])
        then [Command(Some(localPath), ImplodeHook)] else []
    {
      statuses := statuses + [("remove repo", name)];
      Implode(name, localPath, links);
      statuses := statuses + [("remove", Absolute(localPath))];
      fs := RemoveTree(fs, localPath);
    }

    /** `checkout(repo)`: make the directory, clone into it, then fetch its submodules inside it. */
    method Checkout(name: string, url: string, localPath: Path)
      modifies this
      ensures fs == WithDirs(old(fs), localPath, |localPath|)
      ensures runs == old(runs) + [Command(None, "git clone " + url + " " + Absolute(localPath)),
                                   Command(Some(localPath), SubmoduleInit)]
      ensures statuses == old(statuses) + [("add repo", name + " => " + url)]
    {
      statuses := statuses + [("add repo", name + " => " + url)];
      MakeDirs(localPath, |localPath|);
      runs := runs + [Command(None, "git clone " + url + " " + Absolute(localPath))];
      runs := runs + [Command(Some(localPath), SubmoduleInit)];
    }

    /** `create(repo)`: make the directory, `git init` it, then add the remote inside it. */
    method Create(name: string, url: string, localPath: Path)
      modifies this
      ensures fs == WithDirs(old(fs), localPath, |localPath|)
      ensures runs == old(runs) + [Command(None, "git init " + Absolute(localPath)),
                                   Command(Some(localPath), "git remote add origin " + url)]
      ensures statuses == old(statuses) + [("create repo", name + " [" + url + "]")]
    {
      statuses := statuses + [("create repo", name + " [" + url + "]")];
      MakeDirs(localPath, |localPath|);
      runs := runs + [Command(None, "git init " + Absolute(localPath))];
      runs := runs + [Command(Some(localPath), "git remote add origin " + url)];
    }

    /**
      `update(repo)`: Thor's `inside` makes the repository's directory when it is missing,
      then the fetch and pull run in it.
    */
    method Update(name: string, localPath: Path)
      modifies this
      ensures fs == WithDirs(old(fs), localPath, |localPath|)
      ensures runs == old(runs) + [Command(Some(localPath), "git fetch && git pull && git submodule update --init")]
      ensures statuses == old(statuses) + [("update", name)]
    {
      statuses := statuses + [("update", name)];
      MakeDirs(localPath, |localPath|);
      runs := runs + [Command(Some(localPath), "git fetch && git pull && git submodule update --init")];
    }

    /**
      `update_submodules(repo)`: build the command part by part; with commit set, first
      capture `git status -s`, whose output is `changes`. All of it runs `inside` the
      repository's directory, which Thor makes first when it is missing.
    */
    method UpdateSubmodules(name: string, localPath: Path, opts: SubmoduleOptions, changes: Option<string>)
      returns (r: Result<(), Error>)
      modifies this
      ensures fs == WithDirs(old(fs), localPath, |localPath|) && statuses == old(statuses)
      ensures r.Success? <==> SubmoduleCommands(name, opts, changes).Success?
      ensures r.Failure? ==> r.error == SubmoduleCommands(name, opts, changes).error
      ensures runs == old(runs) +
        (if opts.commit then [Command(Some(localPath), "git status -s")] else []) +
        (if r.Success? then [Command(Some(localPath), Join(SubmoduleCommands(name, opts, changes).value, " && "))] else [])
    {
      MakeDirs(localPath, |localPath|);
      var cmd: seq<string> := [];
      cmd := cmd + [SubmoduleInit];
      cmd := cmd + [SubmodulePull];
      if opts.commit {
        runs := runs + [Command(Some(localPath), "git status -s")];
        if opts.ignoreDirty || Clean(changes) {
          cmd := cmd + [CommitCommand(opts.commitMessage)];
        } else {
          return Failure(DottyError(DirtyRepositoryMessage(name)));
        }
        if opts.push {
          cmd := cmd + [Push];
        }
      }
      assert cmd == SubmoduleCommands(name, opts, changes).value;
      runs := runs + [Command(Some(localPath), Join(cmd, " && "))];
      r := Success(());
    }
  }
}
