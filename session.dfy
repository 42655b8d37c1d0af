/**
  What the class methods of Profile (lib/dotty/profile.rb) and Repository
  (lib/dotty/repository.rb) do to their shared class-level state, as functions from one
  state to the next. Every call returns its result (or the error it raises) together
  with the state it leaves behind; the Registry.Store class runs the same steps in place.
*/
module Session {
  import opened Wrappers
  import opened Errors
  import opened Assoc
  import opened Repository
  import opened Profiles

  /**
    The stored `.profiles.yml` (None when the file does not exist) and the three lazily
    filled caches `@profile_data`, `@current_profile` and `@repositories`.
  */
  datatype State = State(file: Option<Doc>, data: Option<Doc>, current: Option<string>, repos: Option<seq<Repo>>)

  /** What a call returns, or raises, and the state it leaves behind. */
  datatype Outcome<+T> = Outcome(result: Result<T, Error>, state: State)

  /** A new process: the stored file is kept, every cache starts empty. */
  function Restarted(st: State): State {
    State(st.file, None, None, None)
  }

  /** Every document is a well-formed YAML document; the cached list has distinct, valid names. */
  predicate Inv(st: State) {
    (st.file.Some? ==> DocOk(st.file.value)) &&
    (st.data.Some? ==> DocOk(st.data.value)) &&
    (st.repos.Some? ==> UniqueNames(st.repos.value) && ValidNames(st.repos.value))
  }

  /** `profile_data`: the cache, else the stored document, else `{ 'profiles' => {} }`. */
  function Data(st: State): Doc {
    st.data.GetOr(st.file.GetOr(EmptyDoc))
  }

  /** `current_profile`: the cache, else the stored current profile, the first profile or 'default'. */
  function Profile(st: State): string {
    st.current.GetOr(FallbackProfile(Data(st)))
  }

  /** The state after `profile_data` has been evaluated. */
  function WithData(st: State): State {
    st.(data := Some(Data(st)))
  }

  /** The state after `current_profile` has been evaluated: it reads `profile_data` only when nothing is cached. */
  function WithProfile(st: State): State {
    if st.current.Some? then st else st.(data := Some(Data(st)), current := Some(Profile(st)))
  }

  /** The state after `current_profile_data` has been evaluated: both caches are filled. */
  function Ready(st: State): State {
    st.(data := Some(Data(st)), current := Some(Profile(st)))
  }

  /** `current_profile_data`: the active profile's section, or a fresh `{}`. */
  function Active(st: State): Section {
    SectionOf(Data(st), Profile(st))
  }

  /** What `list` returns: the cached list, else the active section's repositories. */
  function Listing(st: State): Result<seq<Repo>, Error> {
    if st.repos.Some? then Success(st.repos.value) else ParseRepos(ReposOf(Active(st)))
  }

  /** What `current_target` returns: the stored target, else the default target of the list. */
  function Target(st: State): (r: Result<string, Error>)
    ensures Listing(st).Success? ==> r.Success?
  {
    match Active(st).currentTarget
    case Some(t) => Success(t)
    case None =>
      match Listing(st)
      case Success(list) => Success(DefaultTarget(list))
      case Failure(e) => Failure(e)
  }

  /**
    `b` only fills caches of `a`: the stored file, the profile data, the profile, the list
    and every cache that was already filled are the same.
  */
  predicate Unmoved(a: State, b: State) {
    b.file == a.file && Data(b) == Data(a) && Profile(b) == Profile(a) && Listing(b) == Listing(a) &&
    (a.data.Some? ==> b.data == a.data) && (a.current.Some? ==> b.current == a.current) &&
    (a.repos.Some? ==> b.repos == a.repos)
  }

  /**
    Memory and disk agree: the stored document is the cached one, it names the cached
    profile as current, and that profile's section lists the cached repositories.
  */
  predicate Synchronized(st: State) {
    st.file.Some? && st.data == st.file && st.current.Some? && st.repos.Some? &&
    st.file.value.currentProfile == st.current &&
    SectionOf(st.file.value, st.current.value).repositories == Some(SerializeRepos(st.repos.value))
  }

  // ---------------------------------------------------------------------------------------
  // Repository's class methods that only read

  /** `list`: the cached list, else the active section's repositories, which is then cached. */
  function ListOp(st: State): (o: Outcome<seq<Repo>>)
    ensures Unmoved(st, o.state)
    ensures o.result.Success? ==> o.state.repos == Some(o.result.value)
    ensures o.result == Listing(st)
  {
    if st.repos.Some? then Outcome(Success(st.repos.value), st)
    else
      match ParseRepos(ReposOf(Active(st)))
      case Success(list) => Outcome(Success(list), Ready(st).(repos := Some(list)))
      case Failure(e) => Outcome(Failure(e), Ready(st))
  }

  /** `find(name)` */
  function FindOp(st: State, name: string): (o: Outcome<Option<Repo>>)
    ensures Unmoved(st, o.state)
    ensures o.result.Success? <==> Listing(st).Success?
    ensures o.result.Success? ==>
      (o.state.repos == Some(Listing(st).value) && (o.result.value.Some? <==> Listed(Listing(st).value, name)))
  {
    var l := ListOp(st);
    match l.result
    case Success(list) => Outcome(Success(FindRepo(list, name)), l.state)
    case Failure(e) => Outcome(Failure(e), l.state)
  }

  /** `default_target` */
  function DefaultTargetOp(st: State): (o: Outcome<string>)
    ensures Unmoved(st, o.state)
    ensures o.result.Success? <==> Listing(st).Success?
    ensures o.result.Success? ==>
      (o.state.repos == Some(Listing(st).value) && TargetAllowed(Listing(st).value, o.result.value))
  {
    var l := ListOp(st);
    match l.result
    case Success(list) =>
      DefaultTargetAllowed(list);
      Outcome(Success(DefaultTarget(list)), l.state)
    case Failure(e) => Outcome(Failure(e), l.state)
  }

  /**
    `current_target`: the section's stored target, else the default target. A stored ''
    is kept, since only nil is false in Ruby, so the trailing `|| ''` never applies.
  */
  function CurrentTargetOp(st: State): (o: Outcome<string>)
    ensures Unmoved(st, o.state)
    ensures o.state.current == Some(Profile(st))
    ensures o.result == Target(st)
  {
    match Active(st).currentTarget
    case Some(t) => Outcome(Success(t), Ready(st))
    case None => DefaultTargetOp(Ready(st))
  }

  // ---------------------------------------------------------------------------------------
  // Profile.write_yaml

  /**
    `write_yaml`: store the current profile, touch its section, read the current target
    and the list (either may raise), merge both into the section and write the document.
  */
  function WriteYamlOp(st: State): (o: Outcome<()>)
    ensures o.state.current == Some(Profile(st))
    ensures st.repos.Some? ==> o.state.repos == st.repos
    ensures o.result.Success? ==> o.state.file == o.state.data
  {
    var p := Profile(st);
    var touched := Touched(Data(st), p);
    var t := CurrentTargetOp(Ready(st).(data := Some(touched)));
    match t.result
    case Failure(e) => Outcome(Failure(e), t.state)
    case Success(target) =>
      var l := ListOp(t.state);
      match l.result
      case Failure(e) => Outcome(Failure(e), l.state)
      case Success(list) =>
        var written := Synced(Data(st), p, target, list);
        Outcome(Success(()), l.state.(data := Some(written), file := Some(written)))
  }

  // ---------------------------------------------------------------------------------------
  // Repository's class methods that change the state

  /**
    `current_target = val`: unless `val` is '' or names a listed repository, raise;
    otherwise assign it in the active section (lost when there is none) and write.
  */
  function SetCurrentTargetOp(st: State, val: string): (o: Outcome<()>)
    ensures st.repos.Some? ==> o.state.repos == st.repos
  {
    var f := FindOp(st, val);
    if val != "" && f.result.Failure? then Outcome(Failure(f.result.error), f.state)
    else if val != "" && f.result.value.None? then
      Outcome(Failure(InvalidRepositoryNameError(NotChangingTargetMessage)), f.state)
    else
      AssignAndWrite(if val == "" then st else f.state, val)
  }

  /** The assignment into the active section, then `write_yaml`. */
  function AssignAndWrite(st: State, val: string): Outcome<()> {
    WriteYamlOp(Ready(st).(data := Some(AssignTarget(Data(st), Profile(st), val))))
  }

  /** `reset_current_target`: when the current target names no repository, set the default one. */
  function ResetCurrentTargetOp(st: State): (o: Outcome<()>)
    ensures st.repos.Some? ==> o.state.repos == st.repos
  {
    var t := CurrentTargetOp(st);
    match t.result
    case Failure(e) => Outcome(Failure(e), t.state)
    case Success(target) =>
      var f := FindOp(t.state, target);
      match f.result
      case Failure(e) => Outcome(Failure(e), f.state)
      case Success(found) =>
        if found.Some? then Outcome(Success(()), f.state)
        else
          var d := DefaultTargetOp(f.state);
          match d.result
          case Failure(e) => Outcome(Failure(e), d.state)
          case Success(default) => SetCurrentTargetOp(d.state, default)
  }

  /**
    `add_repository(name, url)`: raise if the name is listed or invalid; otherwise append
    the repository to the cached list, write, and reset the current target.
  */
  function AddRepositoryOp(st: State, name: string, url: string): Outcome<Repo> {
    var f := FindOp(st, name);
    match f.result
    case Failure(e) => Outcome(Failure(e), f.state)
    case Success(found) =>
      if found.Some? then Outcome(Failure(DottyError(AlreadyExistsMessage)), f.state)
      else
        match NewRepository(name, url)
        case Failure(e) => Outcome(Failure(e), f.state)
        case Success(repo) => SaveAdded(f.state, repo)
  }

  /** The end of `add_repository`: `list << repo`, `write_yaml`, `reset_current_target`. */
  function SaveAdded(st: State, repo: Repo): Outcome<Repo>
    requires st.repos.Some?
  {
    var w := WriteYamlOp(st.(repos := Some(st.repos.value + [repo])));
    match w.result
    case Failure(e) => Outcome(Failure(e), w.state)
    case Success(_) =>
      var r := ResetCurrentTargetOp(w.state);
      match r.result
      case Failure(e) => Outcome(Failure(e), r.state)
      case Success(_) => Outcome(Success(repo), r.state)
  }

  /**
    The registry half of Repository#destroy: `Repository.repositories.reject!` needs the
    list to be cached already (it is nil otherwise), then write.
  */
  function DestroyOp(st: State, name: string): Outcome<()>
    requires st.repos.Some?
  {
    WriteYamlOp(st.(repos := Some(Reject(st.repos.value, name))))
  }

  /** One step of `import` per entry: skip a listed name, add the others; stop at the first error. */
  function ImportEach(st: State, entries: Assoc<string, string>): Outcome<()>
    decreases |entries|
  {
    if entries == [] then Outcome(Success(()), st)
    else
      var f := FindOp(st, entries[0].0);
      match f.result
      case Failure(e) => Outcome(Failure(e), f.state)
      case Success(found) =>
        if found.Some? then ImportEach(f.state, entries[1..])
        else
          var a := AddRepositoryOp(f.state, entries[0].0, entries[0].1);
          match a.result
          case Failure(e) => Outcome(Failure(e), a.state)
          case Success(_) => ImportEach(a.state, entries[1..])
  }

  /**
    `import(location)` with the YAML at `location` already parsed into `entries`
    (name => url): nothing to import fails on the call of `error`; otherwise each entry in turn.
  */
  function ImportOp(st: State, location: string, entries: Assoc<string, string>): Outcome<()> {
    if entries == [] then Outcome(Failure(UndefinedErrorHelper(NothingToImportMessage(location))), st)
    else ImportEach(st, entries)
  }

  // ---------------------------------------------------------------------------------------
  // Profile's class methods that change the state

  /** `find!(name)`: the profile's section, or DottyError "Profile '<name>' does not exist". */
  function FindProfileOp(st: State, name: string): (o: Outcome<Section>)
    ensures o.state == WithData(st)
    ensures o.result.Success? <==> name in Keys(Data(st).profiles)
    ensures o.result.Success? ==> (name, o.result.value) in Data(st).profiles
    ensures o.result.Failure? ==> o.result.error == DottyError(ProfileMissingMessage(name))
  {
    match Lookup(Data(st).profiles, name)
    case Some(s) => Outcome(Success(s), WithData(st))
    case None => Outcome(Failure(DottyError(ProfileMissingMessage(name))), WithData(st))
  }

  /** `create(name)`: an empty section under `name`, then write. */
  function CreateProfileOp(st: State, name: string): Outcome<()> {
    WriteYamlOp(st.(data := Some(Created(Data(st), name))))
  }

  /**
    `remove(name)`: `find!` first; then forget the current profile, both cached and
    stored, delete the section and write.
  */
  function RemoveProfileOp(st: State, name: string): Outcome<()> {
    var f := FindProfileOp(st, name);
    match f.result
    case Failure(e) => Outcome(Failure(e), f.state)
    case Success(_) => WriteYamlOp(f.state.(data := Some(Removed(Data(st), name)), current := None))
  }

  // ---------------------------------------------------------------------------------------
  // What the store promises

  /**
    `profile_data` and `current_profile` are computed at most once: evaluating them again
    changes nothing, and once cached they no longer see the stored file, whatever it
    becomes. Without a stored file the data is `{ 'profiles' => {} }` and the profile 'default'.
  */
  lemma CachesSettle(st: State, stored: Option<Doc>)
    ensures WithData(WithData(st)) == WithData(st) && Data(WithData(st)) == Data(st)
    ensures Data(WithData(st).(file := stored)) == Data(st)
    ensures WithProfile(WithProfile(st)) == WithProfile(st) && Profile(WithProfile(st)) == Profile(st)
    ensures Profile(WithProfile(st).(file := stored)) == Profile(st)
    ensures st == Restarted(st) && st.file.None? ==> Data(st) == EmptyDoc && Profile(st) == "default"
  {
  }

  lemma DataOk(st: State)
    requires Inv(st)
    ensures DocOk(Data(st))
  {
  }

  lemma SectionOfOk(d: Doc, p: string)
    requires DocOk(d)
    ensures SectionOk(SectionOf(d, p))
  {
    if Lookup(d.profiles, p).Some? {
      var i :| 0 <= i < |d.profiles| && d.profiles[i] == (p, Lookup(d.profiles, p).value);
    }
  }

  /** The list `list` returns always has distinct, valid names. */
  lemma ListingOk(st: State)
    requires Inv(st)
    ensures Listing(st).Success? ==> UniqueNames(Listing(st).value) && ValidNames(Listing(st).value)
  {
    if st.repos.None? && Listing(st).Success? {
      SectionOfOk(Data(st), Profile(st));
      ParsedReposOk(ReposOf(Active(st)));
    }
  }

  /** Filling caches keeps the invariant. */
  lemma UnmovedInv(a: State, b: State)
    requires Inv(a) && Unmoved(a, b)
    ensures Inv(b)
  {
    DataOk(a);
    ListingOk(a);
  }

  /**
    write_yaml fails exactly when the list cannot be loaded. Otherwise the stored document
    is the profile data with the active profile named current and its section holding the
    current target and the list, as `current_target` and `list` report them; memory and
    disk then agree. A failed write leaves the stored document alone.
  */
  lemma WriteYamlSpec(st: State)
    requires Inv(st)
    ensures WriteYamlOp(st).result.Success? <==> Listing(st).Success?
    ensures WriteYamlOp(st).result.Success? ==>
      WriteYamlOp(st).state.file == Some(Synced(Data(st), Profile(st), Target(st).value, Listing(st).value))
    ensures WriteYamlOp(st).result.Success? ==> Synchronized(WriteYamlOp(st).state)
    ensures WriteYamlOp(st).result.Failure? ==> WriteYamlOp(st).state.file == st.file
    ensures Inv(WriteYamlOp(st).state)
  {
    var p := Profile(st);
    var d := Data(st);
    DataOk(st);
    ListingOk(st);
    TouchedSpec(d, p);
    var s1 := Ready(st).(data := Some(Touched(d, p)));
    assert Active(s1) == Active(st);
    assert Listing(s1) == Listing(st);
    assert Target(s1) == Target(st);
    var t := CurrentTargetOp(s1);
    if t.result.Failure? {
      UnmovedInv(s1, t.state);
    } else {
      var l := ListOp(t.state);
      if l.result.Failure? {
        UnmovedInv(s1, l.state);
      } else {
        SyncedSpec(d, p, Target(st).value, Listing(st).value);
      }
    }
  }

  /** write_yaml raises only what loading the list raises. */
  lemma WriteYamlFailure(st: State)
    ensures WriteYamlOp(st).result.Failure? ==> Listing(st).Failure? && WriteYamlOp(st).result.error == Listing(st).error
  {
    var p := Profile(st);
    var s1 := Ready(st).(data := Some(Touched(Data(st), p)));
    assert Listing(s1) == Listing(st);
  }

  /**
    The write-then-read round trip: a later run that starts from the written file alone
    sees the same profile, target and repository list.
  */
  lemma ReloadAfterWrite(st: State)
    requires Inv(st) && WriteYamlOp(st).result.Success?
    ensures Profile(Restarted(WriteYamlOp(st).state)) == Profile(st)
    ensures Target(Restarted(WriteYamlOp(st).state)) == Target(st)
    ensures Listing(Restarted(WriteYamlOp(st).state)) == Listing(st)
  {
    WriteYamlSpec(st);
    ListingOk(st);
    DataOk(st);
    SectionOfSynced(Data(st), Profile(st), Target(st).value, Listing(st).value);
  }

  /**
    current_target= raises "Not changing current target" exactly when the value is not ''
    and names no listed repository, and then the profile data is as it was. Otherwise, once
    the list loads, the active profile's stored target becomes the value, or the default
    target when the profile has no section to assign into; other profiles are untouched.
  */
  lemma SetCurrentTargetSpec(st: State, val: string)
    requires Inv(st)
    ensures SetCurrentTargetOp(st, val).result == Failure(InvalidRepositoryNameError(NotChangingTargetMessage)) <==>
      (val != "" && Listing(st).Success? && !Listed(Listing(st).value, val))
    ensures (val != "" && Listing(st).Success? && !Listed(Listing(st).value, val)) ==>
      (Data(SetCurrentTargetOp(st, val).state) == Data(st) && SetCurrentTargetOp(st, val).state.file == st.file)
    ensures SetCurrentTargetOp(st, val).result.Success? <==>
      (Listing(st).Success? && (val == "" || Listed(Listing(st).value, val)))
    ensures SetCurrentTargetOp(st, val).result.Success? ==>
      (SetCurrentTargetOp(st, val).state.current == Some(Profile(st)) &&
       Synchronized(SetCurrentTargetOp(st, val).state) &&
       SectionOf(SetCurrentTargetOp(st, val).state.file.value, Profile(st)).currentTarget ==
         Some(if Profile(st) in Keys(Data(st).profiles) then val else DefaultTarget(Listing(st).value)))
    ensures SetCurrentTargetOp(st, val).result.Success? ==>
      forall q :: q != Profile(st) ==>
        Lookup(SetCurrentTargetOp(st, val).state.file.value.profiles, q) == Lookup(Data(st).profiles, q)
    ensures Inv(SetCurrentTargetOp(st, val).state)
  {
    var f := FindOp(st, val);
    UnmovedInv(st, f.state);
    if val == "" {
      AssignAndWriteSpec(st, st, val);
    } else if f.result.Success? && f.result.value.Some? {
      AssignAndWriteSpec(st, f.state, val);
    }
  }

  /** The tail of current_target=, from a state that differs from `st` only in filled caches. */
  lemma AssignAndWriteSpec(st: State, s1: State, val: string)
    requires Inv(st) && Inv(s1) && Unmoved(st, s1)
    ensures AssignAndWrite(s1, val).result.Success? <==> Listing(st).Success?
    ensures AssignAndWrite(s1, val).result.Failure? ==> AssignAndWrite(s1, val).result.error == Listing(st).error
    ensures AssignAndWrite(s1, val).result.Success? ==>
      (AssignAndWrite(s1, val).state.current == Some(Profile(st)) &&
       Synchronized(AssignAndWrite(s1, val).state) &&
       SectionOf(AssignAndWrite(s1, val).state.file.value, Profile(st)).currentTarget ==
         Some(if Profile(st) in Keys(Data(st).profiles) then val else DefaultTarget(Listing(st).value)))
    ensures AssignAndWrite(s1, val).result.Success? ==>
      forall q :: q != Profile(st) ==>
        Lookup(AssignAndWrite(s1, val).state.file.value.profiles, q) == Lookup(Data(st).profiles, q)
    ensures Inv(AssignAndWrite(s1, val).state)
  {
    DataOk(st);
    ListingOk(st);
    var p := Profile(st);
    var d := Data(st);
    var updated := AssignTarget(d, p, val);
    AssignTargetSpec(d, p, val);
    var s2 := Ready(s1).(data := Some(updated));
    assert ReposOf(Active(s2)) == ReposOf(Active(st));
    assert Listing(s2) == Listing(st);
    assert Inv(s2);
    WriteYamlSpec(s2);
    WriteYamlFailure(s2);
    if Listing(st).Success? {
      SyncedSpec(updated, p, Target(s2).value, Listing(st).value);
    }
  }

  /**
    reset_current_target succeeds whenever the list loads. A target that names a listed
    repository is left alone and nothing is written; any other target (including '') is
    replaced by the default target. Either way the target afterwards passes the check in
    current_target=.
  */
  lemma ResetCurrentTargetSpec(st: State)
    requires Inv(st)
    ensures ResetCurrentTargetOp(st).result.Success? <==> Listing(st).Success?
    ensures ResetCurrentTargetOp(st).result.Success? ==>
      (Target(ResetCurrentTargetOp(st).state).Success? &&
       TargetAllowed(Listing(st).value, Target(ResetCurrentTargetOp(st).state).value))
    ensures (Listing(st).Success? && Listed(Listing(st).value, Target(st).value)) ==>
      (ResetCurrentTargetOp(st).state.file == st.file && Data(ResetCurrentTargetOp(st).state) == Data(st))
    ensures (Listing(st).Success? && !Listed(Listing(st).value, Target(st).value)) ==>
      (Target(ResetCurrentTargetOp(st).state) == Success(DefaultTarget(Listing(st).value)) &&
       Synchronized(ResetCurrentTargetOp(st).state))
    ensures Synchronized(st) && ResetCurrentTargetOp(st).result.Success? ==> Synchronized(ResetCurrentTargetOp(st).state)
    ensures Inv(ResetCurrentTargetOp(st).state)
  {
    ListingOk(st);
    var t := CurrentTargetOp(st);
    if t.result.Failure? {
      UnmovedInv(st, t.state);
    } else {
      var f := FindOp(t.state, t.result.value);
      if f.result.Failure? || f.result.value.Some? {
        UnmovedInv(st, f.state);
      } else {
        ResetToDefault(st);
        DefaultTargetAllowed(Listing(st).value);
      }
    }
  }

  /** The branch of reset_current_target where the current target names no repository. */
  lemma ResetToDefault(st: State)
    requires Inv(st) && CurrentTargetOp(st).result.Success?
    requires FindOp(CurrentTargetOp(st).state, CurrentTargetOp(st).result.value).result == Success(None)
    ensures Listing(st).Success? && ResetCurrentTargetOp(st).result.Success?
    ensures Target(ResetCurrentTargetOp(st).state) == Success(DefaultTarget(Listing(st).value))
    ensures Synchronized(ResetCurrentTargetOp(st).state) && Inv(ResetCurrentTargetOp(st).state)
  {
    var t := CurrentTargetOp(st);
    var f := FindOp(t.state, t.result.value);
    var d := DefaultTargetOp(f.state);
    UnmovedInv(st, d.state);
    DefaultTargetAllowed(Listing(st).value);
    SetAllowedTarget(st, d.state, d.result.value);
  }

  /** current_target= with a value that passes its check, from `st` with some caches filled. */
  lemma SetAllowedTarget(st: State, s: State, val: string)
    requires Inv(st) && Inv(s) && Unmoved(st, s)
    requires Listing(st).Success? && TargetAllowed(Listing(st).value, val)
    ensures SetCurrentTargetOp(s, val).result.Success?
    ensures Target(SetCurrentTargetOp(s, val).state) ==
      Success(if Profile(st) in Keys(Data(st).profiles) then val else DefaultTarget(Listing(st).value))
    ensures Synchronized(SetCurrentTargetOp(s, val).state) && Inv(SetCurrentTargetOp(s, val).state)
  {
    var g := FindOp(s, val);
    UnmovedInv(st, g.state);
    var s1 := if val == "" then s else g.state;
    AllowedTargetAssigns(s, val);
    AssignAndWriteSpec(st, s1, val);
    var o := AssignAndWrite(s1, val);
    assert Active(o.state) == SectionOf(o.state.file.value, Profile(st));
  }

  /** A value that passes the check in current_target= goes straight to the assignment. */
  lemma AllowedTargetAssigns(s: State, val: string)
    requires Listing(s).Success? && TargetAllowed(Listing(s).value, val)
    ensures SetCurrentTargetOp(s, val) == AssignAndWrite(if val == "" then s else FindOp(s, val).state, val)
  {
    if val != "" {
      assert Listed(Listing(s).value, val);
    }
  }

  lemma AppendKeepsNames(list: seq<Repo>, repo: Repo)
    requires UniqueNames(list) && ValidNames(list)
    requires !Listed(list, repo.name) && MatchesNamePattern(repo.name)
    ensures UniqueNames(list + [repo]) && ValidNames(list + [repo])
  {
    var l := list + [repo];
    forall i, j | 0 <= i < j < |l| ensures l[i].name != l[j].name {
      if j == |list| {
        assert list[i].name != repo.name;
      }
    }
  }

  /**
    add_repository raises "There is already a repository with that name" for a listed
    name and the invalid-name error for a bad one, writing nothing; otherwise the list
    grows by exactly the new repository at its end and is written to disk.
  */
  lemma AddRepositorySpec(st: State, name: string, url: string)
    requires Inv(st)
    ensures AddRepositoryOp(st, name, url).result.Success? <==>
      (Listing(st).Success? && !Listed(Listing(st).value, name) && MatchesNamePattern(name))
    ensures (Listing(st).Success? && Listed(Listing(st).value, name)) ==>
      (AddRepositoryOp(st, name, url).result == Failure(DottyError(AlreadyExistsMessage)) &&
       AddRepositoryOp(st, name, url).state.file == st.file)
    ensures (Listing(st).Success? && !Listed(Listing(st).value, name) && !MatchesNamePattern(name)) ==>
      (AddRepositoryOp(st, name, url).result == Failure(InvalidRepositoryNameError(InvalidNameMessage)) &&
       AddRepositoryOp(st, name, url).state.file == st.file)
    ensures AddRepositoryOp(st, name, url).result.Success? ==>
      (AddRepositoryOp(st, name, url).result.value == Repo(name, url) &&
       AddRepositoryOp(st, name, url).state.repos == Some(Listing(st).value + [Repo(name, url)]) &&
       Synchronized(AddRepositoryOp(st, name, url).state))
    ensures Inv(AddRepositoryOp(st, name, url).state)
  {
    ListingOk(st);
    var f := FindOp(st, name);
    UnmovedInv(st, f.state);
    if f.result.Success? && f.result.value.None? && MatchesNamePattern(name) {
      var repo := Repo(name, url);
      AppendKeepsNames(Listing(st).value, repo);
      var s1 := f.state.(repos := Some(f.state.repos.value + [repo]));
      WriteYamlSpec(s1);
      var w := WriteYamlOp(s1);
      ResetCurrentTargetSpec(w.state);
    }
  }

  /**
    The registry half of destroy: the repositories of that name leave the cached list,
    the others stay in order, and the list is written to disk.
  */
  lemma DestroySpec(st: State, name: string)
    requires Inv(st) && st.repos.Some?
    ensures DestroyOp(st, name).result.Success?
    ensures DestroyOp(st, name).state.repos == Some(Reject(st.repos.value, name))
    ensures Synchronized(DestroyOp(st, name).state)
    ensures Inv(DestroyOp(st, name).state)
  {
    RejectKeepsNames(st.repos.value, name);
    WriteYamlSpec(st.(repos := Some(Reject(st.repos.value, name))));
  }

  /**
    create succeeds whenever the list loads, or when the new profile is itself the active
    one. The name is then a profile on disk; unless it is the active profile (whose
    section the write fills at once) its section is empty, and every other profile except
    the active one is as it was.
  */
  lemma CreateProfileSpec(st: State, name: string)
    requires Inv(st)
    ensures CreateProfileOp(st, name).result.Success? <==> (Listing(st).Success? || Profile(st) == name)
    ensures CreateProfileOp(st, name).result.Success? ==>
      (Synchronized(CreateProfileOp(st, name).state) &&
       name in Keys(CreateProfileOp(st, name).state.file.value.profiles))
    ensures CreateProfileOp(st, name).result.Success? && CreateProfileOp(st, name).state.current != Some(name) ==>
      Lookup(CreateProfileOp(st, name).state.file.value.profiles, name) == Some(EmptySection)
    ensures CreateProfileOp(st, name).result.Success? ==>
      forall q :: q != name && Some(q) != CreateProfileOp(st, name).state.current ==>
        Lookup(CreateProfileOp(st, name).state.file.value.profiles, q) == Lookup(Data(st).profiles, q)
    ensures Inv(CreateProfileOp(st, name).state)
  {
    var d := Data(st);
    var s1 := st.(data := Some(Created(d, name)));
    DataOk(st);
    CreatedSpec(d, name);
    CreatedReady(st, name);
    WriteYamlSpec(s1);
    if Listing(s1).Success? {
      SyncedSpec(Created(d, name), Profile(s1), Target(s1).value, Listing(s1).value);
    }
  }

  /** The state create hands to `write_yaml`: the new section is in the cached document. */
  lemma CreatedReady(st: State, name: string)
    requires Inv(st)
    ensures Inv(st.(data := Some(Created(Data(st), name))))
    ensures Profile(st.(data := Some(Created(Data(st), name)))) in {Profile(st), name}
    ensures Listing(st.(data := Some(Created(Data(st), name)))).Success? <==>
      (Listing(st).Success? || Profile(st) == name)
    ensures name in Keys(Created(Data(st), name).profiles)
  {
    var d := Data(st);
    DataOk(st);
    ListingOk(st);
    CreatedSpec(d, name);
    PutKeys(d.profiles, name, EmptySection);
    var s1 := st.(data := Some(Created(d, name)));
    if Profile(s1) != Profile(st) {
      assert d.profiles == [] && st.current.None? && d.currentProfile.None?;
      assert Profile(s1) == name;
    }
    if Profile(st) != name {
      assert Active(s1) == Active(st);
    }
  }

  /**
    remove raises "Profile '<name>' does not exist" for an unknown name, having only
    loaded the profile data. Otherwise the active profile becomes the fallback of what
    remains (the first remaining profile, or 'default'); the removed name is gone from
    disk unless it is that fallback; the other profiles except the new active one are
    untouched. A list cached before the call is the one written into the new active
    profile's section.
  */
  lemma RemoveProfileSpec(st: State, name: string)
    requires Inv(st)
    ensures name !in Keys(Data(st).profiles) ==>
      RemoveProfileOp(st, name) == Outcome(Failure(DottyError(ProfileMissingMessage(name))), WithData(st))
    ensures name in Keys(Data(st).profiles) ==>
      RemoveProfileOp(st, name).state.current == Some(FallbackProfile(Removed(Data(st), name)))
    ensures name in Keys(Data(st).profiles) && RemoveProfileOp(st, name).result.Success? ==>
      (Synchronized(RemoveProfileOp(st, name).state) &&
       (name in Keys(RemoveProfileOp(st, name).state.file.value.profiles) ==>
          name == FallbackProfile(Removed(Data(st), name))) &&
       forall q :: q != name && q != FallbackProfile(Removed(Data(st), name)) ==>
         Lookup(RemoveProfileOp(st, name).state.file.value.profiles, q) == Lookup(Data(st).profiles, q))
    ensures name in Keys(Data(st).profiles) && st.repos.Some? ==>
      (RemoveProfileOp(st, name).result.Success? &&
       SectionOf(RemoveProfileOp(st, name).state.file.value, FallbackProfile(Removed(Data(st), name))).repositories ==
         Some(SerializeRepos(st.repos.value)))
    ensures Inv(RemoveProfileOp(st, name).state)
  {
    var d := Data(st);
    DataOk(st);
    ListingOk(st);
    if name in Keys(d.profiles) {
      RemovedSpec(d, name);
      var s1 := WithData(st).(data := Some(Removed(d, name)), current := None);
      assert Profile(s1) == FallbackProfile(Removed(d, name));
      WriteYamlSpec(s1);
      if Listing(s1).Success? {
        SyncedSpec(Removed(d, name), Profile(s1), Target(s1).value, Listing(s1).value);
      }
    }
  }

  /** The list `import` leaves: each entry whose name is not yet listed is appended, in order. */
  function ImportInto(list: seq<Repo>, entries: Assoc<string, string>): seq<Repo>
    decreases |entries|
  {
    if entries == [] then list
    else if Listed(list, entries[0].0) then ImportInto(list, entries[1..])
    else ImportInto(list + [Repo(entries[0].0, entries[0].1)], entries[1..])
  }

  /**
    Importing keeps the existing list as a prefix, lists every entry's name afterwards,
    and adds only repositories built from the entries.
  */
  lemma {:induction false} ImportIntoSpec(list: seq<Repo>, entries: Assoc<string, string>)
    ensures list <= ImportInto(list, entries)
    ensures forall i :: 0 <= i < |entries| ==> Listed(ImportInto(list, entries), entries[i].0)
    ensures forall k :: |list| <= k < |ImportInto(list, entries)| ==>
      (ImportInto(list, entries)[k].name, ImportInto(list, entries)[k].url) in entries
    decreases |entries|
  {
    if entries != [] {
      var e := entries[0];
      var next := if Listed(list, e.0) then list else list + [Repo(e.0, e.1)];
      ImportIntoSpec(next, entries[1..]);
      var r := ImportInto(list, entries);
      assert r == ImportInto(next, entries[1..]);
      assert Listed(next, e.0) by {
        if !Listed(list, e.0) {
          assert next[|list|].name == e.0;
        }
      }
      assert Listed(r, e.0) by {
        var i :| 0 <= i < |next| && next[i].name == e.0;
        assert r[i] == next[i];
      }
      forall i | 0 <= i < |entries| ensures Listed(r, entries[i].0) {
        if i > 0 {
          assert entries[i] == entries[1..][i - 1];
        }
      }
      forall k | |list| <= k < |r| ensures (r[k].name, r[k].url) in entries {
        if k >= |next| {
          assert (r[k].name, r[k].url) in entries[1..];
        } else {
          assert r[k] == next[k] == Repo(e.0, e.1);
        }
      }
    }
  }

  lemma {:induction false} ImportEachSpec(st: State, entries: Assoc<string, string>)
    requires Inv(st) && (entries != [] || st.repos.Some?)
    ensures ImportEach(st, entries).result.Success? ==>
      (Listing(st).Success? && ImportEach(st, entries).state.repos == Some(ImportInto(Listing(st).value, entries)))
    ensures Inv(ImportEach(st, entries).state)
    decreases |entries|
  {
    if entries != [] {
      var f := FindOp(st, entries[0].0);
      UnmovedInv(st, f.state);
      if f.result.Success? {
        if f.result.value.Some? {
          ImportEachSpec(f.state, entries[1..]);
        } else {
          AddRepositorySpec(f.state, entries[0].0, entries[0].1);
          var a := AddRepositoryOp(f.state, entries[0].0, entries[0].1);
          if a.result.Success? {
            ImportEachSpec(a.state, entries[1..]);
          }
        }
      }
    }
  }

  /**
    import fails before any change when there is nothing to import: it calls `error`, which
    `Repository` does not define, with "Didn't find any repositories at '<location>'". When it completes, the list it leaves is the old one followed by
    each entry whose name was not yet listed, and every entry's name is listed.
  */
  lemma ImportSpec(st: State, location: string, entries: Assoc<string, string>)
    requires Inv(st)
    ensures entries == [] ==>
      ImportOp(st, location, entries) == Outcome(Failure(UndefinedErrorHelper(NothingToImportMessage(location))), st)
    ensures ImportOp(st, location, entries).result.Success? ==>
      (Listing(st).Success? &&
       ImportOp(st, location, entries).state.repos == Some(ImportInto(Listing(st).value, entries)) &&
       Listing(st).value <= ImportOp(st, location, entries).state.repos.value &&
       forall i :: 0 <= i < |entries| ==> Listed(ImportOp(st, location, entries).state.repos.value, entries[i].0))
    ensures Inv(ImportOp(st, location, entries).state)
  {
    if entries != [] {
      ImportEachSpec(st, entries);
      if Listing(st).Success? {
        ImportIntoSpec(Listing(st).value, entries);
      }
    }
  }
}
