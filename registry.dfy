/**
  The class-level state shared by Profile (lib/dotty/profile.rb) and the class methods of
  Repository (lib/dotty/repository.rb), held in one object whose methods update it in
  place, step by step as the Ruby does. Each method is proved to leave the state, and
  return the value, that the matching function of Session describes; the properties of
  those functions are proved there.
*/
module Registry {
  import opened Wrappers
  import opened Errors
  import opened Assoc
  import opened Repository
  import opened Profiles
  import opened Session

  class Store {
    /** The contents of `.profiles.yml`; None while the file does not exist. */
    var file: Option<Doc>
    /** `@profile_data` */
    var profileData: Option<Doc>
    /** `@current_profile` */
    var currentProfile: Option<string>
    /** `@repositories` */
    var repositories: Option<seq<Repo>>
    /** `App::ROOT_PATH` */
    const rootPath: string

    function Snapshot(): State
      reads this
    {
      State(file, profileData, currentProfile, repositories)
    }

    /** The documents are well formed and the cached list has distinct, valid names. */
    ghost predicate Valid()
      reads this
    {
      Inv(Snapshot())
    }

    /** A fresh process: the stored document (if any) and no cache filled yet. */
    constructor(rootPath: string, stored: Option<Doc>)
      requires stored.Some? ==> DocOk(stored.value)
      ensures Valid()
      ensures Snapshot() == State(stored, None, None, None) && this.rootPath == rootPath
    {
      this.rootPath := rootPath;
      file := stored;
      profileData := None;
      currentProfile := None;
      repositories := None;
    }

    /** `profile_data`: `@profile_data ||= read_yaml || { 'profiles' => {} }` */
    method ProfileData() returns (d: Doc)
      requires Valid()
      modifies this
      ensures Valid()
      ensures d == Data(old(Snapshot())) && Snapshot() == WithData(old(Snapshot()))
    {
      if profileData.None? {
        profileData := Some(file.GetOr(EmptyDoc));
      }
      d := profileData.value;
    }

    /** `current_profile`: `@current_profile ||= profile_data['current_profile'] || profiles.first || 'default'` */
    method CurrentProfile() returns (p: string)
      requires Valid()
      modifies this
      ensures Valid()
      ensures p == Profile(old(Snapshot())) && Snapshot() == WithProfile(old(Snapshot()))
    {
      if currentProfile.None? {
        var d := ProfileData();
        currentProfile := Some(FallbackProfile(d));
      }
      p := currentProfile.value;
    }

    /** `profiles`: the profile names, in the order they were added. */
    method Profiles() returns (names: seq<string>)
      requires Valid()
      modifies this
      ensures Valid()
      ensures names == Keys(Data(old(Snapshot())).profiles) && Snapshot() == WithData(old(Snapshot()))
    {
      var d := ProfileData();
      names := Keys(d.profiles);
    }

    /** `current_profile_data`: the active profile's section, or `{}`. */
    method CurrentProfileData() returns (s: Section)
      requires Valid()
      modifies this
      ensures Valid()
      ensures s == Active(old(Snapshot())) && Snapshot() == Ready(old(Snapshot()))
    {
      var d := ProfileData();
      var p := CurrentProfile();
      s := SectionOf(d, p);
    }

    /** `find!(name)` */
    method FindProfile(name: string) returns (r: Result<Section, Error>)
      requires Valid()
      modifies this
      ensures Valid()
      ensures Outcome(r, Snapshot()) == FindProfileOp(old(Snapshot()), name)
    {
      var d := ProfileData();
      var s := Lookup(d.profiles, name);
      if s.None? {
        return Failure(DottyError(ProfileMissingMessage(name)));
      }
      r := Success(s.value);
    }

    /** `list`: `@repositories ||= (current_profile_data['repositories'] || {}).collect { ... }` */
    method List() returns (r: Result<seq<Repo>, Error>)
      requires Valid()
      modifies this
      ensures Valid()
      ensures Outcome(r, Snapshot()) == ListOp(old(Snapshot()))
    {
      ListingOk(Snapshot());
      if repositories.Some? {
        return Success(repositories.value);
      }
      var s := CurrentProfileData();
      var list :- ParseRepos(ReposOf(s));
      repositories := Some(list);
      r := Success(list);
    }

    /** `find(name)`: `list.detect { |repo| repo.name == name }` */
    method Find(name: string) returns (r: Result<Option<Repo>, Error>)
      requires Valid()
      modifies this
      ensures Valid()
      ensures Outcome(r, Snapshot()) == FindOp(old(Snapshot()), name)
    {
      var list :- List();
      r := Success(FindRepo(list, name));
    }

    /** `default_target` */
    method DefaultTarget() returns (r: Result<string, Error>)
      requires Valid()
      modifies this
      ensures Valid()
      ensures Outcome(r, Snapshot()) == DefaultTargetOp(old(Snapshot()))
    {
      var list :- List();
      r := Success(if |list| == 1 then list[0].name else "");
    }

    /** `current_target` */
    method CurrentTarget() returns (r: Result<string, Error>)
      requires Valid()
      modifies this
      ensures Valid()
      ensures Outcome(r, Snapshot()) == CurrentTargetOp(old(Snapshot()))
    {
      var s := CurrentProfileData();
      if s.currentTarget.Some? {
        return Success(s.currentTarget.value);
      }
      r := DefaultTarget();
    }

    /**
      The first two steps of `write_yaml`: `profile_data['current_profile'] = current_profile`,
      then `profile_data['profiles'][current_profile] ||= {}`.
    */
    method TouchCurrentSection() returns (p: string)
      requires Valid()
      modifies this
      ensures Valid()
      ensures p == Profile(old(Snapshot()))
      ensures Snapshot() == Ready(old(Snapshot())).(data := Some(Touched(Data(old(Snapshot())), p)))
    {
      var d := ProfileData();
      p := CurrentProfile();
      TouchedSpec(d, p);
      profileData := Some(d.(currentProfile := Some(p)));
      if p !in Keys(d.profiles) {
        profileData := Some(profileData.value.(profiles := d.profiles + [(p, EmptySection)]));
      }
    }

    /** `write_yaml` */
    method WriteYaml() returns (r: Result<(), Error>)
      requires Valid()
      modifies this
      ensures Valid()
      ensures Outcome(r, Snapshot()) == WriteYamlOp(old(Snapshot()))
    {
      WriteYamlSpec(Snapshot());
      var p := TouchCurrentSection();
      var target :- CurrentTarget();
      var list :- List();
      var touched := profileData.value;
      profileData := Some(touched.(profiles := Put(touched.profiles, p, Section(Some(target), Some(SerializeRepos(list))))));
      file := profileData;
      r := Success(());
    }

    /** `current_target = val` */
    method SetCurrentTarget(val: string) returns (r: Result<(), Error>)
      requires Valid()
      modifies this
      ensures Valid()
      ensures Outcome(r, Snapshot()) == SetCurrentTargetOp(old(Snapshot()), val)
    {
      SetCurrentTargetSpec(Snapshot(), val);
      if val != "" {
        var found :- Find(val);
        if found.None? {
          return Failure(InvalidRepositoryNameError(NotChangingTargetMessage));
        }
      }
      AssignCurrentTarget(val);
      r := WriteYaml();
    }

    /** `Profile.current_profile_data['current_target'] = val`, lost when the section is missing. */
    method AssignCurrentTarget(val: string)
      requires Valid()
      modifies this
      ensures Valid()
      ensures Snapshot() == Ready(old(Snapshot())).(data := Some(AssignTarget(Data(old(Snapshot())), Profile(old(Snapshot())), val)))
    {
      var d := ProfileData();
      var p := CurrentProfile();
      AssignTargetSpec(d, p, val);
      profileData := Some(AssignTarget(d, p, val));
    }

    /** `reset_current_target` */
    method ResetCurrentTarget() returns (r: Result<(), Error>)
      requires Valid()
      modifies this
      ensures Valid()
      ensures Outcome(r, Snapshot()) == ResetCurrentTargetOp(old(Snapshot()))
    {
      var target :- CurrentTarget();
      var found :- Find(target);
      if found.Some? {
        return Success(());
      }
      var default := DefaultTarget();
      match default {
        case Failure(e) => r := Failure(e);
        case Success(t) => r := SetCurrentTarget(t);
      }
    }

    /** `add_repository(name, url)` */
    method AddRepository(name: string, url: string) returns (r: Result<Repo, Error>)
      requires Valid()
      modifies this
      ensures Valid()
      ensures Outcome(r, Snapshot()) == AddRepositoryOp(old(Snapshot()), name, url)
    {
      AddRepositorySpec(Snapshot(), name, url);
      ListingOk(Snapshot());
      var found :- Find(name);
      if found.Some? {
        return Failure(DottyError(AlreadyExistsMessage));
      }
      var repo :- NewRepository(name, url);
      r := SaveAdded(repo);
    }

    /** `list << repo`, then `write_yaml` and `reset_current_target`. */
    method SaveAdded(repo: Repo) returns (r: Result<Repo, Error>)
      requires Valid() && repositories.Some?
      requires !Listed(repositories.value, repo.name) && MatchesNamePattern(repo.name)
      modifies this
      ensures Valid()
      ensures Outcome(r, Snapshot()) == Session.SaveAdded(old(Snapshot()), repo)
    {
      AppendKeepsNames(repositories.value, repo);
      repositories := Some(repositories.value + [repo]);
      var written :- WriteYaml();
      var reset :- ResetCurrentTarget();
      r := Success(repo);
    }

    /** The registry half of Repository#destroy: `Repository.repositories.reject!`, then `write_yaml`. */
    method Destroy(name: string) returns (r: Result<(), Error>)
      requires Valid() && repositories.Some?
      modifies this
      ensures Valid()
      ensures Outcome(r, Snapshot()) == DestroyOp(old(Snapshot()), name)
    {
      RejectKeepsNames(repositories.value, name);
      repositories := Some(Reject(repositories.value, name));
      r := WriteYaml();
    }

    /** `create(name)` */
    method CreateProfile(name: string) returns (r: Result<(), Error>)
      requires Valid()
      modifies this
      ensures Valid()
      ensures Outcome(r, Snapshot()) == CreateProfileOp(old(Snapshot()), name)
    {
      var d := ProfileData();
      CreatedSpec(d, name);
      profileData := Some(Created(d, name));
      r := WriteYaml();
    }

    /** `remove(name)` */
    method RemoveProfile(name: string) returns (r: Result<(), Error>)
      requires Valid()
      modifies this
      ensures Valid()
      ensures Outcome(r, Snapshot()) == RemoveProfileOp(old(Snapshot()), name)
    {
      var section :- FindProfile(name);
      var d := ProfileData();
      RemovedSpec(d, name);
      currentProfile := None;
      profileData := Some(Removed(d, name));
      r := WriteYaml();
    }

    /**
      `import(location)`, with the YAML found at `location` already parsed into `entries`
      (name => url): fail when there is nothing; otherwise add, in order, each entry whose
      name is not listed yet.
    */
    method Import(location: string, entries: Assoc<string, string>) returns (r: Result<(), Error>)
      requires Valid()
      modifies this
      ensures Valid()
      ensures Outcome(r, Snapshot()) == ImportOp(old(Snapshot()), location, entries)
    {
      if entries == [] {
        return Failure(UndefinedErrorHelper(NothingToImportMessage(location)));
      }
      var i := 0;
      while i < |entries|
        invariant 0 <= i <= |entries|
        invariant Valid()
        invariant ImportEach(Snapshot(), entries[i..]) == ImportEach(old(Snapshot()), entries)
      {
        var step := ImportEntry(entries, i);
        if step.Failure? {
          return step;
        }
        i := i + 1;
      }
      r := Success(());
    }

    /** One pass of the import loop: skip a listed name, add any other. */
    method ImportEntry(entries: Assoc<string, string>, i: nat) returns (r: Result<(), Error>)
      requires Valid() && i < |entries|
      modifies this
      ensures Valid()
      ensures r.Failure? ==> ImportEach(old(Snapshot()), entries[i..]) == Outcome(r, Snapshot())
      ensures r.Success? ==> ImportEach(old(Snapshot()), entries[i..]) == ImportEach(Snapshot(), entries[i + 1..])
    {
      assert entries[i..][0] == entries[i] && entries[i..][1..] == entries[i + 1..];
      var found :- Find(entries[i].0);
      if found.None? {
        var added :- AddRepository(entries[i].0, entries[i].1);
      }
      r := Success(());
    }

    /** Repository#local_path: `File.join(App::ROOT_PATH, Profile.current_profile, name)` */
    method LocalPath(name: string) returns (path: string)
      requires Valid()
      modifies this
      ensures Valid()
      ensures path == rootPath + "/" + Profile(old(Snapshot())) + "/" + name
      ensures Snapshot() == WithProfile(old(Snapshot()))
    {
      var p := CurrentProfile();
      path := rootPath + "/" + p + "/" + name;
    }
  }
}
