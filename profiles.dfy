/**
  The document kept in `.profiles.yml` (lib/dotty/profile.rb) and the changes the
  profile store makes to it, as values. A profile's section holds its `current_target`
  and its `repositories` hash (name => url).
*/
module Profiles {
  import opened Wrappers
  import opened Errors
  import opened Paths
  import opened Assoc
  import opened Repository

  /** One profile's section; a key absent from the YAML hash is None. */
  datatype Section = Section(currentTarget: Option<string>, repositories: Option<Assoc<string, string>>)

  /** The `{}` a new or missing section starts from. */
  const EmptySection := Section(None, None)

  /** The whole document: `current_profile` and the `profiles` hash, in insertion order. */
  datatype Doc = Doc(currentProfile: Option<string>, profiles: Assoc<string, Section>)

  /** `{ 'profiles' => {} }`, used when there is no stored document. */
  const EmptyDoc := Doc(None, [])

  /** A YAML hash never repeats a key. */
  predicate SectionOk(s: Section) {
    s.repositories.Some? ==> UniqueKeys(s.repositories.value)
  }

  predicate DocOk(d: Doc) {
    UniqueKeys(d.profiles) && AllValues(d.profiles, SectionOk)
  }

  /** `profile_data['current_profile'] || profiles.first || 'default'` */
  function FallbackProfile(d: Doc): string {
    if d.currentProfile.Some? then d.currentProfile.value
    else if d.profiles != [] then d.profiles[0].0
    else "default"
  }

  /** `profile_data['profiles'][name] or {}` */
  function SectionOf(d: Doc, name: string): Section {
    Lookup(d.profiles, name).GetOr(EmptySection)
  }

  /** `section['repositories'] || {}` */
  function ReposOf(s: Section): Assoc<string, string> {
    s.repositories.GetOr([])
  }

  // ---------------------------------------------------------------------------------------
  // The repository list of a section

  /**
    `repositories.collect { |name, options| Repository.new(name, options['url']) }`:
    one repository per entry, in order, or the error of the first invalid name.
  */
  function ParseRepos(entries: Assoc<string, string>): (r: Result<seq<Repo>, Error>)
    ensures r.Success? <==> forall i :: 0 <= i < |entries| ==> MatchesNamePattern(entries[i].0)
    ensures r.Success? ==>
      (|r.value| == |entries| && forall i :: 0 <= i < |entries| ==> r.value[i] == Repo(entries[i].0, entries[i].1))
    ensures r.Failure? ==> r.error == InvalidRepositoryNameError(InvalidNameMessage)
  {
    if entries == [] then Success([])
    else
      var init :- ParseRepos(entries[..|entries| - 1]);
      var last := entries[|entries| - 1];
      var repo :- NewRepository(last.0, last.1);
      Success(init + [repo])
  }

  /** No two repositories share a name. */
  predicate UniqueNames(list: seq<Repo>) {
    forall i, j :: 0 <= i < j < |list| ==> list[i].name != list[j].name
  }

  /** Every repository name passes the check in Repository.new. */
  predicate ValidNames(list: seq<Repo>) {
    forall i :: 0 <= i < |list| ==> MatchesNamePattern(list[i].name)
  }

  predicate Listed(list: seq<Repo>, name: string) {
    exists i :: 0 <= i < |list| && list[i].name == name
  }

  /** `list.detect { |repo| repo.name == name }`: the first repository with that name. */
  function FindRepo(list: seq<Repo>, name: string): (r: Option<Repo>)
    ensures r.Some? <==> Listed(list, name)
    ensures r.Some? ==>
      (exists i :: 0 <= i < |list| && list[i] == r.value && r.value.name == name &&
        forall j :: 0 <= j < i ==> list[j].name != name)
    decreases |list|
  {
    if list == [] then None
    else if list[0].name == name then Some(list[0])
    else
      var r := FindRepo(list[1..], name);
      assert Listed(list, name) ==> Listed(list[1..], name) by {
        if Listed(list, name) {
          var i :| 0 <= i < |list| && list[i].name == name;
          assert list[1..][i - 1].name == name;
        }
      }
      if r.Some? then
        assert Listed(list, name) by {
          var i :| 0 <= i < |list[1..]| && list[1..][i] == r.value && r.value.name == name &&
            forall j :: 0 <= j < i ==> list[1..][j].name != name;
          assert list[i + 1] == r.value;
          assert forall j :: 0 <= j < i + 1 ==> list[j].name != name by {
            forall j | 0 <= j < i + 1 ensures list[j].name != name {
              if j > 0 { assert list[j] == list[1..][j - 1]; }
            }
          }
        }
        r
      else r
  }

  /** The `inject` in write_yaml: `hsh.merge(repo.name => { 'url' => repo.url })`, from `{}`. */
  function SerializeRepos(list: seq<Repo>): Assoc<string, string> {
    if list == [] then []
    else
      var last := list[|list| - 1];
      Put(SerializeRepos(list[..|list| - 1]), last.name, last.url)
  }

  /** Name and url of each repository, in order. */
  function Pairs(list: seq<Repo>): (ps: Assoc<string, string>)
    ensures |ps| == |list| && forall i :: 0 <= i < |list| ==> ps[i] == (list[i].name, list[i].url)
  {
    seq(|list|, i requires 0 <= i < |list| => (list[i].name, list[i].url))
  }

  /** With distinct names, the inject keeps one entry per repository, in list order. */
  lemma {:induction false} SerializeUniqueNames(list: seq<Repo>)
    requires UniqueNames(list)
    ensures SerializeRepos(list) == Pairs(list)
    decreases |list|
  {
    if list != [] {
      var init := list[..|list| - 1];
      var last := list[|list| - 1];
      SerializeUniqueNames(init);
      assert Keys(Pairs(init)) == seq(|init|, i requires 0 <= i < |init| => init[i].name);
      assert last.name !in Keys(Pairs(init)) by {
        forall i | 0 <= i < |init| ensures Keys(Pairs(init))[i] != last.name {
          assert init[i] == list[i];
        }
      }
      PutNew(Pairs(init), last.name, last.url);
      assert Pairs(init) + [(last.name, last.url)] == Pairs(list);
    }
  }

  /** The inject never repeats a key, whatever the list. */
  lemma {:induction false} SerializeUniqueKeys(list: seq<Repo>)
    ensures UniqueKeys(SerializeRepos(list))
    decreases |list|
  {
    if list != [] {
      SerializeUniqueKeys(list[..|list| - 1]);
      PutUnique(SerializeRepos(list[..|list| - 1]), list[|list| - 1].name, list[|list| - 1].url);
    }
  }

  /**
    Writing a list of valid, distinctly named repositories into a section and reading the
    section back gives the same list.
  */
  lemma ReposRoundTrip(list: seq<Repo>)
    requires UniqueNames(list) && ValidNames(list)
    ensures ParseRepos(SerializeRepos(list)) == Success(list)
  {
    SerializeUniqueNames(list);
    var r := ParseRepos(Pairs(list));
    assert r.Success?;
    assert r.value == list;
  }

  /** Reading a section always yields valid, distinctly named repositories. */
  lemma ParsedReposOk(entries: Assoc<string, string>)
    requires UniqueKeys(entries)
    requires ParseRepos(entries).Success?
    ensures UniqueNames(ParseRepos(entries).value) && ValidNames(ParseRepos(entries).value)
  {
  }

  /** `list.length == 1 ? list[0].name : ''` */
  function DefaultTarget(list: seq<Repo>): string {
    if |list| == 1 then list[0].name else ""
  }

  /** The check in current_target=: `val.empty? || list.detect { ... }`. */
  predicate TargetAllowed(list: seq<Repo>, val: string) {
    val == "" || FindRepo(list, val).Some?
  }

  /** The default target always passes the check in current_target=. */
  lemma DefaultTargetAllowed(list: seq<Repo>)
    ensures TargetAllowed(list, DefaultTarget(list))
    ensures DefaultTarget(list) != "" ==> |list| == 1 && DefaultTarget(list) == list[0].name
  {
    if |list| == 1 {
      assert Listed(list, list[0].name);
    }
  }

  /** `Repository.repositories.reject! { |repo| repo.name == name }` */
  function Reject(list: seq<Repo>, name: string): seq<Repo>
    decreases |list|
  {
    if list == [] then []
    else if list[0].name == name then Reject(list[1..], name)
    else [list[0]] + Reject(list[1..], name)
  }

  /** Every repository with the name goes; every other one stays. */
  lemma {:induction false} RejectSpec(list: seq<Repo>, name: string)
    ensures forall i :: 0 <= i < |Reject(list, name)| ==> Reject(list, name)[i].name != name && Reject(list, name)[i] in list
    ensures forall r :: r in list && r.name != name ==> r in Reject(list, name)
    decreases |list|
  {
    if list != [] {
      RejectSpec(list[1..], name);
      forall r | r in list && r.name != name ensures r in Reject(list, name) {
        if r != list[0] {
          var k :| 0 <= k < |list| && list[k] == r;
          assert list[1..][k - 1] == r;
        }
      }
    }
  }

  /** When names are distinct, rejecting one name removes exactly its repository, in place. */
  lemma {:induction false} RejectAt(list: seq<Repo>, i: nat)
    requires UniqueNames(list) && i < |list|
    ensures Reject(list, list[i].name) == list[..i] + list[i + 1..]
    decreases i, 1
  {
    if i == 0 {
      RejectFirst(list);
    } else {
      RejectLater(list, i);
    }
  }

  lemma RejectFirst(list: seq<Repo>)
    requires UniqueNames(list) && list != []
    ensures Reject(list, list[0].name) == list[1..]
  {
    var tail := list[1..];
    UniqueTail(list);
    forall j | 0 <= j < |tail| ensures tail[j].name != list[0].name {
      assert tail[j] == list[j + 1];
    }
    RejectNone(tail, list[0].name);
  }

  lemma {:induction false} RejectLater(list: seq<Repo>, i: nat)
    requires UniqueNames(list) && 0 < i < |list|
    ensures Reject(list, list[i].name) == list[..i] + list[i + 1..]
    decreases i, 0
  {
    var tail := list[1..];
    UniqueTail(list);
    assert list[0].name != list[i].name;
    assert tail[i - 1] == list[i];
    RejectAt(tail, i - 1);
    assert list[..i] == [list[0]] + tail[..i - 1];
    assert list[i + 1..] == tail[i..];
  }

  lemma UniqueTail(list: seq<Repo>)
    requires UniqueNames(list) && list != []
    ensures UniqueNames(list[1..])
    ensures forall j :: 0 <= j < |list[1..]| ==> list[1..][j] == list[j + 1]
  {
  }

  lemma {:induction false} RejectNone(list: seq<Repo>, name: string)
    requires forall i :: 0 <= i < |list| ==> list[i].name != name
    ensures Reject(list, name) == list
    decreases |list|
  {
    if list != [] {
      RejectNone(list[1..], name);
    }
  }

  /** Rejecting keeps the names distinct and valid. */
  lemma {:induction false} RejectKeepsNames(list: seq<Repo>, name: string)
    requires UniqueNames(list) && ValidNames(list)
    ensures UniqueNames(Reject(list, name)) && ValidNames(Reject(list, name))
    decreases |list|
  {
    if list != [] {
      var tail := list[1..];
      UniqueTail(list);
      assert ValidNames(tail) by {
        forall j | 0 <= j < |tail| ensures MatchesNamePattern(tail[j].name) {
          assert tail[j] == list[j + 1];
        }
      }
      RejectKeepsNames(tail, name);
      RejectSpec(tail, name);
      var rest := Reject(tail, name);
      if list[0].name != name {
        forall j | 0 <= j < |rest| ensures rest[j].name != list[0].name {
          var k :| 0 <= k < |tail| && tail[k] == rest[j];
          assert list[k + 1] == rest[j];
        }
        ConsKeepsNames(list[0], rest);
      }
    }
  }

  lemma ConsKeepsNames(r: Repo, rest: seq<Repo>)
    requires UniqueNames(rest) && ValidNames(rest) && MatchesNamePattern(r.name)
    requires forall j :: 0 <= j < |rest| ==> rest[j].name != r.name
    ensures UniqueNames([r] + rest) && ValidNames([r] + rest)
  {
    var kept := [r] + rest;
    forall a, b | 0 <= a < b < |kept| ensures kept[a].name != kept[b].name {
      assert kept[b] == rest[b - 1];
      if a > 0 {
        assert kept[a] == rest[a - 1];
      }
    }
  }

  // ---------------------------------------------------------------------------------------
  // Changes to the document

  /**
    The first two steps of write_yaml: `profile_data['current_profile'] = p` and
    `profile_data['profiles'][p] ||= {}`.
  */
  function Touched(d: Doc, p: string): Doc {
    Doc(Some(p), if p in Keys(d.profiles) then d.profiles else d.profiles + [(p, EmptySection)])
  }

  /**
    The rest of write_yaml: the section of `p` gets the target and the repository list;
    nothing else in it or elsewhere changes.
  */
  function Synced(d: Doc, p: string, target: string, list: seq<Repo>): Doc {
    var t := Touched(d, p);
    Doc(Some(p), Put(t.profiles, p, Section(Some(target), Some(SerializeRepos(list)))))
  }

  /**
    `Profile.current_profile_data['current_target'] = val`: changes the section when the
    profile has one; otherwise the assignment goes to a throwaway `{}` and is lost.
  */
  function AssignTarget(d: Doc, p: string, val: string): Doc {
    match Lookup(d.profiles, p)
    case Some(s) => d.(profiles := Put(d.profiles, p, s.(currentTarget := Some(val))))
    case None => d
  }

  /** `profile_data['profiles'].merge!(name => {})` */
  function Created(d: Doc, name: string): Doc {
    d.(profiles := Put(d.profiles, name, EmptySection))
  }

  /** `profile_data['current_profile'] = nil` and `profile_data['profiles'].delete name` */
  function Removed(d: Doc, name: string): Doc {
    Doc(None, Remove(d.profiles, name))
  }

  /**
    After write_yaml, the active profile is stored as current, its section holds the
    target and the list, every other section is as it was, and the document stays well formed.
  */
  lemma SyncedSpec(d: Doc, p: string, target: string, list: seq<Repo>)
    requires DocOk(d)
    ensures Synced(d, p, target, list).currentProfile == Some(p)
    ensures Lookup(Synced(d, p, target, list).profiles, p) ==
      Some(Section(Some(target), Some(SerializeRepos(list))))
    ensures forall q :: q != p ==> Lookup(Synced(d, p, target, list).profiles, q) == Lookup(d.profiles, q)
    ensures Keys(Synced(d, p, target, list).profiles) ==
      if p in Keys(d.profiles) then Keys(d.profiles) else Keys(d.profiles) + [p]
    ensures DocOk(Synced(d, p, target, list))
  {
    var section := Section(Some(target), Some(SerializeRepos(list)));
    if p !in Keys(d.profiles) {
      PutNew(d.profiles, p, EmptySection);
      PutUnique(d.profiles, p, EmptySection);
      PutAllValues(d.profiles, p, EmptySection, SectionOk);
    }
    var t := Touched(d, p);
    PutLookup(t.profiles, p, section);
    PutLookup(d.profiles, p, EmptySection);
    PutKeys(t.profiles, p, section);
    PutKeys(d.profiles, p, EmptySection);
    PutUnique(t.profiles, p, section);
    SerializeUniqueKeys(list);
    PutAllValues(t.profiles, p, section, SectionOk);
  }

  /** The assignment changes the target of an existing section and nothing else; without a section it is lost. */
  lemma AssignTargetSpec(d: Doc, p: string, val: string)
    requires DocOk(d)
    ensures p in Keys(d.profiles) ==>
      SectionOf(AssignTarget(d, p, val), p) == SectionOf(d, p).(currentTarget := Some(val))
    ensures p !in Keys(d.profiles) ==> AssignTarget(d, p, val) == d
    ensures forall q :: q != p ==> Lookup(AssignTarget(d, p, val).profiles, q) == Lookup(d.profiles, q)
    ensures Keys(AssignTarget(d, p, val).profiles) == Keys(d.profiles)
    ensures AssignTarget(d, p, val).currentProfile == d.currentProfile
    ensures DocOk(AssignTarget(d, p, val))
  {
    match Lookup(d.profiles, p)
    case Some(s) =>
      var s' := s.(currentTarget := Some(val));
      PutLookup(d.profiles, p, s');
      PutKeys(d.profiles, p, s');
      PutUnique(d.profiles, p, s');
      assert SectionOk(s) by {
        var i :| 0 <= i < |d.profiles| && d.profiles[i] == (p, s);
      }
      PutAllValues(d.profiles, p, s', SectionOk);
    case None =>
  }

  /** create: the name maps to an empty section, other sections and the current profile are kept. */
  lemma CreatedSpec(d: Doc, name: string)
    requires DocOk(d)
    ensures Lookup(Created(d, name).profiles, name) == Some(EmptySection)
    ensures forall q :: q != name ==> Lookup(Created(d, name).profiles, q) == Lookup(d.profiles, q)
    ensures Created(d, name).currentProfile == d.currentProfile
    ensures DocOk(Created(d, name))
  {
    PutLookup(d.profiles, name, EmptySection);
    PutUnique(d.profiles, name, EmptySection);
    PutAllValues(d.profiles, name, EmptySection, SectionOk);
  }

  /**
    remove: the name is gone, the other sections stay, and the next fallback is the first
    remaining profile, or 'default' when none remains.
  */
  lemma RemovedSpec(d: Doc, name: string)
    requires DocOk(d)
    ensures name !in Keys(Removed(d, name).profiles)
    ensures forall q :: q != name ==> Lookup(Removed(d, name).profiles, q) == Lookup(d.profiles, q)
    ensures DocOk(Removed(d, name))
    ensures FallbackProfile(Removed(d, name)) ==
      var others := if d.profiles != [] && d.profiles[0].0 == name then d.profiles[1..] else d.profiles;
      if others != [] then others[0].0 else "default"
  {
    RemoveLookup(d.profiles, name);
    RemoveUnique(d.profiles, name);
    RemoveAllValues(d.profiles, name, SectionOk);
    var a := d.profiles;
    if a != [] && a[0].0 == name && |a| >= 2 {
      assert a[1].0 != name;
      assert Remove(a, name) == Remove(a[1..], name);
      assert a[1..][0] == a[1];
    }
  }

  /** Touching adds an empty section for `p` when it has none and changes nothing else. */
  lemma TouchedSpec(d: Doc, p: string)
    requires DocOk(d)
    ensures SectionOf(Touched(d, p), p) == SectionOf(d, p)
    ensures p in Keys(Touched(d, p).profiles)
    ensures forall q :: q != p ==> Lookup(Touched(d, p).profiles, q) == Lookup(d.profiles, q)
    ensures DocOk(Touched(d, p))
  {
    if p !in Keys(d.profiles) {
      PutNew(d.profiles, p, EmptySection);
      PutLookup(d.profiles, p, EmptySection);
      PutUnique(d.profiles, p, EmptySection);
      PutAllValues(d.profiles, p, EmptySection, SectionOk);
    }
  }

  /** The section of the profile that is current in a document, read back. */
  lemma SectionOfSynced(d: Doc, p: string, target: string, list: seq<Repo>)
    requires DocOk(d) && UniqueNames(list) && ValidNames(list)
    ensures FallbackProfile(Synced(d, p, target, list)) == p
    ensures SectionOf(Synced(d, p, target, list), p).currentTarget == Some(target)
    ensures ParseRepos(ReposOf(SectionOf(Synced(d, p, target, list), p))) == Success(list)
  {
    SyncedSpec(d, p, target, list);
    ReposRoundTrip(list);
  }
}
