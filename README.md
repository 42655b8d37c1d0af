# dotty, modelled in Dafny

dotty manages dotfile repositories. Each *profile* lists git repositories, stored in
`~/.dotty/.profiles.yml` with a current target per profile. Each repository's files are
linked into the home directory, as its `*dotfiles/` directories and its
`dotty-symlinks.yml` describe. This project models the core of dotty and proves
properties of the model:

- The `Repository` class (`lib/dotty/repository.rb`):
  - the repository-name check;
  - how the symlink map is computed from the repository tree and the YAML declarations;
  - `destination_path`, which inverts that map for one file;
  - the `git status --porcelain` parser.
- The class-level registry shared by `Repository` and `Profile` (`lib/dotty/profile.rb`):
  - lazily cached profile data, current profile and repository list;
  - adding, finding, destroying and importing repositories;
  - the current target and its reset;
  - creating, finding and removing profiles;
  - `write_yaml`, which writes the registry back into the active profile.
- `RepositoryActions` (`lib/dotty/repository_actions.rb`) and `remove_symlink`
  (`lib/dotty/helpers.rb`), over an abstract file system:
  - bootstrap, implode and destroy;
  - the git command lines emitted by checkout, create, update and update_submodules.

Modules:

| module | file | contents |
|---|---|---|
| `Wrappers`, `Errors` | wrappers.dfy, errors.dfy | `Option` stands for nil and `Result` for a raise. Errors are `Dotty::Error` and `InvalidRepositoryNameError`, each with the source's message, and `UndefinedErrorHelper`, the NoMethodError of the one call of `error` in `Repository`. |
| `Paths`, `Assoc` | paths.dfy, assoc.dfy | Paths are split into components. `Assoc` is an ordered hash: a sequence of key/value pairs in which a merge keeps the key's position. |
| `Repository` | repository.dfy | The name check and `git_status`. |
| `Dotfiles` | scan.dfy | The repository tree as a datatype. Covers `symlinks_from_dotfiles_directories` (a method with loops, proved equal to a recursive specification), `symlinks` and `destination_path`. |
| `Profiles` | profiles.dfy | The typed `.profiles.yml` document and the pure transformations that `create`, `remove`, `current_target=` and `write_yaml` apply to it. |
| `Session` | session.dfy | One function per class method, from the state (stored file plus the three caches) to the result and the next state. The lemmas about them are here. |
| `Registry` | registry.dfy | Class `Store`. Its methods update the cached state in place, step by step as the Ruby does, and each ensures it ends in the state its `Session` function describes. |
| `Actions` | actions.dfy | Class `Machine`: the file system, the commands run and the status lines. Pure functions state what bootstrap, implode and remove_symlink do to the file system. |

## Model

| member | source | states |
|---|---|---|
| Repository.NameCheck | lib/dotty/repository.rb:89-95 | A name without a line break is accepted exactly when it is non-empty and made only of letters, digits, `.`, `-` and `_`. An accepted repository keeps the given name and url; a rejected one raises InvalidRepositoryNameError with the source's message. |
| Repository.SpaceInNameRejected | spec/repository_spec.rb:187-191 | `'repo a'` is rejected with InvalidRepositoryNameError. |
| Repository.MultiLineNameAccepted | lib/dotty/repository.rb:90 | `^…$` anchors lines: a two-line name whose second line is a valid name is accepted whole, whatever its first line holds. |
| Repository.LinesJoin | lib/dotty/repository.rb:138 | Splitting newline-joined lines returns them, with or without a final newline. |
| Repository.DropTrailingEmpty | lib/dotty/repository.rb:138 | `split` drops only the empty fields at the end, and the kept lines are a prefix of the fields. |
| Repository.GitStatusSpec | lib/dotty/repository.rb:136-142 | The keys are exactly the files named by the lines. A file's change type comes from the last line that names it. |
| Repository.GitStatusExample | spec/repository_spec.rb:231-235 | `" D gvimrc\n?? a\n"` parses to `{gvimrc => " D", a => "??"}`. |
| Dotfiles.SymlinksFromDotfilesDirectories | lib/dotty/repository.rb:110-134 | The nested loops with `merge!` build exactly the map of `Scan`. |
| Dotfiles.MergeRootFiles | lib/dotty/repository.rb:116-121 | The loop over a dotfiles directory's children adds exactly its non-placeholder children. |
| Dotfiles.MergeInPlusPaths | lib/dotty/repository.rb:124-131 | The loop over the `in+*/**/*` glob adds exactly the entries that pass the filters. |
| Dotfiles.ScanIsTargetMap | lib/dotty/repository.rb:110-134 | A key is in the map exactly when it is a source: a non-`in+` child of a top-level `*dotfiles` directory, or an unfiltered entry below an `in+` directory. Each source maps to its path below the dotfiles directory with every `in+` removed. |
| Dotfiles.ScanOrderIndependent | lib/dotty/repository.rb:112 | The order in which the glob visits the directories does not change the map. |
| Dotfiles.RootChildLinked | lib/dotty/repository.rb:116-121 | Each non-placeholder child `c` of a dotfiles directory `d` maps `d/c => c`. |
| Dotfiles.InPlusEntryLinked | lib/dotty/repository.rb:124-131 | Every unfiltered entry at any depth below an `in+` directory maps to its relative path with `in+` removed. |
| Dotfiles.ScanSourceShape | lib/dotty/repository.rb:116-131 | Every source comes from some dotfiles directory and one of its children, by one of the two rules. A root child is listed whenever its name does not start a line with `in+`; the `..` and `/.` filters apply only to the entries below an `in+` directory, so only those are free of `..`, of a trailing `/.` and of an `in+` basename. |
| Dotfiles.DirEntriesSpec | lib/dotty/repository.rb:115-131 | The merges for one dotfiles directory have, as keys, its root sources and its `in+` sources. |
| Dotfiles.InPlusPathsSpec | lib/dotty/repository.rb:124 | The glob `in+*/**/*` lists exactly the paths of length at least two that start at an `in+` child and lead down its tree. |
| Dotfiles.RemoveInPlusJoin | lib/dotty/repository.rb:129 | `in+` contains no `/`, so removing it from the joined path removes it from each component. |
| Dotfiles.SymlinksSpec | lib/dotty/repository.rb:101-108 | `symlinks` is the scan overridden key by key by the YAML map. It is empty exactly when the YAML is missing or empty and the scan finds nothing. |
| Dotfiles.DestinationPath | lib/dotty/repository.rb:188-195 | The loop appends `dotfiles`, `in+` plus each directory component (skipping `.`) and the basename: it computes `Destination`. |
| Dotfiles.DestinationRoundTrip | lib/dotty/repository.rb:188-195 | Removing `in+` from the encoded path gives back the original path without `.` components. |
| Dotfiles.TrackedFileIsLinked | lib/dotty/repository.rb:110-134 | A file stored at `destination_path` under `dotfiles` is found by the scan. It links back to its original home-relative path. |
| Profiles.ParseRepos | lib/dotty/repository.rb:35 | `list` succeeds exactly when every stored name passes the name check. It yields one repository per entry, in order, else the name error. |
| Profiles.FindRepo | lib/dotty/repository.rb:38-40 | `find` returns a repository exactly when one is listed with that name, and it is the first such one. |
| Profiles.ReposRoundTrip | lib/dotty/profile.rb:44 | Writing a list of distinct valid names as `name => url` and reading it back gives the same list. |
| Profiles.DefaultTargetAllowed | lib/dotty/repository.rb:63-65 | The default target is the only repository's name, or `''`; either one `current_target=` accepts. |
| Profiles.RejectSpec | lib/dotty/repository.rb:166 | `reject!` keeps exactly the repositories with another name: each kept one has another name and was listed, and each listed one with another name is kept. |
| Profiles.RejectAt | lib/dotty/repository.rb:166 | With distinct names, rejecting the name of the repository at position `i` cuts exactly that entry out and keeps the others in order. |
| Profiles.RejectKeepsNames | lib/dotty/repository.rb:166 | After `reject!` the listed names are still distinct and each still passes the name check. |
| Profiles.SyncedSpec | lib/dotty/profile.rb:40-45 | Syncing sets the stored current profile and gives only the active section the target and the repositories. Every other profile is unchanged, and the document stays well formed. |
| Profiles.TouchedSpec | lib/dotty/profile.rb:41-42 | `h[p] ||= {}` adds an empty section for the active profile only when it has none. |
| Profiles.AssignTargetSpec | lib/dotty/profile.rb:32-34 | The assignment reaches the document only when the active profile has a section. Otherwise it goes into a throwaway `{}`. |
| Profiles.CreatedSpec | lib/dotty/profile.rb:9 | `create` maps the name to an empty section, in place if it exists, else at the end; other profiles are untouched. |
| Profiles.RemovedSpec | lib/dotty/profile.rb:15-16 | `remove` deletes the profile and clears the stored current profile. The fallback becomes the first remaining profile, else `'default'`. |
| Session.CachesSettle | lib/dotty/profile.rb:20-26 | `profile_data` and `current_profile` are computed once and then cached. A later change to the file is not seen. With no file they are `{'profiles' => {}}` and `'default'`. |
| Session.ListOp | lib/dotty/repository.rb:34-36 | `list` returns the listing, caches it, and changes nothing else. |
| Session.FindOp | lib/dotty/repository.rb:38-40 | `find` fills only the caches and returns the first repository with the name. |
| Session.DefaultTargetOp | lib/dotty/repository.rb:63-65 | `default_target` is the only repository's name, else `''`. |
| Session.CurrentTargetOp | lib/dotty/repository.rb:46-48 | The stored target wins, even `''`; otherwise the default target. |
| Session.FindProfileOp | lib/dotty/profile.rb:52-54 | `find!` returns the section, or raises "Profile '<name>' does not exist". |
| Session.ListingOk | lib/dotty/repository.rb:35 | The listed repositories always have distinct, valid names. |
| Session.WriteYamlSpec | lib/dotty/profile.rb:40-50 | `write_yaml` succeeds exactly when the list loads. The file then holds the synced document and memory and disk agree; on failure the file is not touched. |
| Session.WriteYamlFailure | lib/dotty/profile.rb:40-50 | `write_yaml` fails only when the list fails to load, and with the list's error. |
| Session.ReloadAfterWrite | lib/dotty/profile.rb:47-49 | After a write, a fresh process reads back the same current profile, target and list. |
| Session.SetCurrentTargetSpec | lib/dotty/repository.rb:50-56 | `current_target=` raises when the value is non-empty and unlisted, leaving data and file alone. Otherwise it stores the value (the default target when the section was missing) and writes; other profiles are unchanged. |
| Session.AssignAndWriteSpec | lib/dotty/repository.rb:54-55 | The assignment followed by `write_yaml` succeeds exactly when the list loads. The file then holds the value as the active profile's target (the default target when the section was missing), memory and disk agree, and the other profiles are unchanged. |
| Session.ResetCurrentTargetSpec | lib/dotty/repository.rb:67-71 | A listed target is kept and nothing is written. An unlisted one is replaced by the default target. Afterwards the target is allowed. |
| Session.ResetToDefault | lib/dotty/repository.rb:67-71 | When the current target names no listed repository, the reset succeeds and the target becomes the default target, written to disk. |
| Session.AddRepositorySpec | lib/dotty/repository.rb:17-26 | Adding succeeds exactly when the name is free and valid: the list grows by that repository at the end and is written. A taken name raises "There is already a repository with that name" before any write. |
| Session.DestroySpec | lib/dotty/repository.rb:165-167 | Destroy removes every repository with the name from the cached list and writes the result. |
| Session.CreateProfileSpec | lib/dotty/profile.rb:8-11 | `create` succeeds when the list loads. The profile then exists, is empty unless it is the active profile (whose section `write_yaml` fills), and the other profiles are unchanged. |
| Session.RemoveProfileSpec | lib/dotty/profile.rb:13-18 | An unknown name raises before any change. Otherwise the new current profile is the fallback, the removed profile comes back only if it is that fallback, and the cached list is written into the new profile. |
| Session.ImportIntoSpec | lib/dotty/repository.rb:78-84 | Import adds, in order, each entry whose name is not yet listed and keeps the existing list as a prefix. |
| Session.ImportSpec | lib/dotty/repository.rb:73-85 | Nothing to import fails before any change, on the call `error "Didn't find any repositories at '<location>'"` (`UndefinedErrorHelper`). On success every imported name is listed. |
| Registry.Store.ProfileData | lib/dotty/profile.rb:20-22 | Fills the `@profile_data` cache in place, as `Session.Data` describes. |
| Registry.Store.CurrentProfile | lib/dotty/profile.rb:24-26 | Fills the `@current_profile` cache in place. |
| Registry.Store.Profiles | lib/dotty/profile.rb:28-30 | Returns the profile names in insertion order. |
| Registry.Store.CurrentProfileData | lib/dotty/profile.rb:32-34 | Returns the active section or `{}`. |
| Registry.Store.FindProfile | lib/dotty/profile.rb:52-54 | Runs `find!` in place, as `FindProfileOp`. |
| Registry.Store.List | lib/dotty/repository.rb:34-36 | Runs `list` in place, as `ListOp`. |
| Registry.Store.Find | lib/dotty/repository.rb:38-40 | Runs `find` in place, as `FindOp`. |
| Registry.Store.DefaultTarget | lib/dotty/repository.rb:63-65 | Runs `default_target` in place, as `DefaultTargetOp`. |
| Registry.Store.CurrentTarget | lib/dotty/repository.rb:46-48 | Runs `current_target` in place, as `CurrentTargetOp`. |
| Registry.Store.WriteYaml | lib/dotty/profile.rb:40-50 | Runs `write_yaml`'s in-place merges, as `WriteYamlOp`. |
| Registry.Store.TouchCurrentSection | lib/dotty/profile.rb:41-42 | Adds the empty section for the current profile in place when it has none, and returns that profile. |
| Registry.Store.AssignCurrentTarget | lib/dotty/repository.rb:54 | Assigns the target in the cached document in place, as `AssignTarget` says. |
| Registry.Store.SetCurrentTarget | lib/dotty/repository.rb:50-56 | Runs `current_target=` in place, as `SetCurrentTargetOp`. |
| Registry.Store.ResetCurrentTarget | lib/dotty/repository.rb:67-71 | Runs `reset_current_target` in place, as `ResetCurrentTargetOp`. |
| Registry.Store.AddRepository | lib/dotty/repository.rb:17-26 | Runs `add_repository` (append to the cache, write, reset), as `AddRepositoryOp`. |
| Registry.Store.SaveAdded | lib/dotty/repository.rb:22-25 | Appends the repository to the cached list, writes and resets the target, as `Session.SaveAdded`. |
| Registry.Store.Destroy | lib/dotty/repository.rb:165-167 | Runs `reject!` and the write, as `DestroyOp`. |
| Registry.Store.CreateProfile | lib/dotty/profile.rb:8-11 | Runs `create`, as `CreateProfileOp`. |
| Registry.Store.RemoveProfile | lib/dotty/profile.rb:13-18 | Runs `remove`, as `RemoveProfileOp`. |
| Registry.Store.Import | lib/dotty/repository.rb:73-85 | Runs the import loop, as `ImportOp`. |
| Registry.Store.ImportEntry | lib/dotty/repository.rb:78-84 | One pass of the import loop: a listed name is skipped, another is added; what remains to do is `ImportEach` of the later entries. |
| Registry.Store.LocalPath | lib/dotty/repository.rb:97-99 | `local_path` is the root path, the current profile and the name, joined with `/`. |
| Actions.RemoveSymlinkSpec | lib/dotty/helpers.rb:7-17 | The path is deleted exactly when it is a link to something that exists. Nothing else is touched, the path is no longer a live link, and a second call changes nothing. |
| Actions.DanglingSymlinkKept | lib/dotty/helpers.rb:8 | A dangling link stays and nothing is reported, because `File.exist?` follows it. |
| Actions.NonSymlinkKept | lib/dotty/helpers.rb:12-13 | An existing non-link stays, with the "remove" and the "is not a symlink - not removing" statuses. |
| Actions.Machine.RemoveSymlink | lib/dotty/helpers.rb:7-17 | Deletes in place and reports as `AfterRemoveSymlink` and `RemoveSymlinkStatus` say. |
| Actions.WithDirsSpec | lib/dotty/repository_actions.rb:42 | `mkdir_p` keeps every entry and creates every missing leading directory, and nothing else. |
| Actions.LinkedSpec | lib/dotty/repository_actions.rb:42 | `create_link` makes the destination a link to the source, creates every directory above it, and changes no other entry. |
| Actions.BootstrapLinks | lib/dotty/repository_actions.rb:41-43 | After bootstrap, each entry not overridden by a later one with the same destination has its home destination linked to its source in the repository. Every directory above that destination exists. |
| Actions.BootstrapKeeps | lib/dotty/repository_actions.rb:41-43 | Bootstrap removes nothing and changes no entry that is not a destination. |
| Actions.Machine.Bootstrap | lib/dotty/repository_actions.rb:37-53 | Creates the links one by one, as `BootstrapFs` says. It runs `thor dotty_repository:bootstrap` inside the repository exactly when `dotty-repository.thor` exists there. |
| Actions.ImplodeSpec | lib/dotty/repository_actions.rb:60-63 | Implode only removes links at destinations, and leaves no destination as a live link. |
| Actions.Machine.Implode | lib/dotty/repository_actions.rb:56-72 | Runs remove_symlink on every destination, as `ImplodeFs` says. It runs `thor dotty_repository:implode` exactly when `dotty-repository.thor` exists. |
| Actions.RemoveTree | lib/dotty/repository_actions.rb:23 | `rm_rf` removes the path and everything below it, and nothing else. |
| Actions.Machine.Destroy | lib/dotty/repository_actions.rb:19-24 | Implode, then remove the repository's directory tree. The file system ends as `RemoveTree` of `ImplodeFs`, and `thor dotty_repository:implode` is run inside the repository exactly when `dotty-repository.thor` exists once the links are gone. |
| Actions.Machine.Checkout | lib/dotty/repository_actions.rb:27-34 | Makes the directory, runs `git clone <url> <path>`, then runs `git submodule update --init` inside it. |
| Actions.Machine.Create | lib/dotty/repository_actions.rb:9-16 | Makes the directory, runs `git init <path>`, then runs `git remote add origin <url>` inside it. |
| Actions.Machine.Update | lib/dotty/repository_actions.rb:75-81 | Runs `git fetch && git pull && git submodule update --init` inside the repository. Thor's `inside` first makes the repository's directory and any missing parents (`WithDirs`); nothing else in the file system changes. |
| Actions.SubmoduleCommandsSpec | lib/dotty/repository_actions.rb:91-101 | The command always starts with the submodule update and pull. It commits exactly when commit is set; it raises exactly when commit is set, ignoredirty is not, and the status output is non-empty; it pushes exactly when commit and push are both set. |
| Actions.DefaultSubmoduleCommandLine | spec/repository_actions_spec.rb:156-161 | With commit, no push and a clean status, the line is the submodule update, the pull and `git commit -am 'Updated submodules'`, joined with ` && `. The constants `SubmoduleInit` and `SubmodulePull` spell `git submodule update --init` and `git submodule foreach git pull origin master`, as the expected line does. |
| Actions.Machine.UpdateSubmodules | lib/dotty/repository_actions.rb:88-105 | Builds the parts with `<<` under the flag checks. It runs `git status -s` when committing, then the parts joined with ` && `, or raises and runs nothing more. Thor's `inside` first makes the repository's directory when it is missing (`WithDirs`), on both outcomes. |

## Left out

- YAML parsing and serialisation, reading and writing `.profiles.yml`, and fetching the import location are not modelled. The stored document is a typed value, and the parsed import entries are a parameter.
- The document always has a `profiles` hash. The model does not cover a section that is `nil` or holds keys other than `current_target` and `repositories`, nor a stored `url` that is missing.
- `add_existing_repository` and `create_repository` are not composed in the model: they are `add_repository` followed by the actions `checkout`/`bootstrap` or `create`. So `Registry.Store.Import` adds the entries to the registry but does not clone or bootstrap them.
- `Registry.Store.Import`: `Repository` does not include `Dotty::Helpers` (lib/dotty/helpers.rb:3-5), so its call of `error` raises NoMethodError rather than exiting. That exception is modelled as `UndefinedErrorHelper`, carrying the intended message, which is never shown; Ruby's own NoMethodError text is not modelled. The "Not adding" line printed for a listed name is not modelled.
- `Registry.Store.Destroy` requires the repository list to be cached already. In the source, `reject!` on an unfilled `@repositories` fails on `nil`.
- The actions half of `Repository#destroy` (`Repository.actions.destroy self`) is `Actions.Machine.Destroy`. The two halves are not composed into one call.
- `current_target_repo`, `unpushed_changes?`, `git_status_output`, `has_thor_task?`, `can_write_to_repo?`, `invoke_action`, `track_file` and `copy_and_link` run real processes or touch the real disk. They are not modelled; `has_thor_task?`'s test is the `dotty-repository.thor` check inside the bootstrap and implode hooks. lib/dotty/app.rb is not part of this model.
- git, thor and the shell are not modelled. A command is recorded as the line run and the directory it runs in, and the output of `git status -s` is a parameter.
- Actions.Machine.CreateLink: Thor's `create_link` prompts on a conflict. The model always replaces the destination, as a forced conflict does, and does not model the "identical" case or Thor's own status lines.
- Actions.WithDirsSpec: `mkdir_p` keeps an existing entry even when it is a file or a link. The real call would fail on a file and follow a link to a directory. Paths through symbolic links to directories are not resolved.
- Thor prints status lines of its own: `run` prints one per command, and `create_link` prints its own. `statuses` holds only the `say_status` calls in dotty's own code.
- Bootstrap and implode enter the repository's directory only when `dotty-repository.thor` exists in it, so Thor's `inside` has no directory to make there and the model records none.
- Actions.Machine.Implode and Actions.Machine.Destroy do not state their status lines in their contracts. `say "update submodules"` prints no status and is left out.
- `File.join`'s collapsing of doubled slashes, and `Pathname` normalisation, are not modelled. Paths are sequences of components, and `File.exist?` gives up after 40 link hops.
- The symlink map is a Dafny `map`, so it does not keep the hash's insertion order. `Actions.Machine.Bootstrap` takes the entries as an ordered sequence, and only entries with the same destination depend on that order.
- Console output (`puts`, colours, padding) is not modelled.
