/**
  A repository of dotfiles: its name, which must pass the check in Repository#initialize,
  and the parsing of `git status --porcelain` output (lib/dotty/repository.rb).
*/
module Repository {
  import opened Wrappers
  import opened Errors
  import opened Paths
  import opened Assoc

  datatype Repo = Repo(name: string, url: string)

  predicate IsNameChar(c: char) {
    'a' <= c <= 'z' || 'A' <= c <= 'Z' || '0' <= c <= '9' || c == '.' || c == '-' || c == '_'
  }

  /** One line made only of name characters, at least one of them. */
  predicate IsNameLine(line: string) {
    line != "" && forall i :: 0 <= i < |line| ==> IsNameChar(line[i])
  }

  /**
    `name =~ /^[a-zA-Z0-9\.\-\_]+$/`. Ruby's `^` and `$` match at every line boundary,
    so the name passes when any one of its lines is a valid name.
  */
  predicate MatchesNamePattern(name: string) {
    exists line :: line in SplitOn(name, '\n') && IsNameLine(line)
  }

  /** Repository.new (lines 89-95): raises InvalidRepositoryNameError unless the name passes. */
  function NewRepository(name: string, url: string): Result<Repo, Error> {
    if MatchesNamePattern(name) then Success(Repo(name, url))
    else Failure(InvalidRepositoryNameError(InvalidNameMessage))
  }

  /**
    A name without line breaks is accepted exactly when it is non-empty and made only of
    letters, digits, `.`, `-` and `_`; the repository then keeps the name and url given.
  */
  lemma NameCheck(name: string, url: string)
    requires '\n' !in name
    ensures NewRepository(name, url).Success? <==> IsNameLine(name)
    ensures NewRepository(name, url).Success? ==> NewRepository(name, url).value == Repo(name, url)
    ensures NewRepository(name, url).Failure? ==>
      NewRepository(name, url).error == InvalidRepositoryNameError(InvalidNameMessage)
  {
    SplitOnNoSeparator(name, '\n');
  }

  /** `Repository.new('repo a', ...)` raises InvalidRepositoryNameError. */
  lemma SpaceInNameRejected(url: string)
    ensures NewRepository("repo a", url) == Failure(InvalidRepositoryNameError(InvalidNameMessage))
  {
    NameCheck("repo a", url);
    assert !IsNameChar("repo a"[4]);
  }

  /**
    The line anchors let a name through when one of its lines is valid, whatever the line
    before it holds: `"repo a\nok"` passes although `"repo a"` does not.
  */
  lemma MultiLineNameAccepted(first: string, valid: string, url: string)
    requires '\n' !in first && IsNameLine(valid)
    ensures NewRepository(first + "\n" + valid, url) == Success(Repo(first + "\n" + valid, url))
  {
    assert '\n' !in valid;
    SplitOnField(first, '\n', valid);
    SplitOnNoSeparator(valid, '\n');
    assert valid in SplitOn(first + "\n" + valid, '\n');
  }

  // ---------------------------------------------------------------------------------------
  // git_status

  /** Trailing empty fields removed. */
  function DropTrailingEmpty(fields: seq<string>): (lines: seq<string>)
    ensures lines <= fields
    ensures lines == [] || lines[|lines| - 1] != ""
    ensures forall i :: |lines| <= i < |fields| ==> fields[i] == ""
  {
    if fields == [] then []
    else if fields[|fields| - 1] == "" then DropTrailingEmpty(fields[..|fields| - 1])
    else fields
  }

  /** `output.split("\n")`: the lines, without the empty ones at the end. */
  function Lines(output: string): seq<string> {
    DropTrailingEmpty(SplitOn(output, '\n'))
  }

  /**
    Splitting lines that were joined with newlines gives them back, whether or not the
    output ends with a newline, as long as the last line is not empty.
  */
  lemma LinesJoin(lines: seq<string>)
    requires lines != [] && lines[|lines| - 1] != ""
    requires forall i :: 0 <= i < |lines| ==> '\n' !in lines[i]
    ensures Lines(Join(lines, "\n")) == lines
    ensures Lines(Join(lines, "\n") + "\n") == lines
  {
    SplitOnJoin(lines, '\n');
    JoinSnoc(lines, "", "\n");
    assert Join(lines, "\n") + "\n" == Join(lines + [""], "\n");
    SplitOnJoin(lines + [""], '\n');
    assert (lines + [""])[..|lines|] == lines;
  }

  /** `line[0..1]`: the two status letters, or fewer on a short line. */
  function ChangeType(line: string): string {
    if |line| <= 2 then line else line[..2]
  }

  /** `line[3..-1]`: the file name after the status letters and a space; nil on a line shorter than 3. */
  function FileOf(line: string): Option<string> {
    if |line| >= 3 then Some(line[3..]) else None
  }

  /** Each line as its file and its change type, in order. */
  function StatusEntries(lines: seq<string>): seq<(Option<string>, string)> {
    seq(|lines|, i requires 0 <= i < |lines| => (FileOf(lines[i]), ChangeType(lines[i])))
  }

  /** No later line names the same file as line `i`. */
  predicate LastLineOfItsFile(lines: seq<string>, i: int)
    requires 0 <= i < |lines|
  {
    forall j :: i < j < |lines| ==> FileOf(lines[j]) != FileOf(lines[i])
  }

  /** git_status (lines 136-142): `file => change_type` merged line by line. */
  function GitStatus(output: string): map<Option<string>, string> {
    ToMap(StatusEntries(Lines(output)))
  }

  /**
    Every line contributes its file as a key; a file's change type is the one on its last
    line; no other key appears.
  */
  lemma GitStatusSpec(output: string)
    ensures forall f :: f in GitStatus(output) <==> exists line :: line in Lines(output) && FileOf(line) == f
    ensures forall i :: 0 <= i < |Lines(output)| && LastLineOfItsFile(Lines(output), i) ==>
      GitStatus(output)[FileOf(Lines(output)[i])] == ChangeType(Lines(output)[i])
  {
    StatusKeys(Lines(output));
    StatusLastLine(Lines(output));
  }

  lemma StatusKeys(lines: seq<string>)
    ensures forall f :: f in ToMap(StatusEntries(lines)) <==> exists line :: line in lines && FileOf(line) == f
  {
    var entries := StatusEntries(lines);
    ToMapSpec(entries);
    forall f ensures f in ToMap(entries) <==> exists line :: line in lines && FileOf(line) == f {
      if f in ToMap(entries) {
        var i :| 0 <= i < |entries| && entries[i].0 == f;
        assert lines[i] in lines;
      }
      if exists line :: line in lines && FileOf(line) == f {
        var line :| line in lines && FileOf(line) == f;
        var i :| 0 <= i < |lines| && lines[i] == line;
        assert entries[i].0 == f;
      }
    }
  }

  lemma StatusLastLine(lines: seq<string>)
    ensures forall i :: 0 <= i < |lines| && LastLineOfItsFile(lines, i) ==>
      FileOf(lines[i]) in ToMap(StatusEntries(lines)) &&
      ToMap(StatusEntries(lines))[FileOf(lines[i])] == ChangeType(lines[i])
  {
    var entries := StatusEntries(lines);
    ToMapSpec(entries);
    forall i | 0 <= i < |lines| && LastLineOfItsFile(lines, i)
      ensures FileOf(lines[i]) in ToMap(entries) && ToMap(entries)[FileOf(lines[i])] == ChangeType(lines[i])
    {
      assert entries[i] == (FileOf(lines[i]), ChangeType(lines[i]));
      forall j | i < j < |entries| ensures entries[j].0 != entries[i].0 {
        assert entries[j].0 == FileOf(lines[j]);
      }
    }
  }

  /** The output of spec/repository_spec.rb:231 parses to `{'gvimrc' => ' D', 'a' => '??'}`. */
  lemma GitStatusExample()
    ensures GitStatus(" D gvimrc\n?? a\n") == map[Some("gvimrc") := " D", Some("a") := "??"]
  {
    LinesJoin([" D gvimrc", "?? a"]);
    assert Join([" D gvimrc", "?? a"], "\n") + "\n" == " D gvimrc\n?? a\n";
    var entries := StatusEntries([" D gvimrc", "?? a"]);
    assert " D gvimrc"[3..] == "gvimrc" && " D gvimrc"[..2] == " D";
    assert "?? a"[3..] == "a" && "?? a"[..2] == "??";
    assert entries == [(Some("gvimrc"), " D"), (Some("a"), "??")];
    ToMapSnoc([(Some("gvimrc"), " D")], (Some("a"), "??"));
    ToMapSnoc([], (Some("gvimrc"), " D"));
    assert [(Some("gvimrc"), " D")] == [] + [(Some("gvimrc"), " D")];
    assert entries == [(Some("gvimrc"), " D")] + [(Some("a"), "??")];
  }
}
