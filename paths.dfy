/**
  Strings and paths. A path is kept as its components (`a/b/c` is ["a", "b", "c"]);
  `Join` and `SplitOn` convert between the two forms, and the lemmas below show the
  conversion loses nothing as long as no component holds the separator.
*/
module Paths {

  type Path = seq<string>

  predicate StartsWith(s: string, prefix: string) {
    |prefix| <= |s| && s[..|prefix|] == prefix
  }

  predicate EndsWith(s: string, suffix: string) {
    |suffix| <= |s| && s[|s| - |suffix|..] == suffix
  }

  /** `part` occurs somewhere in `s`. */
  predicate Contains(s: string, part: string)
    decreases |s|
  {
    StartsWith(s, part) || (s != [] && Contains(s[1..], part))
  }

  function Last(p: Path): string
    requires p != []
  {
    p[|p| - 1]
  }

  /** Ruby's `parts.join(sep)`. */
  function Join(parts: seq<string>, sep: string): string
    decreases |parts|
  {
    if parts == [] then ""
    else if |parts| == 1 then parts[0]
    else parts[0] + sep + Join(parts[1..], sep)
  }

  /** Every field between two occurrences of `sep`, empty fields included. */
  function SplitOn(s: string, sep: char): (fields: seq<string>)
    ensures |fields| >= 1
    decreases |s|
  {
    if s == [] then [""]
    else
      var rest := SplitOn(s[1..], sep);
      if s[0] == sep then [""] + rest
      else [[s[0]] + rest[0]] + rest[1..]
  }

  /** The string as components, joined with '/'; the leading '/' of an absolute path. */
  function Absolute(p: Path): string {
    "/" + Join(p, "/")
  }

  lemma {:induction false} JoinCons(head: string, tail: seq<string>, sep: string)
    requires tail != []
    ensures Join([head] + tail, sep) == head + sep + Join(tail, sep)
  {
    assert ([head] + tail)[1..] == tail;
  }

  /** Joining the fields again gives back the string that was split. */
  lemma {:induction false} JoinSplitOn(s: string, sep: char)
    ensures Join(SplitOn(s, sep), [sep]) == s
    decreases |s|
  {
    if s != [] {
      JoinSplitOn(s[1..], sep);
      if s[0] == sep {
        JoinSplitOnSeparator(s, sep);
      } else {
        JoinSplitOnField(s, sep);
      }
    }
  }

  lemma JoinSplitOnSeparator(s: string, sep: char)
    requires s != [] && s[0] == sep && Join(SplitOn(s[1..], sep), [sep]) == s[1..]
    ensures Join(SplitOn(s, sep), [sep]) == s
  {
    var rest := SplitOn(s[1..], sep);
    assert SplitOn(s, sep) == [""] + rest;
    JoinCons("", rest, [sep]);
    assert [sep] + s[1..] == s;
  }

  lemma JoinSplitOnField(s: string, sep: char)
    requires s != [] && s[0] != sep && Join(SplitOn(s[1..], sep), [sep]) == s[1..]
    ensures Join(SplitOn(s, sep), [sep]) == s
  {
    var rest := SplitOn(s[1..], sep);
    assert SplitOn(s, sep) == [[s[0]] + rest[0]] + rest[1..];
    JoinFirstField(s[0], rest, [sep]);
    assert [s[0]] + s[1..] == s;
  }

  /** Putting a character in front of the first field puts it in front of the joined string. */
  lemma JoinFirstField(c: char, fields: seq<string>, sep: string)
    requires |fields| >= 1
    ensures Join([[c] + fields[0]] + fields[1..], sep) == [c] + Join(fields, sep)
  {
    var field := [c] + fields[0];
    if |fields| == 1 {
      assert [field] + fields[1..] == [field];
    } else {
      JoinCons(field, fields[1..], sep);
      JoinCons(fields[0], fields[1..], sep);
      assert [fields[0]] + fields[1..] == fields;
    }
  }

  lemma {:induction false} SplitOnNoSeparator(a: string, sep: char)
    requires sep !in a
    ensures SplitOn(a, sep) == [a]
    decreases |a|
  {
    if a != [] {
      SplitOnNoSeparator(a[1..], sep);
      assert [a[0]] + a[1..] == a;
    }
  }

  lemma {:induction false} SplitOnField(a: string, sep: char, t: string)
    requires sep !in a
    ensures SplitOn(a + [sep] + t, sep) == [a] + SplitOn(t, sep)
    decreases |a|
  {
    var s := a + [sep] + t;
    if a == [] {
      assert s[0] == sep && s[1..] == t;
    } else {
      assert s[0] == a[0] && s[1..] == a[1..] + [sep] + t;
      SplitOnField(a[1..], sep, t);
      assert [a[0]] + a[1..] == a;
    }
  }

  /** Splitting a join gives back the parts, when no part holds the separator. */
  lemma {:induction false} SplitOnJoin(parts: seq<string>, sep: char)
    requires parts != []
    requires forall i :: 0 <= i < |parts| ==> sep !in parts[i]
    ensures SplitOn(Join(parts, [sep]), sep) == parts
    decreases |parts|
  {
    if |parts| == 1 {
      SplitOnNoSeparator(parts[0], sep);
    } else {
      SplitOnJoin(parts[1..], sep);
      SplitOnField(parts[0], sep, Join(parts[1..], [sep]));
      assert [parts[0]] + parts[1..] == parts;
    }
  }

  /** An occurrence of `p + q` is also an occurrence of `q`. */
  lemma {:induction false} ContainsTail(s: string, p: string, q: string)
    requires Contains(s, p + q)
    ensures Contains(s, q)
    decreases |s|
  {
    if StartsWith(s, p + q) {
      assert s[|p|..][..|q|] == (p + q)[|p|..];
      ContainsSuffixOf(s, |p|, q);
    } else {
      ContainsTail(s[1..], p, q);
    }
  }

  lemma {:induction false} ContainsSuffixOf(s: string, k: nat, q: string)
    requires k <= |s| && StartsWith(s[k..], q)
    ensures Contains(s, q)
    decreases k
  {
    if k > 0 {
      assert s[1..][k - 1..] == s[k..];
      ContainsSuffixOf(s[1..], k - 1, q);
    }
  }

  /** Joining one more part adds the separator and the part. */
  lemma {:induction false} JoinSnoc(parts: seq<string>, x: string, sep: string)
    requires parts != []
    ensures Join(parts + [x], sep) == Join(parts, sep) + sep + x
    decreases |parts|
  {
    if |parts| == 1 {
      assert parts + [x] == [parts[0], x];
      assert [parts[0], x][1..] == [x];
    } else {
      JoinSnoc(parts[1..], x, sep);
      assert (parts + [x])[1..] == parts[1..] + [x];
    }
  }
}
