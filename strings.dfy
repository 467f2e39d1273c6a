/** The parts of Go's `strings` package the restore pipeline relies on: `TrimSpace`,
    `Split` with a one-character separator, `HasPrefix`, `HasSuffix` and the case
    conversions used to compare type codes and the literal "NULL". */
module Strings {

  /** Go's `unicode.IsSpace`: the Latin-1 white space and every Unicode space separator. */
  predicate IsSpace(c: char) {
    c == ' ' || c == '\t' || c == '\n' || c == '\r' || c == '\U{B}' || c == '\U{C}'
    || c == '\U{85}' || c == '\U{A0}' || c == '\U{1680}'
    || ('\U{2000}' <= c && c <= '\U{200A}')
    || c == '\U{2028}' || c == '\U{2029}' || c == '\U{202F}' || c == '\U{205F}' || c == '\U{3000}'
  }

  /** Drops the leading white space. */
  function TrimLeft(s: string): string {
    if |s| > 0 && IsSpace(s[0]) then TrimLeft(s[1..]) else s
  }

  /** Drops the trailing white space. */
  function TrimRight(s: string): string {
    if |s| > 0 && IsSpace(s[|s| - 1]) then TrimRight(s[..|s| - 1]) else s
  }

  /** Go's `strings.TrimSpace`. */
  function TrimSpace(s: string): string {
    TrimRight(TrimLeft(s))
  }

  /** `TrimLeft` removes exactly the leading white space: the result is a suffix of the input
      that does not start with space, and everything before it is space. */
  lemma {:induction false} TrimLeftShape(s: string)
    ensures var r := TrimLeft(s);
      |r| <= |s| && r == s[|s| - |r|..]
      && (forall k :: 0 <= k < |s| - |r| ==> IsSpace(s[k]))
      && (r == [] || !IsSpace(r[0]))
  {
    if |s| > 0 && IsSpace(s[0]) {
      TrimLeftShape(s[1..]);
      var r := TrimLeft(s[1..]);
      assert s[1..][|s[1..]| - |r|..] == s[|s| - |r|..];
    }
  }

  /** `TrimRight` removes exactly the trailing white space. */
  lemma {:induction false} TrimRightShape(s: string)
    ensures var r := TrimRight(s);
      |r| <= |s| && r == s[..|r|]
      && (forall k :: |r| <= k < |s| ==> IsSpace(s[k]))
      && (r == [] || !IsSpace(r[|r| - 1]))
  {
    if |s| > 0 && IsSpace(s[|s| - 1]) {
      TrimRightShape(s[..|s| - 1]);
    }
  }

  /** `TrimSpace` keeps a contiguous middle part of the input, drops only white space around
      it, and leaves no white space at either end. */
  lemma TrimSpaceShape(s: string)
    ensures var r, i := TrimSpace(s), |s| - |TrimLeft(s)|;
      0 <= i <= |s| - |r| && r == s[i..i + |r|]
      && (forall k :: 0 <= k < i ==> IsSpace(s[k]))
      && (forall k :: i + |r| <= k < |s| ==> IsSpace(s[k]))
      && Trimmed(r)
  {
    var l := TrimLeft(s);
    TrimLeftShape(s);
    TrimRightShape(l);
    var r := TrimRight(l);
    var i := |s| - |l|;
    assert l == s[i..];
    assert r == s[i..i + |r|];
    forall k | i + |r| <= k < |s|
      ensures IsSpace(s[k])
    {
      assert s[k] == l[k - i];
    }
    if r != [] {
      assert r[0] == l[0];
    }
  }

  /** Neither end is white space. */
  predicate Trimmed(s: string) {
    s == [] || (!IsSpace(s[0]) && !IsSpace(s[|s| - 1]))
  }

  /** Trimming leaves a string without white space at its ends unchanged. */
  lemma TrimmedIsFixed(s: string)
    requires Trimmed(s)
    ensures TrimSpace(s) == s
  {
    if s != [] {
      assert TrimLeft(s) == s;
      assert TrimRight(s) == s;
    }
  }

  /** Trimming is idempotent: a trimmed string has nothing left to trim. */
  lemma TrimSpaceIdempotent(s: string)
    ensures TrimSpace(TrimSpace(s)) == TrimSpace(s)
  {
    TrimSpaceShape(s);
    TrimmedIsFixed(TrimSpace(s));
  }

  /** Go's `strings.Split(s, string(sep))`: the pieces between separators, at least one. */
  function Split(s: string, sep: char): (parts: seq<string>)
    ensures |parts| >= 1
    ensures forall i :: 0 <= i < |parts| ==> sep !in parts[i]
  {
    if |s| == 0 then [""]
    else
      var rest := Split(s[1..], sep);
      if s[0] == sep then [""] + rest
      else [[s[0]] + rest[0]] + rest[1..]
  }

  /** Go's `strings.Join(parts, string(sep))`, the inverse of `Split`. */
  function Join(parts: seq<string>, sep: char): string {
    if |parts| == 0 then ""
    else if |parts| == 1 then parts[0]
    else parts[0] + [sep] + Join(parts[1..], sep)
  }

  /** Splitting loses nothing: joining the pieces back gives the original text. */
  lemma {:induction false} JoinSplit(s: string, sep: char)
    ensures Join(Split(s, sep), sep) == s
  {
    if |s| > 0 {
      var rest := Split(s[1..], sep);
      JoinSplit(s[1..], sep);
      if s[0] == sep {
        assert Split(s, sep) == [""] + rest;
        assert ([""] + rest)[1..] == rest;
      } else {
        var parts := [[s[0]] + rest[0]] + rest[1..];
        assert Split(s, sep) == parts;
        if |rest| == 1 {
          assert Join(parts, sep) == [s[0]] + rest[0];
        } else {
          assert parts[1..] == rest[1..];
          assert Join(rest, sep) == rest[0] + [sep] + Join(rest[1..], sep);
        }
      }
    }
  }

  /** Splitting a join of separator-free pieces gives the pieces back. */
  lemma {:induction false} SplitJoin(parts: seq<string>, sep: char)
    requires |parts| >= 1
    requires forall i :: 0 <= i < |parts| ==> sep !in parts[i]
    ensures Split(Join(parts, sep), sep) == parts
  {
    if |parts| == 1 {
      SplitNoSeparator(parts[0], sep);
    } else {
      SplitJoin(parts[1..], sep);
      SplitAfterSeparator(parts[0], sep, Join(parts[1..], sep));
      assert [parts[0]] + parts[1..] == parts;
    }
  }

  lemma {:induction false} SplitNoSeparator(s: string, sep: char)
    requires sep !in s
    ensures Split(s, sep) == [s]
  {
    if |s| > 0 {
      SplitNoSeparator(s[1..], sep);
      assert [s[0]] + s[1..] == s;
    }
  }

  lemma {:induction false} SplitAfterSeparator(a: string, sep: char, b: string)
    requires sep !in a
    ensures Split(a + [sep] + b, sep) == [a] + Split(b, sep)
  {
    if |a| == 0 {
      assert (a + [sep] + b)[1..] == b;
    } else {
      SplitAfterSeparator(a[1..], sep, b);
      assert (a + [sep] + b)[1..] == a[1..] + [sep] + b;
      assert [a[0]] + a[1..] == a;
    }
  }

  /** Joining pieces that have no space at their ends, with a non-space separator, gives
      a string with no space at its ends. */
  lemma {:induction false} JoinOfTrimmedIsTrimmed(parts: seq<string>, sep: char)
    requires !IsSpace(sep) && |parts| >= 1
    requires forall i :: 0 <= i < |parts| ==> Trimmed(parts[i])
    ensures Trimmed(Join(parts, sep))
  {
    if |parts| > 1 {
      JoinOfTrimmedIsTrimmed(parts[1..], sep);
      var rest := Join(parts[1..], sep);
      var s := parts[0] + [sep] + rest;
      assert s[0] == if parts[0] == [] then sep else parts[0][0];
      assert s[|s| - 1] == if rest == [] then sep else rest[|rest| - 1];
    }
  }

  lemma JoinLengthBound(parts: seq<string>, sep: char)
    requires |parts| >= 2
    ensures |Join(parts, sep)| >= |parts| - 1
  {
  }

  predicate HasPrefix(s: string, prefix: string) {
    |prefix| <= |s| && s[..|prefix|] == prefix
  }

  predicate HasSuffix(s: string, suffix: string) {
    |suffix| <= |s| && s[|s| - |suffix|..] == suffix
  }

  function UpperChar(c: char): char {
    if 'a' <= c <= 'z' then (c as int - 'a' as int + 'A' as int) as char else c
  }

  /** `strings.ToUpper` on the ASCII letters; other characters are kept. */
  function ToUpper(s: string): (r: string)
    ensures |r| == |s|
    ensures forall i :: 0 <= i < |s| ==> r[i] == UpperChar(s[i])
  {
    seq(|s|, i requires 0 <= i < |s| => UpperChar(s[i]))
  }

  /** `strings.EqualFold` on ASCII letters. */
  predicate EqualFold(a: string, b: string) {
    ToUpper(a) == ToUpper(b)
  }

  /** The characters that upper-case to 'L' are exactly 'l' and 'L'. */
  lemma UpperIsL(c: char)
    ensures UpperChar(c) == 'L' <==> c == 'l' || c == 'L'
  {
  }
}

/** `path/filepath` on the Windows host that runs SQL Server, reduced to the two calls
    the pipeline makes. */
module Paths {

  const Separator: char := '\\'

  predicate IsSeparator(c: char) {
    c == '\\' || c == '/'
  }

  /** `filepath.Join(dir, name)` for a non-empty directory and a plain file name. */
  function Join(dir: string, name: string): string {
    if dir == "" then name
    else if IsSeparator(dir[|dir| - 1]) then dir + name
    else dir + [Separator] + name
  }

  /** `filepath.Dir`: everything before the last separator, "." when there is none. */
  function Dir(path: string): string {
    if |path| == 0 then "."
    else if IsSeparator(path[|path| - 1]) then
      (if |path| == 1 then path else path[..|path| - 1])
    else Dir(path[..|path| - 1])
  }

  /** The directory of a path is what comes before the separator that precedes its last
      element. */
  lemma {:induction false} DirAfterSeparator(dir: string, name: string)
    requires dir != ""
    requires forall i :: 0 <= i < |name| ==> !IsSeparator(name[i])
    ensures Dir(dir + [Separator] + name) == dir
  {
    if name != [] {
      var path := dir + [Separator] + name;
      assert path[..|path| - 1] == dir + [Separator] + name[..|name| - 1];
      DirAfterSeparator(dir, name[..|name| - 1]);
    } else {
      assert (dir + [Separator])[..|dir|] == dir;
    }
  }

  /** `Dir` undoes `Join`: the directory of a file joined onto a folder is that folder. */
  lemma DirOfJoin(dir: string, name: string)
    requires dir != "" && !IsSeparator(dir[|dir| - 1])
    requires forall i :: 0 <= i < |name| ==> !IsSeparator(name[i])
    ensures Dir(Join(dir, name)) == dir
  {
    DirAfterSeparator(dir, name);
  }
}
