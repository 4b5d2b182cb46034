/** The part of Go's `path/filepath` package the templating code relies on, with '/'
    as the path separator. */
module FilePath {

  const Separator: char := '/'

  /** `filepath.Match(pattern, name)` for patterns built from literal characters, `?`
      (one character other than the separator) and `*` (any run of characters without a
      separator). The whole of `name` must match. */
  predicate Match(pattern: string, name: string)
    ensures Match(pattern, name) && Separator !in pattern ==> Separator !in name
    decreases |pattern| + |name|
  {
    if pattern == [] then name == []
    else if pattern[0] == '*' then
      Match(pattern[1..], name) || (name != [] && name[0] != Separator && Match(pattern, name[1..]))
    else if pattern[0] == '?' then
      name != [] && name[0] != Separator && Match(pattern[1..], name[1..])
    else
      name != [] && name[0] == pattern[0] && Match(pattern[1..], name[1..])
  }

  predicate HasSuffix(s: string, suffix: string)
  {
    |suffix| <= |s| && s[|s| - |suffix|..] == suffix
  }

  /** A pattern without wildcards matches exactly itself. */
  lemma {:induction false} LiteralMatch(pattern: string, name: string)
    requires '*' !in pattern && '?' !in pattern
    ensures Match(pattern, name) <==> name == pattern
    decreases |pattern|
  {
    if pattern != [] {
      assert pattern[0] in pattern;
      assert forall c :: c in pattern[1..] ==> c in pattern;
      if name != [] {
        LiteralMatch(pattern[1..], name[1..]);
        assert name == [name[0]] + name[1..];
        assert pattern == [pattern[0]] + pattern[1..];
      }
    }
  }

  /** `*.cql` matches exactly the names without a separator that end in `.cql`. */
  lemma {:induction false} CqlPattern(name: string)
    ensures Match("*.cql", name) <==> Separator !in name && HasSuffix(name, ".cql")
    decreases |name|
  {
    var rest := ".cql";
    assert "*.cql"[0] == '*' && "*.cql"[1..] == rest;
    LiteralMatch(rest, name);
    if name == rest {
      assert HasSuffix(name, rest);
    } else if name == [] {
    } else {
      CqlPattern(name[1..]);
      assert name == [name[0]] + name[1..];
      assert Separator !in name <==> name[0] != Separator && Separator !in name[1..];
      if |name| >= 5 {
        assert name[|name| - 4..] == name[1..][|name[1..]| - 4..];
      } else if |name| == 4 {
        assert !HasSuffix(name, rest);
      }
    }
  }

  /** The name `os.Stat` reports for a path: the last element, trailing separators removed.
      A path that is only separators has the name `/`. */
  function BaseName(p: string): (r: string)
    ensures r == [Separator] || Separator !in r
    ensures var t := TrimTrailingSeparators(p);
      (t == [Separator] ==> r == t) &&
      (t != [Separator] ==> |r| <= |t| && r == t[|t| - |r|..] && (|r| == |t| || t[|t| - |r| - 1] == Separator))
  {
    var t := TrimTrailingSeparators(p);
    if t == [Separator] then t else AfterLastSeparator(t)
  }

  /** `p` without its trailing separators, keeping a lone leading one. */
  function TrimTrailingSeparators(p: string): (t: string)
    ensures |t| <= |p| && t == p[..|t|] && (p != [] ==> t != [])
    ensures |t| <= 1 || t[|t| - 1] != Separator
    ensures forall k :: |t| <= k < |p| ==> p[k] == Separator
  {
    if |p| > 1 && p[|p| - 1] == Separator then TrimTrailingSeparators(p[..|p| - 1]) else p
  }

  /** The longest suffix of `p` without a separator. */
  function AfterLastSeparator(p: string): (r: string)
    ensures Separator !in r && |r| <= |p| && r == p[|p| - |r|..]
    ensures |r| == |p| || p[|p| - |r| - 1] == Separator
  {
    if p == [] || p[|p| - 1] == Separator then [] else AfterLastSeparator(p[..|p| - 1]) + [p[|p| - 1]]
  }

  /** The name of an entry `name` listed in directory `dir` is `name` itself: this is how
      the walk's `dir + "/" + name` paths get their names back. */
  lemma BaseNameOfChild(dir: string, name: string)
    requires name != [] && Separator !in name
    ensures BaseName(dir + [Separator] + name) == name
  {
    var p := dir + [Separator] + name;
    assert p[|p| - 1] == name[|name| - 1];
    assert TrimTrailingSeparators(p) == p;
    var r := AfterLastSeparator(p);
    assert p[|p| - |name| - 1] == Separator;
    assert forall k :: |p| - |name| <= k < |p| ==> p[k] == name[k - (|p| - |name|)];
    assert forall j :: 0 <= j < |r| ==> r[j] == p[|p| - |r| + j];
    assert |r| == |name|;
    assert p[|p| - |name|..] == name;
  }
}
