/**
 * Shell-style wildcard matching as Python's `fnmatch.fnmatch` does it on POSIX
 * (no case folding): `*` matches any run of characters, `/` included, `?`
 * matches one character, every other character matches itself. Bracket
 * classes (`[abc]`, `[!a-z]`) are not modelled: `[` and `]` match literally.
 */
module Glob {
  import opened Text

  predicate GlobMatch(name: string, pat: string)
    decreases |name| + |pat|
  {
    if pat == [] then name == []
    else if pat[0] == '*' then GlobMatch(name, pat[1..]) || (name != [] && GlobMatch(name[1..], pat))
    else name != [] && (pat[0] == '?' || pat[0] == name[0]) && GlobMatch(name[1..], pat[1..])
  }

  predicate NoWildcards(p: string) {
    forall i | 0 <= i < |p| :: p[i] != '*' && p[i] != '?'
  }

  /** A lone `*` matches every name. */
  lemma {:induction false} StarMatchesAll(name: string)
    ensures GlobMatch(name, "*")
  {
    if name != [] {
      StarMatchesAll(name[1..]);
    }
  }

  /** A pattern without wildcards matches only itself. */
  lemma {:induction false} LiteralMatchesItself(name: string, p: string)
    requires NoWildcards(p)
    ensures GlobMatch(name, p) <==> name == p
  {
    if p != [] && name != [] {
      LiteralMatchesItself(name[1..], p[1..]);
      if name[1..] == p[1..] && name[0] == p[0] {
        assert name == [name[0]] + name[1..] && p == [p[0]] + p[1..];
      }
    }
  }

  /** `prefix*` (for a literal prefix) matches exactly the names that start with the prefix. */
  lemma {:induction false} PrefixStarMatch(name: string, p: string)
    requires NoWildcards(p)
    ensures GlobMatch(name, p + "*") <==> IsPrefix(p, name)
  {
    if p == [] {
      assert p + "*" == "*";
      StarMatchesAll(name);
    } else {
      assert (p + "*")[0] == p[0];
      assert (p + "*")[1..] == p[1..] + "*";
      if name != [] {
        PrefixStarMatch(name[1..], p[1..]);
      }
    }
  }
}
