/** The manifest policy: glob matching, the compiled indexes, and which directories a lookup may pass. */
module Manifest {
  import opened Text
  import opened Wrappers

  // Wildcard suffixes: any depth, and one level.
  const DEEP: string := ['/', '*', '*']
  const SHALLOW: string := ['/', '*']

  datatype NetworkEntry = NetworkEntry(abilityId: string, pattern: string)

  datatype FilesystemEntry = FilesystemEntry(abilityId: string, path: string)

  datatype Policy = Policy(network: seq<NetworkEntry>, filesystem: seq<FilesystemEntry>)

  /** `filepath.Match` on patterns with character classes or escapes, with its error counted as no match. */
  type Matcher = (string, string) -> bool

  predicate IsWildcard(c: char) { c == '*' || c == '?' }

  predicate HasWildcard(s: string) { '*' in s || '?' in s }

  predicate HasClassOrEscape(s: string) { '[' in s || '\\' in s }

  /** `filepath.Match` on the other patterns: a star stands for any run of characters and a question mark for one,
      but never for a separator. */
  predicate Match(pattern: string, name: string)
    decreases |pattern| + |name|
  {
    if pattern == [] then name == []
    else if pattern[0] == '*' then
      Match(pattern[1..], name) || (name != [] && name[0] != '/' && Match(pattern, name[1..]))
    else
      && name != [] && (if pattern[0] == '?' then name[0] != '/' else name[0] == pattern[0])
      && Match(pattern[1..], name[1..])
  }

  // ---------------------------------------------------------------- what the matcher means

  /** What one character of a pattern may stand for. */
  predicate Fits(c: char, piece: string) {
    if c == '*' then '/' !in piece
    else if c == '?' then |piece| == 1 && piece[0] != '/'
    else piece == [c]
  }

  function Concat(pieces: seq<string>): string {
    if pieces == [] then [] else pieces[0] + Concat(pieces[1..])
  }

  /** The name is the pattern's characters spelled out, each as a piece it may stand for. */
  ghost predicate Spells(pattern: string, pieces: seq<string>, name: string) {
    |pieces| == |pattern| && Concat(pieces) == name && forall i :: 0 <= i < |pieces| ==> Fits(pattern[i], pieces[i])
  }

  lemma SpellsCons(pattern: string, piece: string, pieces: seq<string>, name: string)
    requires pattern != [] && Fits(pattern[0], piece) && Spells(pattern[1..], pieces, name)
    ensures Spells(pattern, [piece] + pieces, piece + name)
  {
    assert ([piece] + pieces)[1..] == pieces;
  }

  /** A star takes one more character of the name. */
  lemma StarTakesOne(pattern: string, c: char, pieces: seq<string>, name: string)
    requires pattern != [] && pattern[0] == '*' && c != '/' && Spells(pattern, pieces, name)
    ensures Spells(pattern, [[c] + pieces[0]] + pieces[1..], [c] + name)
  {
    assert Spells(pattern[1..], pieces[1..], Concat(pieces[1..]));
    SpellsCons(pattern, [c] + pieces[0], pieces[1..], Concat(pieces[1..]));
    assert ([c] + pieces[0]) + Concat(pieces[1..]) == [c] + (pieces[0] + Concat(pieces[1..]));
  }

  lemma {:induction false} MatchSpells(pattern: string, name: string) returns (pieces: seq<string>)
    requires Match(pattern, name)
    ensures Spells(pattern, pieces, name)
    decreases |pattern| + |name|
  {
    if pattern == [] {
      pieces := [];
    } else if pattern[0] == '*' && Match(pattern[1..], name) {
      pieces := MatchSpells(pattern[1..], name);
      SpellsCons(pattern, [], pieces, name);
      pieces := [[]] + pieces;
      assert [] + name == name;
    } else if pattern[0] == '*' {
      pieces := MatchSpells(pattern, name[1..]);
      StarTakesOne(pattern, name[0], pieces, name[1..]);
      pieces := [[name[0]] + pieces[0]] + pieces[1..];
    } else {
      pieces := MatchSpells(pattern[1..], name[1..]);
      SpellsCons(pattern, [name[0]], pieces, name[1..]);
      pieces := [[name[0]]] + pieces;
    }
  }

  lemma {:induction false} StarMatches(pattern: string, piece: string, name: string)
    requires pattern != [] && pattern[0] == '*' && '/' !in piece && Match(pattern[1..], name)
    ensures Match(pattern, piece + name)
  {
    if piece == [] {
      assert piece + name == name;
    } else {
      StarMatches(pattern, piece[1..], name);
      assert (piece + name)[1..] == piece[1..] + name;
    }
  }

  lemma {:induction false} SpelledMatches(pattern: string, pieces: seq<string>, name: string)
    requires Spells(pattern, pieces, name)
    ensures Match(pattern, name)
    decreases |pattern|
  {
    if pattern == [] {
    } else {
      var rest := Concat(pieces[1..]);
      SpelledMatches(pattern[1..], pieces[1..], rest);
      if pattern[0] == '*' {
        StarMatches(pattern, pieces[0], rest);
      } else {
        assert name[1..] == rest;
      }
    }
  }

  /** A pattern matches exactly the names made of one piece per character: a literal stands for itself, a question
      mark for one character other than a separator, a star for any run without separators. */
  lemma MatchMeaning(pattern: string, name: string)
    ensures Match(pattern, name) <==> exists pieces :: Spells(pattern, pieces, name)
  {
    if Match(pattern, name) {
      var pieces := MatchSpells(pattern, name);
    }
    if pieces :| Spells(pattern, pieces, name) {
      SpelledMatches(pattern, pieces, name);
    }
  }

  /** Without wildcards a pattern matches itself and nothing else. */
  lemma {:induction false} LiteralMatch(pattern: string, name: string)
    requires !HasWildcard(pattern)
    ensures Match(pattern, name) <==> name == pattern
    decreases |pattern|
  {
    if pattern == [] {
    } else {
      assert pattern[0] in pattern && forall c :: c in pattern[1..] ==> c in pattern;
      if name != [] {
        LiteralMatch(pattern[1..], name[1..]);
        assert pattern == [pattern[0]] + pattern[1..] && name == [name[0]] + name[1..];
      }
    }
  }

  predicate FileMatch(fallback: Matcher, pattern: string, name: string) {
    if HasClassOrEscape(pattern) then fallback(pattern, name) else Match(pattern, name)
  }

  // ---------------------------------------------------------------- globs

  function MatchGlob(fallback: Matcher, pattern: string, path: string): bool {
    if pattern == path then true
    else if HasSuffix(pattern, DEEP) then
      var prefix := TrimSuffix(pattern, DEEP);
      path == prefix || HasPrefix(path, prefix + "/")
    else if HasSuffix(pattern, SHALLOW) then
      var prefix := TrimSuffix(pattern, SHALLOW);
      HasPrefix(path, prefix + "/") && '/' !in path[|prefix| + 1..]
    else FileMatch(fallback, pattern, path)
  }

  function Segments(path: string): seq<string> { Split(path, '/') }

  lemma Deep(prefix: string)
    ensures HasSuffix(prefix + DEEP, DEEP) && TrimSuffix(prefix + DEEP, DEEP) == prefix
  {
    assert (prefix + DEEP)[|prefix|..] == DEEP;
  }

  lemma Shallow(prefix: string)
    ensures HasSuffix(prefix + SHALLOW, SHALLOW) && TrimSuffix(prefix + SHALLOW, SHALLOW) == prefix
    ensures !HasSuffix(prefix + SHALLOW, DEEP)
  {
    var p := prefix + SHALLOW;
    assert p[|prefix|..] == SHALLOW;
    assert |p| >= 3 ==> p[|p| - 3..][1] == '/';
  }

  /** The deep wildcard matches exactly the paths whose segments extend those before it. */
  lemma DeepGlobMeaning(fallback: Matcher, prefix: string, path: string)
    ensures MatchGlob(fallback, prefix + DEEP, path) <==> Segments(prefix) <= Segments(path)
  {
    Deep(prefix);
    PrefixIffPartsExtend(prefix, path, '/');
    if path == prefix + DEEP {
      assert HasPrefix(path, prefix + ['/']);
    }
  }

  lemma OneMoreSegment(prefix: string, rest: string)
    ensures |Segments(prefix + ['/'] + rest)| == |Segments(prefix)| + 1 <==> '/' !in rest
  {
    SplitAppend(prefix, rest, '/');
    if '/' in rest { SeveralParts(rest, '/'); } else { OnePart(rest, '/'); }
  }

  lemma ShallowMatch(fallback: Matcher, prefix: string, path: string)
    ensures MatchGlob(fallback, prefix + SHALLOW, path) <==> HasPrefix(path, prefix + ['/']) && '/' !in path[|prefix| + 1..]
  {
    Shallow(prefix);
    if path == prefix + SHALLOW {
      assert path[|prefix| + 1..] == ['*'] && path[..|prefix| + 1] == prefix + ['/'];
    }
  }

  /** The shallow wildcard matches exactly the paths with one segment more. */
  lemma ShallowGlobMeaning(fallback: Matcher, prefix: string, path: string)
    ensures MatchGlob(fallback, prefix + SHALLOW, path)
       <==> Segments(prefix) < Segments(path) && |Segments(path)| == |Segments(prefix)| + 1
  {
    ShallowMatch(fallback, prefix, path);
    PrefixIffPartsExtend(prefix, path, '/');
    if HasPrefix(path, prefix + ['/']) {
      assert path == prefix + ['/'] + path[|prefix| + 1..];
      OneMoreSegment(prefix, path[|prefix| + 1..]);
    }
  }

  /** Every pattern without a trailing wildcard, class or escape matches the paths it spells. */
  lemma FileGlobMeaning(fallback: Matcher, pattern: string, path: string)
    requires !TrailingWildcard(pattern) && !HasClassOrEscape(pattern)
    ensures MatchGlob(fallback, pattern, path) <==> exists pieces :: Spells(pattern, pieces, path)
    ensures !HasWildcard(pattern) ==> (MatchGlob(fallback, pattern, path) <==> path == pattern)
  {
    MatchMeaning(pattern, path);
    if path == pattern { MatchesItself(pattern); }
    if !HasWildcard(pattern) { LiteralMatch(pattern, path); }
  }

  lemma {:induction false} MatchesItself(pattern: string)
    ensures Match(pattern, pattern)
  {
    if pattern == [] {
    } else {
      MatchesItself(pattern[1..]);
      if pattern[0] == '*' { StarMatches(pattern, ['*'], pattern[1..]); }
      assert pattern == [pattern[0]] + pattern[1..];
    }
  }

  /** One star between literals stands for exactly the runs without separators. */
  lemma OneStar(a: string, b: string, name: string)
    requires !HasWildcard(a) && !HasWildcard(b)
    ensures Match(a + ['*'] + b, name) <==> exists m :: '/' !in m && name == a + m + b
  {
    if Match(a + ['*'] + b, name) {
      var m := StarRun(a, b, name);
    }
    if m :| '/' !in m && name == a + m + b {
      LiteralMatch(b, b);
      StarMatches(['*'] + b, m, b);
      LiteralPrefix(a, ['*'] + b, m + b);
      assert a + (['*'] + b) == a + ['*'] + b && a + (m + b) == a + m + b;
    }
  }

  lemma {:induction false} LiteralPrefix(a: string, pattern: string, name: string)
    requires !HasWildcard(a)
    ensures Match(a + pattern, a + name) <==> Match(pattern, name)
  {
    if a == [] {
      assert a + pattern == pattern && a + name == name;
    } else {
      assert a[0] in a && forall c :: c in a[1..] ==> c in a;
      LiteralPrefix(a[1..], pattern, name);
      assert (a + pattern)[1..] == a[1..] + pattern && (a + name)[1..] == a[1..] + name;
    }
  }

  lemma {:induction false} StarRun(a: string, b: string, name: string) returns (m: string)
    requires !HasWildcard(a) && !HasWildcard(b) && Match(a + ['*'] + b, name)
    ensures '/' !in m && name == a + m + b
    decreases |a| + |name|
  {
    var pattern := a + ['*'] + b;
    if a == [] {
      assert pattern == ['*'] + b && pattern[1..] == b;
      if Match(b, name) {
        LiteralMatch(b, name);
        m := [];
      } else {
        m := StarRun(a, b, name[1..]);
        m := [name[0]] + m;
        assert name == [name[0]] + name[1..];
      }
    } else {
      assert a[0] in a && forall c :: c in a[1..] ==> c in a;
      assert pattern[1..] == a[1..] + ['*'] + b;
      m := StarRun(a[1..], b, name[1..]);
      assert name == [name[0]] + name[1..] && a == [a[0]] + a[1..];
    }
  }

  // ---------------------------------------------------------------- what a policy allows

  predicate Allowed(fallback: Matcher, m: Policy, path: string) {
    exists i :: 0 <= i < |m.filesystem| && MatchGlob(fallback, m.filesystem[i].path, path)
  }

  predicate NoMatchBefore(fallback: Matcher, m: Policy, path: string, i: nat) {
    i <= |m.filesystem| && forall j :: 0 <= j < i ==> !MatchGlob(fallback, m.filesystem[j].path, path)
  }

  predicate FirstMatch(fallback: Matcher, m: Policy, path: string, i: nat) {
    NoMatchBefore(fallback, m, path, i) && i < |m.filesystem| && MatchGlob(fallback, m.filesystem[i].path, path)
  }

  predicate Listed(m: Policy, key: string) {
    exists i :: 0 <= i < |m.network| && m.network[i].pattern == key
  }

  /** `isPathOrPrefixAllowed`, with everything allowed before the first manifest. */
  predicate Traversable(fallback: Matcher, m: Option<Policy>, path: string) {
    m.None? || Allowed(fallback, m.value, path) || SomeLeadTo(m.value, path)
  }

  predicate SomeLeadTo(m: Policy, path: string) {
    exists i :: 0 <= i < |m.filesystem| && LeadsTo(m.filesystem[i].path, path)
  }

  predicate LeadsTo(pattern: string, path: string) {
    HasPrefix(pattern, path + "/") || HasPrefix(pattern, path + DEEP)
  }

  lemma LeadsToMeansPrefix(pattern: string, path: string)
    ensures LeadsTo(pattern, path) <==> HasPrefix(pattern, path + ['/'])
  {
    if HasPrefix(pattern, path + DEEP) {
      assert pattern[..|path| + 1] == (path + DEEP)[..|path| + 1] == path + ['/'];
    }
  }

  // ---------------------------------------------------------------- what matches have in common

  /** The pattern or path up to its last separator, included. */
  function Dir(s: string): (d: string)
    ensures d <= s && forall i :: |d| <= i < |s| ==> s[i] != '/'
    ensures d != [] ==> d[|d| - 1] == '/'
  {
    if '/' !in s then [] else [s[0]] + Dir(s[1..])
  }

  function Separators(s: string): nat {
    if s == [] then 0 else (if s[0] == '/' then 1 else 0) + Separators(s[1..])
  }

  lemma {:induction false} MatchKeepsSeparators(pattern: string, name: string)
    requires Match(pattern, name)
    ensures Separators(name) == Separators(pattern)
    decreases |pattern| + |name|
  {
    if pattern == [] {
    } else if pattern[0] == '*' && !Match(pattern[1..], name) {
      MatchKeepsSeparators(pattern, name[1..]);
    } else if pattern[0] == '*' {
      MatchKeepsSeparators(pattern[1..], name);
    } else {
      MatchKeepsSeparators(pattern[1..], name[1..]);
    }
  }

  lemma {:induction false} NoSeparators(s: string)
    ensures Separators(s) == 0 <==> '/' !in s
  {
    if s == [] {
    } else {
      NoSeparators(s[1..]);
      assert s == [s[0]] + s[1..];
    }
  }

  /** Without a wildcard in its directory part, a pattern matches only names in that directory. */
  lemma {:induction false} MatchKeepsDir(pattern: string, name: string)
    requires Match(pattern, name) && !HasWildcard(Dir(pattern))
    ensures Dir(name) == Dir(pattern)
    decreases |pattern|
  {
    MatchKeepsSeparators(pattern, name);
    NoSeparators(pattern);
    NoSeparators(name);
    if '/' !in pattern {
    } else {
      assert Dir(pattern)[0] == pattern[0];
      assert Dir(pattern)[1..] == Dir(pattern[1..]);
      MatchKeepsDir(pattern[1..], name[1..]);
    }
  }

  lemma {:induction false} PrefixInDir(s: string, a: string)
    requires HasPrefix(s, a + ['/'])
    ensures HasPrefix(Dir(s), a + ['/'])
  {
    assert s[|a|] == '/';
    if a == [] {
    } else {
      assert s[1..][..|a|] == a[1..] + ['/'];
      PrefixInDir(s[1..], a[1..]);
      assert a == [a[0]] + a[1..];
    }
  }

  lemma {:induction false} SeparatorsBelow(s: string, a: string)
    requires HasPrefix(s, a + ['/'])
    ensures Separators(a) < Separators(s)
  {
    assert s[|a|] == '/';
    if a == [] {
    } else {
      assert s[1..][..|a|] == a[1..] + ['/'];
      SeparatorsBelow(s[1..], a[1..]);
    }
  }

  /** The pattern with each wildcard replaced by one character. */
  function Filled(pattern: string): (name: string)
    ensures |name| == |pattern|
    ensures forall i :: 0 <= i < |name| ==> name[i] == if IsWildcard(pattern[i]) then 'x' else pattern[i]
  {
    if pattern == [] then [] else [if IsWildcard(pattern[0]) then 'x' else pattern[0]] + Filled(pattern[1..])
  }

  lemma {:induction false} FilledMatches(pattern: string)
    ensures Match(pattern, Filled(pattern))
  {
    if pattern == [] {
    } else {
      FilledMatches(pattern[1..]);
      assert Filled(pattern)[1..] == Filled(pattern[1..]);
      assert pattern[0] == '*' ==> Match(pattern, Filled(pattern[1..]));
    }
  }

  // ---------------------------------------------------------------- traversal

  predicate TrailingWildcard(pattern: string) { HasSuffix(pattern, DEEP) || HasSuffix(pattern, SHALLOW) }

  /** The pattern's wildcards are a trailing one, or lie in its last segment. */
  ghost predicate Plain(fallback: Matcher, pattern: string) {
    || TrailingWildcard(pattern)
    || if HasClassOrEscape(pattern) then forall x :: fallback(pattern, x) ==> Dir(x) == Dir(pattern)
       else !HasWildcard(Dir(pattern))
  }

  ghost predicate AllPlain(fallback: Matcher, m: Policy) {
    forall i :: 0 <= i < |m.filesystem| ==> Plain(fallback, m.filesystem[i].path)
  }

  /** `path` is the path `q` or one of its ancestor directories. */
  predicate OnTheWay(path: string, q: string) {
    q == path || HasPrefix(q, path + ['/'])
  }

  lemma PrefixesOfOne(a: string, b: string, s: string)
    requires HasPrefix(s, a) && HasPrefix(s, b)
    ensures |a| <= |b| ==> HasPrefix(b, a)
  {
  }

  /** Everything on the way to a match of a deep pattern matches it or leads to it. */
  lemma DeepAncestors(fallback: Matcher, prefix: string, path: string, q: string)
    requires (q == prefix || HasPrefix(q, prefix + ['/'])) && HasPrefix(q, path + ['/'])
    ensures MatchGlob(fallback, prefix + DEEP, path) || HasPrefix(prefix + DEEP, path + ['/'])
  {
    Deep(prefix);
    var whole := prefix + ['/'];
    assert HasPrefix(prefix + DEEP, whole);
    if |path| + 1 <= |whole| {
      assert HasPrefix(whole, path + ['/']) by {
        if q == prefix { assert HasPrefix(whole, q); } else { PrefixesOfOne(path + ['/'], whole, q); }
      }
    } else {
      assert q != prefix;
      PrefixesOfOne(whole, path + ['/'], q);
      assert HasPrefix(path, whole);
    }
  }

  lemma ShallowAncestors(prefix: string, path: string, q: string)
    requires HasPrefix(q, prefix + ['/']) && '/' !in q[|prefix| + 1..] && HasPrefix(q, path + ['/'])
    ensures HasPrefix(prefix + SHALLOW, path + ['/'])
  {
    var whole := prefix + ['/'];
    assert forall j :: |prefix| < j < |q| ==> q[j] in q[|prefix| + 1..];
    assert q[|path|] == '/';
    assert |path| <= |prefix|;
    PrefixesOfOne(path + ['/'], whole, q);
    assert HasPrefix(prefix + SHALLOW, whole);
  }

  lemma AncestorPasses(fallback: Matcher, pattern: string, path: string, q: string)
    requires Plain(fallback, pattern) && MatchGlob(fallback, pattern, q) && HasPrefix(q, path + ['/'])
    ensures MatchGlob(fallback, pattern, path) || HasPrefix(pattern, path + ['/'])
  {
    if q == pattern {
    } else if HasSuffix(pattern, DEEP) {
      var prefix := TrimSuffix(pattern, DEEP);
      assert pattern == prefix + DEEP;
      DeepAncestors(fallback, prefix, path, q);
    } else if HasSuffix(pattern, SHALLOW) {
      var prefix := TrimSuffix(pattern, SHALLOW);
      assert pattern == prefix + SHALLOW;
      ShallowAncestors(prefix, path, q);
    } else {
      if !HasClassOrEscape(pattern) { MatchKeepsDir(pattern, q); }
      PrefixInDir(q, path);
    }
  }

  /** A pattern that leads through a directory has a match below it. */
  lemma LeadsSomewhere(fallback: Matcher, pattern: string, path: string) returns (q: string)
    requires Plain(fallback, pattern) && HasPrefix(pattern, path + ['/'])
    ensures MatchGlob(fallback, pattern, q) && OnTheWay(path, q)
  {
    q := pattern;
  }

  /** For policies whose wildcards are trailing or in the last segment, a path passes exactly when it is allowed or an ancestor
      of something allowed. */
  lemma TraversableIff(fallback: Matcher, m: Policy, path: string)
    requires AllPlain(fallback, m)
    ensures Traversable(fallback, Some(m), path) <==> exists q :: Allowed(fallback, m, q) && OnTheWay(path, q)
  {
    if Traversable(fallback, Some(m), path) {
      if Allowed(fallback, m, path) {
        assert OnTheWay(path, path);
      } else {
        var i :| 0 <= i < |m.filesystem| && LeadsTo(m.filesystem[i].path, path);
        LeadsToMeansPrefix(m.filesystem[i].path, path);
        var q := LeadsSomewhere(fallback, m.filesystem[i].path, path);
        assert Allowed(fallback, m, q) && OnTheWay(path, q);
      }
    }
    if q :| Allowed(fallback, m, q) && OnTheWay(path, q) {
      WayIsTraversable(fallback, m, path, q);
    }
  }

  lemma WayIsTraversable(fallback: Matcher, m: Policy, path: string, q: string)
    requires AllPlain(fallback, m) && Allowed(fallback, m, q) && OnTheWay(path, q)
    ensures Traversable(fallback, Some(m), path)
  {
    if q != path {
      var i :| 0 <= i < |m.filesystem| && MatchGlob(fallback, m.filesystem[i].path, q);
      AncestorPasses(fallback, m.filesystem[i].path, path, q);
      LeadsToMeansPrefix(m.filesystem[i].path, path);
    }
  }

  /** The path of the first `n` names of a walk from the root. */
  function PathOf(names: seq<string>, n: nat): string
    requires n <= |names|
  {
    if n == 0 then "" else PathOf(names, n - 1) + "/" + names[n - 1]
  }

  lemma {:induction false} WalkIsOnTheWay(names: seq<string>, k: nat, n: nat)
    requires k <= n <= |names|
    ensures OnTheWay(PathOf(names, k), PathOf(names, n))
    decreases n
  {
    if k == n {
    } else {
      WalkIsOnTheWay(names, k, n - 1);
      assert HasPrefix(PathOf(names, n), PathOf(names, n - 1) + ['/']);
      assert HasPrefix(PathOf(names, n), PathOf(names, n - 1));
    }
  }

  /** A lookup walk from the root towards an allowed path is never cut off by the policy. */
  lemma WalkIsNeverCutOff(fallback: Matcher, m: Policy, names: seq<string>, k: nat)
    requires AllPlain(fallback, m) && Allowed(fallback, m, PathOf(names, |names|)) && k <= |names|
    ensures Traversable(fallback, Some(m), PathOf(names, k))
  {
    WalkIsOnTheWay(names, k, |names|);
    WayIsTraversable(fallback, m, PathOf(names, k), PathOf(names, |names|));
  }

  // ---------------------------------------------------------------- exactly when a walk can be cut off

  function Single(pattern: string): Policy { Policy([], [FilesystemEntry("", pattern)]) }

  lemma SingleAllows(fallback: Matcher, pattern: string, path: string)
    ensures Allowed(fallback, Single(pattern), path) <==> MatchGlob(fallback, pattern, path)
    ensures Traversable(fallback, Some(Single(pattern)), path) <==> MatchGlob(fallback, pattern, path) || HasPrefix(pattern, path + ['/'])
  {
    assert Single(pattern).filesystem[0].path == pattern;
    LeadsToMeansPrefix(pattern, path);
  }

  /** The directory of the pattern with its wildcards filled in, without the last separator. */
  function FilledParent(pattern: string): string
    requires '/' in pattern
  {
    Filled(pattern)[..|Dir(pattern)| - 1]
  }

  lemma AtLastSeparator(q: string, n: nat)
    requires n < |q| && q[n] == '/' && forall i :: n < i < |q| ==> q[i] != '/'
    ensures q == q[..n] + ['/'] + q[n + 1..] && '/' !in q[n + 1..]
  {
  }

  lemma FilledShape(pattern: string)
    requires '/' in pattern
    ensures var q, n := Filled(pattern), |Dir(pattern)| - 1;
            n < |q| && q == FilledParent(pattern) + ['/'] + q[n + 1..] && '/' !in q[n + 1..]
  {
    var q, n := Filled(pattern), |Dir(pattern)| - 1;
    assert pattern[n] == '/';
    AtLastSeparator(q, n);
  }

  lemma ParentIsNotMatched(pattern: string)
    requires '/' in pattern
    ensures !Match(pattern, FilledParent(pattern))
  {
    var q, parent := Filled(pattern), FilledParent(pattern);
    FilledShape(pattern);
    assert HasPrefix(q, parent + ['/']);
    FilledMatches(pattern);
    SeparatorsBelow(q, parent);
    MatchKeepsSeparators(pattern, q);
    if Match(pattern, parent) { MatchKeepsSeparators(pattern, parent); }
  }

  lemma ParentIsNotOnPattern(pattern: string)
    requires HasWildcard(Dir(pattern))
    ensures '/' in pattern && !HasPrefix(pattern, FilledParent(pattern) + ['/'])
  {
    var i :| 0 <= i < |Dir(pattern)| && IsWildcard(Dir(pattern)[i]);
    assert pattern[i] != (FilledParent(pattern) + ['/'])[i];
  }

  /** A wildcard before the last separator: filling the wildcards in gives an allowed path whose parent
      directory does not pass. */
  lemma FilledIsCutOff(fallback: Matcher, pattern: string)
    requires !HasClassOrEscape(pattern) && !TrailingWildcard(pattern) && HasWildcard(Dir(pattern))
    ensures '/' in pattern && MatchGlob(fallback, pattern, Filled(pattern))
    ensures !Traversable(fallback, Some(Single(pattern)), FilledParent(pattern))
  {
    ParentIsNotOnPattern(pattern);
    ParentIsNotMatched(pattern);
    FilledMatches(pattern);
    SingleAllows(fallback, pattern, FilledParent(pattern));
  }

  ghost predicate CutsOff(fallback: Matcher, pattern: string, path: string, q: string) {
    && MatchGlob(fallback, pattern, q) && OnTheWay(path, q)
    && !Traversable(fallback, Some(Single(pattern)), path)
  }

  lemma PlainCutsNothingOff(fallback: Matcher, pattern: string, path: string, q: string)
    requires Plain(fallback, pattern)
    ensures !CutsOff(fallback, pattern, path, q)
  {
    SingleAllows(fallback, pattern, q);
    if MatchGlob(fallback, pattern, q) && OnTheWay(path, q) {
      WayIsTraversable(fallback, Single(pattern), path, q);
    }
  }

  /** One pattern never cuts off a path it allows if and only if its wildcards are a trailing one or lie
      after its last separator. */
  lemma NeverCutOffIff(fallback: Matcher, pattern: string)
    requires !HasClassOrEscape(pattern)
    ensures (forall path, q :: !CutsOff(fallback, pattern, path, q)) <==> TrailingWildcard(pattern) || !HasWildcard(Dir(pattern))
  {
    if TrailingWildcard(pattern) || !HasWildcard(Dir(pattern)) {
      forall path, q ensures !CutsOff(fallback, pattern, path, q) {
        PlainCutsNothingOff(fallback, pattern, path, q);
      }
    } else {
      FilledIsCutOff(fallback, pattern);
      FilledShape(pattern);
      assert CutsOff(fallback, pattern, FilledParent(pattern), Filled(pattern));
    }
  }

  lemma {:induction false} PathOfIsJoin(names: seq<string>, n: nat)
    requires 0 < n <= |names|
    ensures PathOf(names, n) == ['/'] + Join(names[..n], '/')
  {
    if n == 1 {
      assert PathOf(names, 0) == "";
    } else {
      PathOfIsJoin(names, n - 1);
      JoinAppend(names[..n - 1], [names[n - 1]], '/');
      assert names[..n] == names[..n - 1] + [names[n - 1]];
    }
  }

  /** The names of an absolute path, and its parent directory as their walk. */
  lemma NamesOf(q: string, parent: string, last: string) returns (names: seq<string>)
    requires q == parent + ['/'] + last && '/' !in last && q[0] == '/'
    ensures names != [] && PathOf(names, |names|) == q && PathOf(names, |names| - 1) == parent
  {
    names := Split(q[1..], '/');
    JoinOfSplit(q[1..], '/');
    PathOfIsJoin(names, |names|);
    assert names[..|names|] == names;
    PartsHaveNoSeparator(q[1..], '/');
    LastSeparator(PathOf(names, |names| - 1), names[|names| - 1], parent, last, '/');
  }

  lemma LastSeparator(a: string, x: string, b: string, y: string, c: char)
    requires a + [c] + x == b + [c] + y && c !in x && c !in y
    ensures a == b
  {
    var s := a + [c] + x;
    assert s[|a|] == c && s[|b|] == c;
    assert forall i :: |a| < i < |s| ==> s[i] == x[i - |a| - 1];
    assert forall i :: |b| < i < |s| ==> s[i] == y[i - |b| - 1];
    assert a == s[..|a|] && b == s[..|b|];
  }

  /** With a wildcard in the middle of an absolute pattern, the walk to some allowed path stops at its parent. */
  lemma MidPathWildcardCutsWalk(fallback: Matcher, pattern: string) returns (names: seq<string>)
    requires !HasClassOrEscape(pattern) && pattern != [] && pattern[0] == '/'
    requires !TrailingWildcard(pattern) && HasWildcard(Dir(pattern))
    ensures names != [] && Allowed(fallback, Single(pattern), PathOf(names, |names|))
    ensures !Traversable(fallback, Some(Single(pattern)), PathOf(names, |names| - 1))
  {
    FilledIsCutOff(fallback, pattern);
    FilledShape(pattern);
    var q, parent := Filled(pattern), FilledParent(pattern);
    names := NamesOf(q, parent, q[|parent| + 1..]);
    SingleAllows(fallback, pattern, q);
  }

  /** The walk to a path the pattern allows gets as far as its first `k` names. */
  ghost predicate WalkPasses(fallback: Matcher, pattern: string, names: seq<string>, k: nat) {
    k <= |names| && Allowed(fallback, Single(pattern), PathOf(names, |names|)) ==>
      Traversable(fallback, Some(Single(pattern)), PathOf(names, k))
  }

  lemma PlainWalkPasses(fallback: Matcher, pattern: string, names: seq<string>, k: nat)
    requires Plain(fallback, pattern)
    ensures WalkPasses(fallback, pattern, names, k)
  {
    if k <= |names| && Allowed(fallback, Single(pattern), PathOf(names, |names|)) {
      WalkIsNeverCutOff(fallback, Single(pattern), names, k);
    }
  }

  /** An absolute pattern lets every walk to a path it allows through if and only if its wildcards are a
      trailing one or lie after its last separator. */
  lemma WalksPassIff(fallback: Matcher, pattern: string)
    requires !HasClassOrEscape(pattern) && pattern != [] && pattern[0] == '/'
    ensures (forall names, k: nat :: WalkPasses(fallback, pattern, names, k))
       <==> TrailingWildcard(pattern) || !HasWildcard(Dir(pattern))
  {
    if TrailingWildcard(pattern) || !HasWildcard(Dir(pattern)) {
      forall names, k: nat ensures WalkPasses(fallback, pattern, names, k) {
        PlainWalkPasses(fallback, pattern, names, k);
      }
    } else {
      var names := MidPathWildcardCutsWalk(fallback, pattern);
      assert !WalkPasses(fallback, pattern, names, |names| - 1);
    }
  }

  // ---------------------------------------------------------------- network keys

  /** The text under which a host and port are listed. */
  function NetworkKey(host: string, port: int): string { host + ":" + Itoa(port) }

  lemma ItoaHasNoColon(n: int)
    ensures ':' !in Itoa(n)
  {
    ItoaDenotes(n);
  }

  /** Listing one host and port allows no other, whatever the host looks like. */
  lemma NetworkKeyIsInjective(host: string, port: int, host': string, port': int)
    requires NetworkKey(host, port) == NetworkKey(host', port')
    ensures host == host' && port == port'
  {
    ItoaHasNoColon(port);
    ItoaHasNoColon(port');
    var key := NetworkKey(host, port);
    assert key == host + [':'] + Itoa(port) && key == host' + [':'] + Itoa(port');
    LastSeparator(host, Itoa(port), host', Itoa(port'), ':');
    assert key[|host| + 1..] == Itoa(port) && key[|host'| + 1..] == Itoa(port');
    ItoaIsInjective(port, port');
  }

  // ---------------------------------------------------------------- the store

  datatype CompiledGlob = CompiledGlob(pattern: string, entry: FilesystemEntry)

  class Store {
    var current: Option<Policy>
    var netIndex: map<string, bool>
    var fsGlobs: seq<CompiledGlob>

    /** The indexes say what the current manifest says. */
    ghost predicate Valid()
      reads this
    {
      current.Some? ==>
        && (forall key :: key in netIndex && netIndex[key] <==> Listed(current.value, key))
        && |fsGlobs| == |current.value.filesystem|
        && forall i :: 0 <= i < |fsGlobs| ==>
             fsGlobs[i] == CompiledGlob(current.value.filesystem[i].path, current.value.filesystem[i])
    }

    constructor ()
      ensures Valid() && current.None?
    {
      current, netIndex, fsGlobs := None, map[], [];
    }

    method Update(m: Option<Policy>)
      modifies this
      ensures Valid() && current == m
    {
      current := m;
      if m.Some? {
        RebuildNetwork(m.value);
        RebuildFilesystem(m.value);
      }
    }

    method RebuildNetwork(m: Policy)
      modifies this`netIndex
      ensures forall key :: key in netIndex && netIndex[key] <==> Listed(m, key)
    {
      netIndex := map[];
      for i := 0 to |m.network|
        invariant forall key :: key in netIndex && netIndex[key] <==> exists j :: 0 <= j < i && m.network[j].pattern == key
      {
        netIndex := netIndex[m.network[i].pattern := true];
      }
    }

    method RebuildFilesystem(m: Policy)
      modifies this`fsGlobs
      ensures |fsGlobs| == |m.filesystem|
      ensures forall i :: 0 <= i < |fsGlobs| ==> fsGlobs[i] == CompiledGlob(m.filesystem[i].path, m.filesystem[i])
    {
      fsGlobs := [];
      for i := 0 to |m.filesystem|
        invariant |fsGlobs| == i
        invariant forall j :: 0 <= j < i ==> fsGlobs[j] == CompiledGlob(m.filesystem[j].path, m.filesystem[j])
      {
        fsGlobs := fsGlobs + [CompiledGlob(m.filesystem[i].path, m.filesystem[i])];
      }
    }

    method IsNetworkAllowed(host: string, port: int) returns (allowed: bool)
      requires Valid()
      ensures allowed <==> current.Some? && Listed(current.value, NetworkKey(host, port))
    {
      if current.None? {
        return false;
      }
      var key := host + ":" + Itoa(port);
      allowed := key in netIndex && netIndex[key];
    }

    /** Allowed exactly as the manifest says, with the first entry that matches. */
    method IsPathAllowed(fallback: Matcher, path: string) returns (allowed: bool, entry: Option<FilesystemEntry>)
      requires Valid()
      ensures allowed <==> current.None? || Allowed(fallback, current.value, path)
      ensures entry.Some? <==> allowed && current.Some?
      ensures entry.Some? ==> exists i: nat :: FirstMatch(fallback, current.value, path, i) && entry.value == current.value.filesystem[i]
    {
      if current.None? {
        return true, None;
      }
      for i := 0 to |fsGlobs|
        invariant NoMatchBefore(fallback, current.value, path, i)
      {
        if MatchGlob(fallback, fsGlobs[i].pattern, path) {
          assert FirstMatch(fallback, current.value, path, i);
          return true, Some(fsGlobs[i].entry);
        }
      }
      return false, None;
    }

    /** `isPathOrPrefixAllowed`. */
    method IsPathOrPrefixAllowed(fallback: Matcher, path: string) returns (allowed: bool)
      requires Valid()
      ensures allowed <==> Traversable(fallback, current, path)
    {
      var direct, _ := IsPathAllowed(fallback, path);
      if direct {
        return true;
      }
      var m := current;
      if m.None? {
        return true;
      }
      allowed := SearchPrefix(m.value, path);
    }
  }

  /** The second half of `isPathOrPrefixAllowed`. */
  method SearchPrefix(m: Policy, path: string) returns (found: bool)
    ensures found <==> SomeLeadTo(m, path)
  {
    for i := 0 to |m.filesystem|
      invariant forall j :: 0 <= j < i ==> !LeadsTo(m.filesystem[j].path, path)
    {
      if HasPrefix(m.filesystem[i].path, path + "/") || HasPrefix(m.filesystem[i].path, path + DEEP) {
        assert LeadsTo(m.filesystem[i].path, path);
        return true;
      }
    }
    return false;
  }
}
