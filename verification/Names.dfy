/** Template names: parsing and cleaning `namespace/alias:tag`, and printing it back. */
module Names {
  import opened Text
  import opened Wrappers

  const DEFAULT_TAG := "default"

  datatype NameError = InvalidTag | InvalidNamespace | InvalidTemplateId

  /** A cleaned identifier, with or without a namespace in it, and its tag unless that is the default. */
  datatype Name = Name(identifier: string, tag: Option<string>)

  // ---------------------------------------------------------------- characters

  predicate IsIdentifierChar(c: char) { 'a' <= c <= 'z' || IsDigit(c) || c == '-' || c == '_' }

  predicate IsTagChar(c: char) { IsIdentifierChar(c) || c == '.' }

  predicate IsIdentifier(s: string) { s != [] && forall i :: 0 <= i < |s| ==> IsIdentifierChar(s[i]) }

  predicate IsTag(s: string) { s != [] && forall i :: 0 <= i < |s| ==> IsTagChar(s[i]) }

  /** The library's Unicode tables, of which only their ASCII part matters: tag characters are not white space
      and are their own lower case. */
  datatype Unicode = Unicode(isSpace: char -> bool, lower: char -> char)

  ghost predicate AgreesOnAscii(u: Unicode) {
    forall c :: IsTagChar(c) ==> !u.isSpace(c) && u.lower(c) == c
  }

  function TrimLeft(u: Unicode, s: string): string {
    if s != [] && u.isSpace(s[0]) then TrimLeft(u, s[1..]) else s
  }

  function TrimRight(u: Unicode, s: string): string {
    if s != [] && u.isSpace(s[|s| - 1]) then TrimRight(u, s[..|s| - 1]) else s
  }

  function TrimSpace(u: Unicode, s: string): string { TrimRight(u, TrimLeft(u, s)) }

  function ToLower(u: Unicode, s: string): (r: string)
    ensures |r| == |s| && forall i :: 0 <= i < |s| ==> r[i] == u.lower(s[i])
  {
    seq(|s|, i requires 0 <= i < |s| => u.lower(s[i]))
  }

  function Clean(u: Unicode, s: string): string { ToLower(u, TrimSpace(u, s)) }

  /** A string without white space at its ends is left alone by trimming. */
  lemma NothingToTrim(u: Unicode, s: string)
    requires s != [] ==> !u.isSpace(s[0]) && !u.isSpace(s[|s| - 1])
    ensures TrimSpace(u, s) == s
  {
  }

  lemma CleanIsIdentity(u: Unicode, s: string)
    requires AgreesOnAscii(u) && IsTag(s)
    ensures Clean(u, s) == s
  {
    NothingToTrim(u, s);
  }

  // ---------------------------------------------------------------- parsing

  /** `strings.Cut`. */
  function Cut(s: string, c: char): (string, Option<string>) {
    var i := IndexOf(s, c);
    if i == |s| then (s, None) else (s[..i], Some(s[i + 1..]))
  }

  /** `SplitIdentifier`: the namespace if there is one, and the alias. */
  function SplitIdentifier(identifier: string): (Option<string>, string) {
    match Cut(identifier, '/')
    case (before, None) => (None, before)
    case (before, Some(after)) => (Some(before), after)
  }

  function WithTag(identifier: string, tag: string): string { identifier + ":" + tag }

  function WithNamespace(namespace: string, alias: string): string { namespace + "/" + alias }

  function ParseTag(u: Unicode, tagPart: Option<string>): Result<Option<string>, NameError> {
    if tagPart.None? then Ok(None)
    else
      var cleaned := Clean(u, tagPart.value);
      if !IsTag(cleaned) then Err(InvalidTag) else Ok(if cleaned == DEFAULT_TAG then None else Some(cleaned))
  }

  function ParseIdentifier(u: Unicode, part: string): Result<string, NameError> {
    var (namespacePart, aliasPart) := SplitIdentifier(part);
    if namespacePart.Some? && !IsIdentifier(Clean(u, namespacePart.value)) then Err(InvalidNamespace)
    else if !IsIdentifier(Clean(u, aliasPart)) then Err(InvalidTemplateId)
    else Ok(if namespacePart.Some? then WithNamespace(Clean(u, namespacePart.value), Clean(u, aliasPart)) else Clean(u, aliasPart))
  }

  function ParseName(u: Unicode, input: string): Result<Name, NameError> {
    var (identifierPart, tagPart) := Cut(TrimSpace(u, input), ':');
    var tag := ParseTag(u, tagPart);
    if tag.Err? then Err(tag.error)
    else
      var identifier := ParseIdentifier(u, identifierPart);
      if identifier.Err? then Err(identifier.error) else Ok(Name(identifier.value, tag.value))
  }

  // ---------------------------------------------------------------- round trips

  /** A clean identifier: an alias, or a namespace and an alias. */
  predicate IsCanonical(identifier: string) {
    var (namespace, alias) := SplitIdentifier(identifier);
    (namespace.Some? ==> IsIdentifier(namespace.value)) && IsIdentifier(alias)
  }

  lemma CutAt(a: string, b: string, c: char)
    requires c !in a
    ensures Cut(a + [c] + b, c) == (a, Some(b))
  {
    var s := a + [c] + b;
    assert s[|a|] == c && s[..|a|] == a && s[|a| + 1..] == b;
    assert IndexOf(s, c) == |a|;
  }

  lemma CutWithout(s: string, c: char)
    requires c !in s
    ensures Cut(s, c) == (s, None)
  {
  }

  /** Splitting inverts the namespace printer. */
  lemma SplitInvertsWithNamespace(namespace: string, alias: string)
    requires IsIdentifier(namespace) && IsIdentifier(alias)
    ensures SplitIdentifier(WithNamespace(namespace, alias)) == (Some(namespace), alias)
    ensures SplitIdentifier(alias) == (None, alias)
    ensures IsCanonical(WithNamespace(namespace, alias)) && IsCanonical(alias)
  {
    CutAt(namespace, alias, '/');
    CutWithout(alias, '/');
  }

  lemma ParsedIdentifierIsCanonical(u: Unicode, part: string)
    requires ParseIdentifier(u, part).Ok?
    ensures IsCanonical(ParseIdentifier(u, part).value)
  {
    var (namespacePart, aliasPart) := SplitIdentifier(part);
    var alias := Clean(u, aliasPart);
    SplitInvertsWithNamespace(if namespacePart.Some? then Clean(u, namespacePart.value) else alias, alias);
  }

  /** What parsing accepts is canonical, and a reported tag is valid and not the default one. */
  lemma ParsedIsCanonical(u: Unicode, input: string)
    requires ParseName(u, input).Ok?
    ensures IsCanonical(ParseName(u, input).value.identifier)
    ensures var tag := ParseName(u, input).value.tag; tag.Some? ==> IsTag(tag.value) && tag.value != DEFAULT_TAG
  {
    var (identifierPart, _) := Cut(TrimSpace(u, input), ':');
    ParsedIdentifierIsCanonical(u, identifierPart);
  }

  lemma CanonicalShape(u: Unicode, identifier: string)
    requires AgreesOnAscii(u) && IsCanonical(identifier)
    ensures identifier != [] && ':' !in identifier && IsTagChar(identifier[0]) && IsTagChar(identifier[|identifier| - 1])
    ensures ParseIdentifier(u, identifier) == Ok(identifier)
  {
    var (namespace, alias) := SplitIdentifier(identifier);
    CleanIsIdentity(u, alias);
    if namespace.Some? {
      CleanIsIdentity(u, namespace.value);
      var i := IndexOf(identifier, '/');
      assert identifier == namespace.value + ['/'] + alias;
    }
  }

  /** Printing a canonical identifier with a valid tag and parsing gives them back; the default tag is the
      same as none. */
  lemma ParseOfPrinted(u: Unicode, identifier: string, tag: string)
    requires AgreesOnAscii(u) && IsCanonical(identifier) && IsTag(tag)
    ensures ParseName(u, WithTag(identifier, tag)) == Ok(Name(identifier, if tag == DEFAULT_TAG then None else Some(tag)))
  {
    CanonicalShape(u, identifier);
    var s := WithTag(identifier, tag);
    assert s[0] == identifier[0] && s[|s| - 1] == tag[|tag| - 1];
    NothingToTrim(u, s);
    CutAt(identifier, tag, ':');
    CleanIsIdentity(u, tag);
  }

  /** Without a tag a canonical identifier parses to itself. */
  lemma ParseOfBare(u: Unicode, identifier: string)
    requires AgreesOnAscii(u) && IsCanonical(identifier)
    ensures ParseName(u, identifier) == Ok(Name(identifier, None))
  {
    CanonicalShape(u, identifier);
    NothingToTrim(u, identifier);
    CutWithout(identifier, ':');
  }

  /** The printed form of a parsed name. */
  function Print(name: Name): string {
    if name.tag.Some? then WithTag(name.identifier, name.tag.value) else WithTag(name.identifier, DEFAULT_TAG)
  }

  /** For every accepted input, printing the result with its tag and parsing again gives the same identifier
      and tag. */
  lemma ParsePrintParse(u: Unicode, input: string)
    requires AgreesOnAscii(u) && ParseName(u, input).Ok?
    ensures ParseName(u, Print(ParseName(u, input).value)) == ParseName(u, input)
    ensures ParseName(u, input).value.tag.None? ==> ParseName(u, ParseName(u, input).value.identifier) == ParseName(u, input)
  {
    ParsedIsCanonical(u, input);
    var name := ParseName(u, input).value;
    ParseOfPrinted(u, name.identifier, if name.tag.Some? then name.tag.value else DEFAULT_TAG);
    ParseOfBare(u, name.identifier);
  }

  // ---------------------------------------------------------------- any spelling

  lemma {:induction false} TrimRightShape(u: Unicode, s: string)
    ensures TrimRight(u, s) <= s && TrimRight(u, TrimRight(u, s)) == TrimRight(u, s)
    ensures s != [] && !u.isSpace(s[0]) ==> TrimRight(u, s) != []
  {
    if s == [] || !u.isSpace(s[|s| - 1]) {
    } else {
      TrimRightShape(u, s[..|s| - 1]);
    }
  }

  lemma {:induction false} TrimRightAppend(u: Unicode, a: string, b: string)
    ensures TrimRight(u, b) != [] ==> TrimRight(u, a + b) == a + TrimRight(u, b)
    ensures TrimRight(u, b) == [] ==> TrimRight(u, a + b) == TrimRight(u, a)
    decreases |b|
  {
    if b == [] {
      assert a + b == a;
    } else if !u.isSpace(b[|b| - 1]) {
    } else {
      assert (a + b)[..|a + b| - 1] == a + b[..|b| - 1];
      TrimRightAppend(u, a, b[..|b| - 1]);
    }
  }

  lemma {:induction false} TrimsCommute(u: Unicode, s: string)
    ensures TrimLeft(u, TrimRight(u, s)) == TrimRight(u, TrimLeft(u, s))
  {
    if s == [] {
    } else if !u.isSpace(s[0]) {
      TrimRightShape(u, s);
      assert TrimRight(u, s)[0] == s[0];
    } else {
      assert s == [s[0]] + s[1..];
      TrimRightAppend(u, [s[0]], s[1..]);
      TrimsCommute(u, s[1..]);
      assert TrimRight(u, s) != [] ==> TrimRight(u, s)[1..] == TrimRight(u, s[1..]);
      assert TrimRight(u, [s[0]]) == [] by { assert [s[0]][..0] == []; }
    }
  }

  /** Trailing white space does not change what a string is cleaned to. */
  lemma CleanIgnoresEnd(u: Unicode, s: string)
    ensures Clean(u, TrimRight(u, s)) == Clean(u, s)
  {
    TrimsCommute(u, s);
    TrimRightShape(u, TrimLeft(u, s));
  }

  lemma TrimLeftNonEmpty(u: Unicode, s: string)
    requires TrimRight(u, TrimLeft(u, s)) != []
    ensures TrimRight(u, s) != []
  {
    TrimsCommute(u, s);
    assert TrimLeft(u, []) == [];
  }

  predicate AllSpace(u: Unicode, s: string) { forall i :: 0 <= i < |s| ==> u.isSpace(s[i]) }

  lemma {:induction false} TrimLeftSpace(u: Unicode, left: string, s: string)
    requires AllSpace(u, left)
    ensures TrimLeft(u, left + s) == TrimLeft(u, s)
  {
    if left == [] {
      assert left + s == s;
    } else {
      assert (left + s)[0] == left[0] && (left + s)[1..] == left[1..] + s;
      TrimLeftSpace(u, left[1..], s);
    }
  }

  lemma {:induction false} TrimRightSpace(u: Unicode, s: string, right: string)
    requires AllSpace(u, right)
    ensures TrimRight(u, s + right) == TrimRight(u, s)
  {
    if right == [] {
      assert s + right == s;
    } else {
      var n := |right| - 1;
      assert (s + right)[|s| + n] == right[n] && (s + right)[..|s| + n] == s + right[..n];
      TrimRightSpace(u, s, right[..n]);
    }
  }

  /** Trimming takes away exactly the white space at both ends. */
  lemma TrimSpaceMeaning(u: Unicode, left: string, s: string, right: string)
    requires AllSpace(u, left) && AllSpace(u, right) && s != [] && !u.isSpace(s[0]) && !u.isSpace(s[|s| - 1])
    ensures TrimSpace(u, left + s + right) == s && TrimSpace(u, left) == []
  {
    assert left + s + right == left + (s + right);
    TrimLeftSpace(u, left, s + right);
    assert (s + right)[0] == s[0];
    TrimRightSpace(u, s, right);
    assert left + [] == left;
    TrimLeftSpace(u, left, []);
  }

  lemma {:induction false} TrimLeftStops(u: Unicode, a: string, c: char, b: string)
    requires !u.isSpace(c)
    ensures TrimLeft(u, a + [c] + b) == TrimLeft(u, a) + [c] + b
  {
    var s := a + [c] + b;
    if a == [] {
      assert s[0] == c;
    } else if u.isSpace(a[0]) {
      assert s[0] == a[0] && s[1..] == a[1..] + [c] + b;
      TrimLeftStops(u, a[1..], c, b);
    } else {
      assert s[0] == a[0];
    }
  }

  lemma TrimRightStops(u: Unicode, a: string, c: char, b: string)
    requires !u.isSpace(c)
    ensures TrimRight(u, a + [c] + b) == a + [c] + TrimRight(u, b)
  {
    assert [c][..0] == [] && TrimRight(u, [c]) == [c];
    TrimRightAppend(u, a + [c], b);
    TrimRightAppend(u, a, [c]);
    if TrimRight(u, b) == [] { assert a + [c] + TrimRight(u, b) == a + [c]; }
  }

  lemma {:induction false} TrimLeftIsSuffix(u: Unicode, s: string)
    ensures TrimLeft(u, TrimLeft(u, s)) == TrimLeft(u, s) && forall c :: c in TrimLeft(u, s) ==> c in s
  {
    if s == [] || !u.isSpace(s[0]) {
    } else {
      TrimLeftIsSuffix(u, s[1..]);
    }
  }

  /** How namespace and alias are read, in whatever spelling: each is cleaned and must then be an identifier. */
  lemma IdentifierSpelling(u: Unicode, namespace: string, alias: string)
    requires '/' !in namespace
    ensures ParseIdentifier(u, WithNamespace(namespace, alias)) ==
              if !IsIdentifier(Clean(u, namespace)) then Err(InvalidNamespace)
              else if !IsIdentifier(Clean(u, alias)) then Err(InvalidTemplateId)
              else Ok(WithNamespace(Clean(u, namespace), Clean(u, alias)))
    ensures '/' !in alias ==>
              ParseIdentifier(u, alias) == if IsIdentifier(Clean(u, alias)) then Ok(Clean(u, alias)) else Err(InvalidTemplateId)
  {
    CutAt(namespace, alias, '/');
    if '/' !in alias { CutWithout(alias, '/'); }
  }

  /** White space around an identifier does not change what it parses to. */
  lemma IdentifierIgnoresSpace(u: Unicode, part: string)
    requires !u.isSpace('/')
    ensures ParseIdentifier(u, TrimLeft(u, part)) == ParseIdentifier(u, part) == ParseIdentifier(u, TrimRight(u, part))
  {
    if '/' in part {
      var i := IndexOf(part, '/');
      assert part == part[..i] + ['/'] + part[i + 1..];
      PartsIgnoreSpace(u, part[..i], part[i + 1..]);
    } else {
      AliasIgnoresSpace(u, part);
    }
  }

  lemma AliasIgnoresSpace(u: Unicode, alias: string)
    requires '/' !in alias
    ensures ParseIdentifier(u, TrimLeft(u, alias)) == ParseIdentifier(u, alias) == ParseIdentifier(u, TrimRight(u, alias))
  {
    TrimLeftIsSuffix(u, alias);
    TrimRightShape(u, alias);
    CleanIgnoresEnd(u, alias);
    IdentifierSpelling(u, [], alias);
    IdentifierSpelling(u, [], TrimLeft(u, alias));
    IdentifierSpelling(u, [], TrimRight(u, alias));
  }

  lemma PartsIgnoreSpace(u: Unicode, namespace: string, alias: string)
    requires !u.isSpace('/') && '/' !in namespace
    ensures var part := namespace + ['/'] + alias;
            ParseIdentifier(u, TrimLeft(u, part)) == ParseIdentifier(u, part) == ParseIdentifier(u, TrimRight(u, part))
  {
    TrimLeftStops(u, namespace, '/', alias);
    TrimRightStops(u, namespace, '/', alias);
    TrimLeftIsSuffix(u, namespace);
    CleanIgnoresEnd(u, alias);
    IdentifierSpelling(u, namespace, alias);
    IdentifierSpelling(u, TrimLeft(u, namespace), alias);
    IdentifierSpelling(u, namespace, TrimRight(u, alias));
  }

  /** What any input parses to: the tag after the first colon is judged first, then the identifier before it; white space
      around the whole makes no difference. */
  lemma NameSpelling(u: Unicode, identifier: string, tag: string)
    requires !u.isSpace('/') && !u.isSpace(':') && ':' !in identifier
    ensures ParseName(u, identifier) ==
              (var r := ParseIdentifier(u, identifier); if r.Err? then Err(r.error) else Ok(Name(r.value, None)))
    ensures ParseName(u, WithTag(identifier, tag)) ==
              var cleaned, r := Clean(u, tag), ParseIdentifier(u, identifier);
              if !IsTag(cleaned) then Err(InvalidTag)
              else if r.Err? then Err(r.error)
              else Ok(Name(r.value, if cleaned == DEFAULT_TAG then None else Some(cleaned)))
  {
    TrimLeftIsSuffix(u, identifier);
    TrimRightShape(u, TrimLeft(u, identifier));
    IdentifierIgnoresSpace(u, identifier);
    IdentifierIgnoresSpace(u, TrimLeft(u, identifier));
    CutWithout(TrimSpace(u, identifier), ':');
    TrimLeftStops(u, identifier, ':', tag);
    TrimRightStops(u, TrimLeft(u, identifier), ':', tag);
    CutAt(TrimLeft(u, identifier), TrimRight(u, tag), ':');
    CleanIgnoresEnd(u, tag);
  }

  /** Case and white space around a tag do not matter: any spelling that cleans to a valid tag parses as that tag. */
  lemma TagSpelling(u: Unicode, identifier: string, spelled: string)
    requires AgreesOnAscii(u) && IsCanonical(identifier) && IsTag(Clean(u, spelled))
    ensures ParseName(u, WithTag(identifier, spelled)) == ParseName(u, WithTag(identifier, Clean(u, spelled)))
  {
    CanonicalShape(u, identifier);
    var s, front, tag := WithTag(identifier, spelled), identifier + [':'], TrimRight(u, spelled);
    assert s == front + spelled && s[0] == identifier[0];
    TrimLeftNonEmpty(u, spelled);
    TrimRightAppend(u, front, spelled);
    assert TrimSpace(u, s) == identifier + [':'] + tag;
    CutAt(identifier, tag, ':');
    CleanIgnoresEnd(u, spelled);
    ParseOfPrinted(u, identifier, Clean(u, spelled));
  }

  /** Any spelling of the default tag is the same as no tag. */
  lemma ExplicitDefaultTag(u: Unicode, identifier: string, spelled: string)
    requires AgreesOnAscii(u) && IsCanonical(identifier) && Clean(u, spelled) == DEFAULT_TAG
    ensures ParseName(u, WithTag(identifier, spelled)) == ParseName(u, identifier) == Ok(Name(identifier, None))
  {
    TagSpelling(u, identifier, spelled);
    ParseOfPrinted(u, identifier, DEFAULT_TAG);
    ParseOfBare(u, identifier);
  }
}
