/** The string operations the parsers share, after Go's `strings` package. */
module Text {

  predicate HasPrefix(s: string, p: string) { p <= s }

  predicate HasSuffix(s: string, p: string) { |p| <= |s| && s[|s| - |p|..] == p }

  function TrimSuffix(s: string, p: string): string {
    if HasSuffix(s, p) then s[..|s| - |p|] else s
  }

  /** The first position of `c`, or the length of the string. */
  function IndexOf(s: string, c: char): (i: nat)
    ensures i <= |s| && (forall j :: 0 <= j < i ==> s[j] != c) && (i < |s| ==> s[i] == c)
    ensures c in s <==> i < |s|
  {
    if s == [] then 0 else if s[0] == c then 0 else 1 + IndexOf(s[1..], c)
  }

  // ---------------------------------------------------------------- splitting at a separator

  function Split(s: string, c: char): (parts: seq<string>)
    ensures parts != []
    decreases |s|
  {
    var i := IndexOf(s, c);
    if i == |s| then [s] else [s[..i]] + Split(s[i + 1..], c)
  }

  function Join(parts: seq<string>, c: char): string
    requires parts != []
  {
    if |parts| == 1 then parts[0] else parts[0] + [c] + Join(parts[1..], c)
  }

  lemma {:induction false} JoinOfSplit(s: string, c: char)
    ensures Join(Split(s, c), c) == s
    decreases |s|
  {
    var i := IndexOf(s, c);
    if i == |s| {
    } else {
      var head, rest := s[..i], Split(s[i + 1..], c);
      JoinOfSplit(s[i + 1..], c);
      assert Split(s, c) == [head] + rest && ([head] + rest)[1..] == rest;
      assert Join([head] + rest, c) == head + [c] + Join(rest, c);
      assert s == head + [c] + s[i + 1..];
    }
  }

  lemma Regroup<T>(x: seq<T>, y: seq<T>, z: seq<T>)
    ensures x + (y + z) == (x + y) + z
  {
  }

  lemma SplitAt(a: string, b: string, c: char)
    requires c !in a
    ensures Split(a + [c] + b, c) == [a] + Split(b, c)
  {
    var s := a + [c] + b;
    assert s[|a|] == c && s[..|a|] == a && s[|a| + 1..] == b;
    assert IndexOf(s, c) == |a|;
  }

  /** Splitting distributes over a separator. */
  lemma {:induction false} SplitAppend(a: string, b: string, c: char)
    ensures Split(a + [c] + b, c) == Split(a, c) + Split(b, c)
    decreases |a|
  {
    var i := IndexOf(a, c);
    if i == |a| {
      SplitAt(a, b, c);
    } else {
      var head, tail := a[..i], a[i + 1..];
      var sep, rest := [c], tail + [c] + b;
      assert a == head + sep + tail;
      Regroup(head + sep, tail, sep);
      Regroup(head + sep, tail + sep, b);
      SplitAt(head, rest, c);
      SplitAt(head, tail, c);
      SplitAppend(tail, b, c);
      Regroup([head], Split(tail, c), Split(b, c));
    }
  }

  lemma {:induction false} JoinAppend(a: seq<string>, b: seq<string>, c: char)
    requires a != [] && b != []
    ensures Join(a + b, c) == Join(a, c) + [c] + Join(b, c)
  {
    if |a| == 1 {
      assert (a + b)[1..] == b;
    } else {
      assert (a + b)[1..] == a[1..] + b;
      JoinAppend(a[1..], b, c);
    }
  }

  lemma {:induction false} PartsHaveNoSeparator(s: string, c: char)
    ensures forall i :: 0 <= i < |Split(s, c)| ==> c !in Split(s, c)[i]
    decreases |s|
  {
    var i := IndexOf(s, c);
    if i < |s| {
      PartsHaveNoSeparator(s[i + 1..], c);
    }
  }

  lemma {:induction false} SplitOfJoin(parts: seq<string>, c: char)
    requires parts != [] && forall i :: 0 <= i < |parts| ==> c !in parts[i]
    ensures Split(Join(parts, c), c) == parts
  {
    if |parts| == 1 {
      OnePart(parts[0], c);
    } else {
      SplitOfJoin(parts[1..], c);
      SplitAt(parts[0], Join(parts[1..], c), c);
    }
  }

  lemma SeveralParts(s: string, c: char)
    requires c in s
    ensures 1 < |Split(s, c)|
  {
    var i := IndexOf(s, c);
    var rest := Split(s[i + 1..], c);
    assert Split(s, c) == [s[..i]] + rest;
  }

  lemma OnePart(s: string, c: char)
    requires c !in s
    ensures Split(s, c) == [s]
  {
    assert IndexOf(s, c) == |s|;
  }

  lemma PrefixMeansPartsExtend(p: string, s: string, c: char)
    requires HasPrefix(s, p + [c])
    ensures Split(p, c) < Split(s, c)
  {
    var rest := s[|p| + 1..];
    assert s == p + [c] + rest;
    SplitAppend(p, rest, c);
  }

  lemma PartsExtendMeansPrefix(p: string, s: string, c: char)
    requires Split(p, c) < Split(s, c)
    ensures HasPrefix(s, p + [c])
  {
    var a, b := Split(p, c), Split(s, c)[|Split(p, c)|..];
    assert Split(s, c) == a + b;
    JoinAppend(a, b, c);
    JoinOfSplit(p, c);
    JoinOfSplit(s, c);
  }

  /** One string starts with another and a separator exactly when its parts extend the other's. */
  lemma PrefixIffPartsExtend(p: string, s: string, c: char)
    ensures HasPrefix(s, p + [c]) <==> Split(p, c) < Split(s, c)
    ensures s == p <==> Split(p, c) == Split(s, c)
  {
    if HasPrefix(s, p + [c]) { PrefixMeansPartsExtend(p, s, c); }
    if Split(p, c) < Split(s, c) { PartsExtendMeansPrefix(p, s, c); }
    JoinOfSplit(p, c);
    JoinOfSplit(s, c);
  }

  // ---------------------------------------------------------------- decimal numbers

  predicate IsDigit(c: char) { '0' <= c <= '9' }

  function Digit(d: nat): (c: char)
    requires d < 10
    ensures IsDigit(c)
  {
    ('0' as int + d) as char
  }

  function DigitValue(c: char): (d: nat)
    requires IsDigit(c)
    ensures d < 10 && Digit(d) == c
  {
    c as int - '0' as int
  }

  /** The decimal form of a number, without leading zeros. */
  function Utoa(n: nat): (s: string)
    ensures s != [] && forall i :: 0 <= i < |s| ==> IsDigit(s[i])
  {
    if n < 10 then [Digit(n)] else Utoa(n / 10) + [Digit(n % 10)]
  }

  function Itoa(n: int): string {
    if n < 0 then ['-'] + Utoa(-n) else Utoa(n)
  }

  /** The number a digit string denotes. */
  function Denotes(s: string): nat
    requires forall i :: 0 <= i < |s| ==> IsDigit(s[i])
  {
    if s == [] then 0 else 10 * Denotes(s[..|s| - 1]) + DigitValue(s[|s| - 1])
  }

  lemma {:induction false} UtoaDenotes(n: nat)
    ensures Denotes(Utoa(n)) == n
  {
    var s := Utoa(n);
    assert DigitValue(Digit(n % 10)) == n % 10;
    if n >= 10 {
      assert s[..|s| - 1] == Utoa(n / 10);
      UtoaDenotes(n / 10);
    } else {
      assert s[..0] == [];
    }
  }

  /** The decimal form has no leading zero. */
  lemma {:induction false} UtoaLeads(n: nat)
    requires 0 < n
    ensures Utoa(n)[0] != '0'
  {
    if n < 10 {
      assert DigitValue(Digit(n)) == n;
    } else {
      UtoaLeads(n / 10);
    }
  }

  predicate AllDigits(s: string) { forall i :: 0 <= i < |s| ==> IsDigit(s[i]) }

  /** The signed form: the number's digits, after a minus sign if it is negative. */
  lemma ItoaDenotes(n: int)
    ensures n >= 0 ==> AllDigits(Itoa(n)) && Denotes(Itoa(n)) == n
    ensures n < 0 ==> Itoa(n)[0] == '-' && AllDigits(Itoa(n)[1..]) && Denotes(Itoa(n)[1..]) == -n
  {
    UtoaDenotes(if n < 0 then -n else n);
    if n < 0 { assert Itoa(n)[1..] == Utoa(-n); }
  }

  lemma ItoaIsInjective(m: int, n: int)
    requires Itoa(m) == Itoa(n)
    ensures m == n
  {
    ItoaDenotes(m);
    ItoaDenotes(n);
  }
}
