/** The string operations that the modelled packages share: whitespace trimming,
    lower-casing and the byte order of strings. */
module Text {

  // unicode.IsSpace
  predicate IsSpace(c: char) {
    || c == ' ' || '\t' <= c <= '\r'
    || c == '\U{85}' || c == '\U{a0}' || c == '\U{1680}'
    || '\U{2000}' <= c <= '\U{200a}'
    || c == '\U{2028}' || c == '\U{2029}' || c == '\U{202f}'
    || c == '\U{205f}' || c == '\U{3000}'
  }

  function TrimLeft(s: string): string {
    if s != "" && IsSpace(s[0]) then TrimLeft(s[1..]) else s
  }

  function TrimRight(s: string): string {
    if s != "" && IsSpace(s[|s| - 1]) then TrimRight(s[..|s| - 1]) else s
  }

  function TrimSpace(s: string): string {
    TrimRight(TrimLeft(s))
  }

  /** Trimming leaves a string alone when both of its ends are solid. */
  lemma TrimSolid(s: string)
    requires s != "" ==> !IsSpace(s[0]) && !IsSpace(s[|s| - 1])
    ensures TrimSpace(s) == s
  {}

  lemma {:induction false} TrimRightEnds(s: string)
    ensures var t := TrimRight(s);
            && t <= s
            && (t != "" ==> !IsSpace(t[|t| - 1]))
  {
    if s != "" && IsSpace(s[|s| - 1]) { TrimRightEnds(s[..|s| - 1]); }
  }

  lemma {:induction false} TrimLeftEnds(s: string)
    ensures var t := TrimLeft(s); t != "" ==> !IsSpace(t[0])
  {
    if s != "" && IsSpace(s[0]) { TrimLeftEnds(s[1..]); }
  }

  ghost predicate AllSpace(s: string) { forall i | 0 <= i < |s| :: IsSpace(s[i]) }

  lemma {:induction false} TrimLeftParts(s: string) returns (front: string)
    ensures s == front + TrimLeft(s) && AllSpace(front)
  {
    if s != "" && IsSpace(s[0]) {
      front := TrimLeftParts(s[1..]);
      front := [s[0]] + front;
      assert s == [s[0]] + s[1..];
    } else {
      front := "";
    }
  }

  lemma {:induction false} TrimRightParts(s: string) returns (back: string)
    ensures s == TrimRight(s) + back && AllSpace(back)
  {
    if s != "" && IsSpace(s[|s| - 1]) {
      back := TrimRightParts(s[..|s| - 1]);
      back := back + [s[|s| - 1]];
      assert s == s[..|s| - 1] + [s[|s| - 1]];
    } else {
      back := "";
    }
  }

  /** Trimming takes exactly the white space off both ends. */
  lemma TrimSpaceParts(s: string) returns (front: string, back: string)
    ensures s == front + TrimSpace(s) + back && AllSpace(front) && AllSpace(back)
    ensures TrimSpace(s) != "" ==> !IsSpace(TrimSpace(s)[0]) && !IsSpace(TrimSpace(s)[|TrimSpace(s)| - 1])
  {
    front := TrimLeftParts(s);
    back := TrimRightParts(TrimLeft(s));
    TrimLeftEnds(s);
    TrimRightEnds(TrimLeft(s));
  }

  lemma TrimIdempotent(s: string)
    ensures TrimSpace(TrimSpace(s)) == TrimSpace(s)
  {
    TrimLeftEnds(s);
    TrimRightEnds(TrimLeft(s));
    TrimSolid(TrimSpace(s));
  }

  lemma SamePrefix(prefix: string, a: string, b: string)
    requires prefix + a == prefix + b
    ensures a == b
  {
    assert a == (prefix + a)[|prefix|..] && b == (prefix + b)[|prefix|..];
  }

  function LowerChar(c: char): char {
    if 'A' <= c <= 'Z' then c + 32 as char else c
  }

  function Lower(s: string): string {
    seq(|s|, i requires 0 <= i < |s| => LowerChar(s[i]))
  }

  function UpperChar(c: char): char {
    if 'a' <= c <= 'z' then c - 32 as char else c
  }

  function Upper(s: string): string {
    seq(|s|, i requires 0 <= i < |s| => UpperChar(s[i]))
  }

  // strings.ToLower(strings.TrimSpace(s))
  function Normal(s: string): string {
    Lower(TrimSpace(s))
  }

  // A capital and its small letter.
  ghost predicate CasePair(c: char, d: char) { 'A' <= c <= 'Z' && d as int == c as int + 32 }

  ghost predicate SameButCase(a: string, b: string) {
    && |a| == |b|
    && forall i | 0 <= i < |a| :: a[i] == b[i] || CasePair(a[i], b[i]) || CasePair(b[i], a[i])
  }

  lemma LowerCharSame(c: char, d: char)
    ensures LowerChar(c) == LowerChar(d) <==> c == d || CasePair(c, d) || CasePair(d, c)
  {}

  lemma LowerSame(a: string, b: string)
    ensures Lower(a) == Lower(b) <==> SameButCase(a, b)
  {
    if |a| == |b| {
      forall i | 0 <= i < |a|
        ensures Lower(a)[i] == Lower(b)[i] <==> a[i] == b[i] || CasePair(a[i], b[i]) || CasePair(b[i], a[i])
      {
        LowerCharSame(a[i], b[i]);
      }
    } else {
      assert |Lower(a)| != |Lower(b)|;
    }
  }

  /** Two strings have one normal form exactly when, trimmed, they differ in case at most. */
  lemma NormalSame(a: string, b: string)
    ensures Normal(a) == Normal(b) <==> SameButCase(TrimSpace(a), TrimSpace(b))
  {
    LowerSame(TrimSpace(a), TrimSpace(b));
  }

  lemma NormalIdempotent(s: string)
    ensures Normal(Normal(s)) == Normal(s)
  {
    TrimLeftEnds(s);
    TrimRightEnds(TrimLeft(s));
    TrimSolid(Normal(s));
  }

  /** Byte order of strings: the order of Go's `<`, of sort.Strings and of Lua's `<`. */
  predicate Less(a: string, b: string) {
    b != "" && (a == "" || a[0] < b[0] || (a[0] == b[0] && Less(a[1..], b[1..])))
  }

  // The first difference between a and b is at i.
  ghost predicate DifferAt(a: string, b: string, i: nat) {
    i < |a| && i < |b| && a[i] != b[i] && forall j | 0 <= j < i :: a[j] == b[j]
  }

  /** A string comes before those it is a proper prefix of, and before those with a greater
      character where the two first differ. */
  lemma {:induction false} LessIsLexicographic(a: string, b: string)
    ensures Less(a, b) <==> a < b || exists i: nat :: DifferAt(a, b, i) && a[i] < b[i]
  {
    if a != "" && b != "" {
      if a[0] == b[0] {
        var s, t := a[1..], b[1..];
        LessIsLexicographic(s, t);
        assert a == [a[0]] + s && b == [a[0]] + t;
        forall i: nat ensures DifferAt(a, b, i + 1) <==> DifferAt(s, t, i) { LaterDifference(a, b, i); }
        if i: nat :| DifferAt(a, b, i) && a[i] < b[i] { assert DifferAt(s, t, i - 1); }
        if i: nat :| DifferAt(s, t, i) && s[i] < t[i] { assert DifferAt(a, b, i + 1); }
      } else {
        assert DifferAt(a, b, 0);
        assert forall i: nat | DifferAt(a, b, i) :: i == 0;
      }
    }
  }

  lemma LaterDifference(a: string, b: string, i: nat)
    requires a != "" && b != "" && a[0] == b[0]
    ensures DifferAt(a, b, i + 1) <==> DifferAt(a[1..], b[1..], i)
  {
    if DifferAt(a[1..], b[1..], i) {
      assert forall j | 1 <= j <= i :: a[j] == a[1..][j - 1] && b[j] == b[1..][j - 1];
    }
  }

  lemma {:induction false} LessIsStrict(a: string, b: string)
    ensures !(Less(a, b) && Less(b, a))
    ensures !Less(a, a)
  {
    if a != "" {
      LessIsStrict(a[1..], if b != "" then b[1..] else b);
    }
  }

  lemma {:induction false} LessIsTotal(a: string, b: string)
    ensures a == b || Less(a, b) || Less(b, a)
  {
    if a != "" && b != "" && a[0] == b[0] {
      LessIsTotal(a[1..], b[1..]);
      assert a == [a[0]] + a[1..] && b == [b[0]] + b[1..];
    }
  }

  lemma {:induction false} LessIsTransitive(a: string, b: string, c: string)
    requires Less(a, b) && Less(b, c)
    ensures Less(a, c)
  {
    if a != "" && a[0] == b[0] == c[0] {
      LessIsTransitive(a[1..], b[1..], c[1..]);
    }
  }
}
