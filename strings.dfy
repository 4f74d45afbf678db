/** The conventional Some/None datatype; `None` stands for a C# null reference. */
module Wrappers {

  datatype Option<+T> = None | Some(value: T)
}

/**
  The few .NET string operations the asset service relies on:
  `string.IsNullOrWhiteSpace`, `string.IsNullOrEmpty`, case-insensitive
  `string.Contains` and `string.Join`.
 */
module Strings {
  import opened Wrappers

  /** `char.IsWhiteSpace`: the Unicode space, line and paragraph separators,
      the controls U+0009..U+000D and U+0085. */
  predicate IsWhiteSpace(c: char) {
    || c == ' '
    || ('\t' <= c <= '\r')
    || c == '\U{0085}' || c == '\U{00A0}' || c == '\U{1680}'
    || ('\U{2000}' <= c <= '\U{200A}')
    || c == '\U{2028}' || c == '\U{2029}' || c == '\U{202F}'
    || c == '\U{205F}' || c == '\U{3000}'
  }

  /** `string.IsNullOrWhiteSpace`: null, empty, or only white space. */
  predicate IsNullOrWhiteSpace(s: Option<string>): (b: bool)
    ensures s.None? ==> b
    ensures s.Some? ==> (b <==> forall c | c in s.value :: IsWhiteSpace(c))
  {
    match s
    case None => true
    case Some(t) => forall i :: 0 <= i < |t| ==> IsWhiteSpace(t[i])
  }

  /** `string.IsNullOrEmpty` on a field of a deserialised asset; a null
      field is modelled as the empty string. */
  predicate IsNullOrEmpty(s: string): (b: bool)
    ensures b <==> s == ""
  {
    |s| == 0
  }

  /** Case folding, restricted to ASCII letters. */
  function FoldChar(c: char): (d: char)
    ensures 'A' <= c <= 'Z' ==> 'a' <= d <= 'z' && d as int - c as int == 32
    ensures !('A' <= c <= 'Z') ==> d == c
  {
    if 'A' <= c <= 'Z' then (c as int + 32) as char else c
  }

  /** Two characters compare equal ignoring case exactly when they are the
      same, or one is an upper-case ASCII letter and the other its
      lower-case letter. */
  lemma FoldCharEqual(c: char, d: char)
    ensures FoldChar(c) == FoldChar(d) <==>
      || c == d
      || ('A' <= c <= 'Z' && d as int == c as int + 32)
      || ('A' <= d <= 'Z' && c as int == d as int + 32)
  {
  }

  /** Folding an already folded character changes nothing. */
  lemma FoldCharIdempotent(c: char)
    ensures FoldChar(FoldChar(c)) == FoldChar(c)
  {
  }

  function Fold(s: string): (r: string)
    ensures |r| == |s|
  {
    seq(|s|, i requires 0 <= i < |s| => FoldChar(s[i]))
  }

  /** `sub` occurs in `s` starting at index `i`. */
  predicate OccursAt(s: string, sub: string, i: int) {
    0 <= i && i + |sub| <= |s| && s[i..i + |sub|] == sub
  }

  /** Ordinal `string.Contains`: does `sub` start at the front of `s`, or
      anywhere in its tail? The empty string is contained in every string. */
  predicate Contains(s: string, sub: string)
    decreases |s|
  {
    |sub| <= |s| && (s[..|sub|] == sub || Contains(s[1..], sub))
  }

  /** `Contains` finds exactly the positions at which `sub` occurs. */
  lemma {:induction false} ContainsIff(s: string, sub: string)
    ensures Contains(s, sub) <==> exists i :: OccursAt(s, sub, i)
    decreases |s|
  {
    if |sub| <= |s| {
      if s[..|sub|] == sub {
        assert OccursAt(s, sub, 0);
      } else {
        ContainsIff(s[1..], sub);
        if exists i :: OccursAt(s[1..], sub, i) {
          var i :| OccursAt(s[1..], sub, i);
          assert s[1..][i..i + |sub|] == s[i + 1..i + 1 + |sub|];
          assert OccursAt(s, sub, i + 1);
        }
        if exists i :: OccursAt(s, sub, i) {
          var i :| OccursAt(s, sub, i);
          assert i != 0;
          assert s[1..][i - 1..i - 1 + |sub|] == s[i..i + |sub|];
          assert OccursAt(s[1..], sub, i - 1);
        }
      }
    }
  }

  /** `s.Contains(sub, StringComparison.InvariantCultureIgnoreCase)`,
      with ASCII case folding. */
  predicate ContainsIgnoreCase(s: string, sub: string) {
    Contains(Fold(s), Fold(sub))
  }

  /** `sub` matches the window of `s` starting at `i` up to case. */
  predicate MatchesAt(s: string, sub: string, i: int) {
    0 <= i && i + |sub| <= |s| && Fold(s[i..i + |sub|]) == Fold(sub)
  }

  /** The case-insensitive search succeeds exactly when some window of `s`
      equals `sub` once both are case-folded. */
  lemma ContainsIgnoreCaseIff(s: string, sub: string)
    ensures ContainsIgnoreCase(s, sub) <==> exists i :: MatchesAt(s, sub, i)
  {
    ContainsIff(Fold(s), Fold(sub));
    if exists i :: OccursAt(Fold(s), Fold(sub), i) {
      var i :| OccursAt(Fold(s), Fold(sub), i);
      assert Fold(s)[i..i + |sub|] == Fold(s[i..i + |sub|]);
      assert MatchesAt(s, sub, i);
    }
    if exists i :: MatchesAt(s, sub, i) {
      var i :| MatchesAt(s, sub, i);
      assert Fold(s)[i..i + |sub|] == Fold(s[i..i + |sub|]);
      assert OccursAt(Fold(s), Fold(sub), i);
    }
  }

  /** Folding is idempotent, so a query that differs only in the case of
      its letters finds the same strings. */
  lemma {:induction false} ContainsIgnoreCaseOfFolded(s: string, sub: string)
    ensures ContainsIgnoreCase(s, Fold(sub)) == ContainsIgnoreCase(s, sub)
  {
    assert Fold(Fold(sub)) == Fold(sub);
  }

  /** `string.Join(sep, parts)`: the parts in order, with `sep` between
      neighbours. */
  function Join(sep: string, parts: seq<string>): (r: string)
    ensures |parts| == 0 ==> r == ""
    ensures |parts| > 0 ==> |parts[0]| <= |r| && r[..|parts[0]|] == parts[0]
    decreases |parts|
  {
    if |parts| == 0 then ""
    else if |parts| == 1 then parts[0]
    else parts[0] + sep + Join(sep, parts[1..])
  }

  function TotalLength(parts: seq<string>): nat
    decreases |parts|
  {
    if |parts| == 0 then 0 else |parts[0]| + TotalLength(parts[1..])
  }

  /** A join holds every character of every part plus one separator
      between each pair of neighbours. */
  lemma {:induction false} JoinLength(sep: string, parts: seq<string>)
    ensures |Join(sep, parts)| == TotalLength(parts) + (if |parts| == 0 then 0 else (|parts| - 1) * |sep|)
    decreases |parts|
  {
    if |parts| > 1 {
      JoinLength(sep, parts[1..]);
      assert TotalLength(parts[1..][1..]) == TotalLength(parts[2..]);
    } else if |parts| == 1 {
      assert parts[1..] == [];
    }
  }

  /** The longest prefix of `s` without the character `c`. */
  function TakeUntil(s: string, c: char): (r: string)
    decreases |s|
  {
    if |s| == 0 || s[0] == c then "" else [s[0]] + TakeUntil(s[1..], c)
  }

  /** Scanning to the first `c` recovers a prefix that does not hold `c`. */
  lemma {:induction false} TakeUntilPrefix(x: string, c: char, rest: string)
    requires c !in x
    ensures TakeUntil(x + [c] + rest, c) == x
    decreases |x|
  {
    var s := x + [c] + rest;
    if |x| == 0 {
      assert s[0] == c;
    } else {
      assert s[0] == x[0];
      assert s[1..] == x[1..] + [c] + rest;
      TakeUntilPrefix(x[1..], c, rest);
    }
  }
}
