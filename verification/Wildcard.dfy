/** The wildcard matcher of the logging header: `*` stands for any run of characters, `?`
    for one character. */
module Wildcard {

  /** C strings: the characters before the terminating zero. */
  predicate CString(s: string) {
    '\0' !in s
  }

  /** The character at a position, where the position one past the end holds the zero. */
  function CharAt(s: string, i: nat): char
    requires i <= |s|
  {
    if i < |s| then s[i] else '\0'
  }

  /** What one pattern character may stand for. */
  predicate Stands(p: char, piece: string) {
    if p == '*' then true
    else if p == '?' then |piece| == 1
    else piece == [p]
  }

  function Concat(pieces: seq<string>): string
    decreases |pieces|
  {
    if |pieces| == 0 then "" else pieces[0] + Concat(pieces[1..])
  }

  ghost predicate IsSplit(s: string, p: string, pieces: seq<string>) {
    |pieces| == |p| && Concat(pieces) == s && forall i :: 0 <= i < |p| ==> Stands(p[i], pieces[i])
  }

  /** The string splits into one piece for each pattern character. */
  ghost predicate Matches(s: string, p: string) {
    exists pieces :: IsSplit(s, p, pieces)
  }

  lemma MatchesEmptyPattern(s: string)
    ensures Matches(s, "") <==> s == ""
  {
    if s == "" {
      assert IsSplit(s, "", []);
    }
  }

  /** A match of `p` gives the first character's piece some prefix and the rest a match. */
  lemma MatchesUncons(s: string, p: string, pieces: seq<string>)
    requires |p| > 0 && IsSplit(s, p, pieces)
    ensures pieces[0] <= s && Stands(p[0], pieces[0]) && Matches(s[|pieces[0]|..], p[1..])
  {
    var rest := s[|pieces[0]|..];
    assert rest == Concat(pieces[1..]);
    assert IsSplit(rest, p[1..], pieces[1..]);
  }

  lemma MatchesCons(s: string, p: string, k: nat)
    requires |p| > 0 && k <= |s| && Stands(p[0], s[..k]) && Matches(s[k..], p[1..])
    ensures Matches(s, p)
  {
    var rest :| IsSplit(s[k..], p[1..], rest);
    var pieces := [s[..k]] + rest;
    assert pieces[1..] == rest;
    assert s == s[..k] + s[k..];
    assert IsSplit(s, p, pieces);
  }

  /** A literal or `?` consumes exactly one character. */
  lemma MatchesOne(s: string, p: string)
    requires |p| > 0 && p[0] != '*'
    ensures Matches(s, p) <==> |s| > 0 && (p[0] == '?' || p[0] == s[0]) && Matches(s[1..], p[1..])
  {
    if Matches(s, p) {
      var pieces :| IsSplit(s, p, pieces);
      MatchesUncons(s, p, pieces);
    }
    if |s| > 0 && (p[0] == '?' || p[0] == s[0]) && Matches(s[1..], p[1..]) {
      MatchesCons(s, p, 1);
    }
  }

  /** `*` consumes nothing, or one character and then goes on. */
  lemma MatchesStar(s: string, p: string)
    requires |p| > 0 && p[0] == '*'
    ensures Matches(s, p) <==> Matches(s, p[1..]) || (|s| > 0 && Matches(s[1..], p))
  {
    if Matches(s, p) {
      var pieces :| IsSplit(s, p, pieces);
      MatchesUncons(s, p, pieces);
      var k := |pieces[0]|;
      if k == 0 {
        assert s[0..] == s;
      } else {
        assert s[1..][k - 1..] == s[k..];
        MatchesCons(s[1..], p, k - 1);
      }
    }
    if Matches(s, p[1..]) {
      assert s[0..] == s;
      MatchesCons(s, p, 0);
    }
    if |s| > 0 && Matches(s[1..], p) {
      var pieces :| IsSplit(s[1..], p, pieces);
      MatchesUncons(s[1..], p, pieces);
      var k := |pieces[0]|;
      assert s[1..][k..] == s[k + 1..];
      MatchesCons(s, p, k + 1);
    }
  }

  /** `Str::wildCardMatch` on the suffixes of the two strings that start at `si` and `pi`. */
  method WildCardMatch(str: string, pattern: string, si0: nat, pi0: nat) returns (ok: bool)
    requires CString(str) && CString(pattern) && si0 <= |str| && pi0 <= |pattern|
    ensures ok <==> Matches(str[si0..], pattern[pi0..])
    decreases |str| - si0 + |pattern| - pi0
  {
    var si, pi := si0, pi0;
    while CharAt(pattern, pi) != '\0'
      invariant si0 <= si <= |str| && pi0 <= pi <= |pattern|
      invariant Matches(str[si0..], pattern[pi0..]) <==> Matches(str[si..], pattern[pi..])
      decreases |pattern| - pi
    {
      ghost var s, p := str[si..], pattern[pi..];
      assert p[1..] == pattern[pi + 1..] && (|s| > 0 ==> s[1..] == str[si + 1..]);
      if CharAt(pattern, pi) == '*' {
        MatchesStar(s, p);
        var skip := WildCardMatch(str, pattern, si, pi + 1);
        if skip {
          return true;
        }
        if CharAt(str, si) != '\0' {
          var eat := WildCardMatch(str, pattern, si + 1, pi);
          if eat {
            return true;
          }
        }
        return false;
      }
      MatchesOne(s, p);
      if CharAt(pattern, pi) == '?' {
        if CharAt(str, si) == '\0' {
          return false;
        }
      } else if CharAt(str, si) != CharAt(pattern, pi) {
        return false;
      }
      si, pi := si + 1, pi + 1;
    }
    assert pi == |pattern| && pattern[pi..] == "";
    MatchesEmptyPattern(str[si..]);
    ok := CharAt(str, si) == '\0' && CharAt(pattern, pi) == '\0';
  }
}
