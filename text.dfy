// The Python string operations the health monitor relies on: find, slicing
// with Python's index normalisation, strip, ljust/rjust and split.
module Text {

  /** Python's str.isspace(): the characters Unicode classes as spaces or
      as whitespace separators (ASCII whitespace, 0x1C-0x1F, NEL, NBSP,
      the Ogham mark, the typographic spaces, the line and paragraph
      separators and the ideographic space). */
  predicate IsSpace(c: char) {
    c == ' ' || c == '\t' || c == '\n' || c == '\r' || c == '\U{0B}' || c == '\U{0C}'
    || ('\U{1C}' <= c <= '\U{1F}') || c == '\U{85}' || c == '\U{A0}'
    || c == '\U{1680}' || ('\U{2000}' <= c <= '\U{200A}') || c == '\U{2028}' || c == '\U{2029}'
    || c == '\U{202F}' || c == '\U{205F}' || c == '\U{3000}'
  }

  /** A string that a file read in text mode gives back as one line: it
      has no '\n', and no '\r', which universal newlines turns into '\n'. */
  predicate SingleLine(s: string) {
    '\n' !in s && '\r' !in s
  }

  /** The string of n spaces. */
  function Spaces(n: nat): (r: string)
    ensures |r| == n && forall i :: 0 <= i < n ==> r[i] == ' '
  {
    if n == 0 then "" else Spaces(n - 1) + " "
  }

  /** s.lstrip(): drops leading whitespace. */
  function LStrip(s: string): (r: string)
    ensures |r| <= |s| && r == s[|s| - |r|..]
    ensures r == [] || !IsSpace(r[0])
    ensures forall i :: 0 <= i < |s| - |r| ==> IsSpace(s[i])
  {
    if s != [] && IsSpace(s[0]) then
      var t := s[1..];
      var r := LStrip(t);
      assert forall i :: 1 <= i < |s| - |r| ==> s[i] == t[i - 1];
      r
    else s
  }

  /** s.rstrip(): drops trailing whitespace. */
  function RStrip(s: string): (r: string)
    ensures |r| <= |s| && r == s[..|r|]
    ensures r == [] || !IsSpace(r[|r| - 1])
    ensures forall i :: |r| <= i < |s| ==> IsSpace(s[i])
  {
    if s != [] && IsSpace(s[|s| - 1]) then RStrip(s[..|s| - 1]) else s
  }

  /** s.lstrip(c) for a single character c. */
  function LStripChar(s: string, c: char): (r: string)
    ensures |r| <= |s| && r == s[|s| - |r|..]
    ensures r == [] || r[0] != c
    ensures forall i :: 0 <= i < |s| - |r| ==> s[i] == c
  {
    if s != [] && s[0] == c then LStripChar(s[1..], c) else s
  }

  /** s.rstrip(c) for a single character c. */
  function RStripChar(s: string, c: char): (r: string)
    ensures |r| <= |s| && r == s[..|r|]
    ensures r == [] || r[|r| - 1] != c
    ensures forall i :: |r| <= i < |s| ==> s[i] == c
  {
    if s != [] && s[|s| - 1] == c then RStripChar(s[..|s| - 1], c) else s
  }

  /** s.ljust(w, ' '). */
  function LJust(s: string, w: nat): (r: string)
    ensures |s| < w ==> |r| == w && r[..|s|] == s && forall i :: |s| <= i < w ==> r[i] == ' '
    ensures |s| >= w ==> r == s
  {
    if |s| >= w then s else s + Spaces(w - |s|)
  }

  /** s.rjust(w, ' '). */
  function RJust(s: string, w: nat): (r: string)
    ensures |s| < w ==> |r| == w && r[w - |s|..] == s && forall i :: 0 <= i < w - |s| ==> r[i] == ' '
    ensures |s| >= w ==> r == s
  {
    if |s| >= w then s else Spaces(w - |s|) + s
  }

  /** Python's normalisation of a slice bound: negative counts from the end,
      and the result is clamped to 0..n. */
  function Clamp(i: int, n: nat): (r: nat)
    ensures r <= n
    ensures 0 <= i <= n ==> r == i
  {
    if i < 0 then (if i + n < 0 then 0 else i + n) else if i > n then n else i
  }

  /** s[a:b] with Python semantics: never fails, empty when the bounds cross. */
  function PySlice(s: string, a: int, b: int): (r: string)
    ensures 0 <= a <= b <= |s| ==> r == s[a..b]
    ensures |r| <= |s|
  {
    var i := Clamp(a, |s|);
    var j := Clamp(b, |s|);
    if i < j then s[i..j] else []
  }

  /** p occurs in s starting at index j. */
  predicate MatchAt(s: string, p: string, j: int) {
    0 <= j && j + |p| <= |s| && s[j..j + |p|] == p
  }

  /** p occurs somewhere in s. */
  predicate Contains(s: string, p: string) {
    exists j :: 0 <= j <= |s| - |p| && MatchAt(s, p, j)
  }

  /** s.find(p): the first index at which p occurs, or -1. */
  function Find(s: string, p: string): (r: int)
    ensures -1 <= r && (r >= 0 ==> r <= |s| - |p|)
    ensures r >= 0 ==> MatchAt(s, p, r) && forall j :: 0 <= j < r ==> !MatchAt(s, p, j)
    ensures r < 0 ==> forall j :: 0 <= j ==> !MatchAt(s, p, j)
    decreases |s|
  {
    if |p| > |s| then -1
    else if s[..|p|] == p then 0
    else
      var r := Find(s[1..], p);
      assert !MatchAt(s, p, 0);
      assert forall j :: 1 <= j ==> (MatchAt(s, p, j) <==> MatchAt(s[1..], p, j - 1)) by {
        forall j | 1 <= j ensures MatchAt(s, p, j) <==> MatchAt(s[1..], p, j - 1) {
          if j + |p| <= |s| {
            assert s[1..][j - 1..j - 1 + |p|] == s[j..j + |p|];
          }
        }
      }
      if r < 0 then -1 else r + 1
  }

  /** Find returns i when p occurs at i and nowhere before. */
  lemma FindIs(s: string, p: string, i: int)
    requires MatchAt(s, p, i)
    requires forall j :: 0 <= j < i ==> !MatchAt(s, p, j)
    ensures Find(s, p) == i
  {
  }

  /** A window of a + b that lies inside a is a window of a. */
  lemma MatchInLeft(a: string, b: string, p: string, j: int)
    requires 0 <= j && j + |p| <= |a|
    ensures MatchAt(a + b, p, j) <==> MatchAt(a, p, j)
  {
    assert (a + b)[j..j + |p|] == a[j..j + |p|];
  }

  /** A window of a + b that starts inside b is a window of b. */
  lemma MatchInRight(a: string, b: string, p: string, k: int)
    requires 0 <= k
    ensures MatchAt(a + b, p, |a| + k) <==> MatchAt(b, p, k)
  {
    if k + |p| <= |b| {
      assert (a + b)[|a| + k..|a| + k + |p|] == b[k..k + |p|];
    }
  }

  /** No window starting at a position whose character differs from p[0]
      can match; used to step over text that cannot start p. */
  lemma SkipChunk(a: string, b: string, p: string, n: nat)
    requires |p| > 0
    requires forall i :: 0 <= i < |a| ==> a[i] != p[0]
    requires forall k :: 0 <= k < n ==> !MatchAt(b, p, k)
    ensures forall j :: 0 <= j < |a| + n ==> !MatchAt(a + b, p, j)
  {
    forall j | 0 <= j < |a| + n ensures !MatchAt(a + b, p, j) {
      if j < |a| {
        assert (a + b)[j] == a[j] != p[0];
        if j + |p| <= |a + b| {
          assert (a + b)[j..j + |p|][0] == (a + b)[j];
        }
      } else {
        MatchInRight(a, b, p, j - |a|);
      }
    }
  }

  /** s.split(c): the pieces between occurrences of c; "" splits to [""]. */
  function Split(s: string, c: char): (r: seq<string>)
    ensures |r| >= 1
    ensures forall i :: 0 <= i < |r| ==> c !in r[i]
  {
    if s == [] then [""]
    else
      var rest := Split(s[1..], c);
      if s[0] == c then [""] + rest else [[s[0]] + rest[0]] + rest[1..]
  }

  /** c.join(pieces). */
  function Join(pieces: seq<string>, c: char): string
    requires |pieces| >= 1
  {
    if |pieces| == 1 then pieces[0] else pieces[0] + [c] + Join(pieces[1..], c)
  }

  /** Splitting loses nothing: joining the pieces back gives the original text. */
  lemma {:induction false} JoinSplit(s: string, c: char)
    ensures Join(Split(s, c), c) == s
  {
    if s != [] {
      JoinSplit(s[1..], c);
      var rest := Split(s[1..], c);
      if s[0] == c {
        assert Split(s, c) == [""] + rest;
        assert Split(s, c)[1..] == rest;
      } else {
        var r := Split(s, c);
        assert r == [[s[0]] + rest[0]] + rest[1..];
        if |rest| == 1 {
          assert r == [[s[0]] + rest[0]];
        } else {
          assert r[1..] == rest[1..];
          assert Join(rest, c) == rest[0] + [c] + Join(rest[1..], c);
        }
      }
    }
  }
  /** rstrip() removes exactly the padding after text that does not end in whitespace. */
  lemma {:induction false} RStripPadded(s: string, n: nat)
    requires s != [] && !IsSpace(s[|s| - 1])
    ensures RStrip(s + Spaces(n)) == s
  {
    if n > 0 {
      var u := s + Spaces(n);
      assert u[|u| - 1] == ' ';
      assert u[..|u| - 1] == s + Spaces(n - 1);
      RStripPadded(s, n - 1);
    } else {
      assert s + Spaces(0) == s;
    }
  }

  /** Find skips a prefix none of whose characters can start p. */
  lemma FindPast(a: string, b: string, p: string, k: int)
    requires |p| > 0 && forall i :: 0 <= i < |a| ==> a[i] != p[0]
    requires k >= 0 && Find(b, p) == k
    ensures Find(a + b, p) == |a| + k
  {
    SkipChunk(a, b, p, k);
    MatchInRight(a, b, p, k);
    FindIs(a + b, p, |a| + k);
  }

  /** Find skips a prefix ending in ':' that does not contain p, when p has
      no ':' before its last character: a window crossing the end of the
      prefix would hold that ':' inside p. */
  lemma FindPastColon(a: string, b: string, p: string, k: int)
    requires |a| > 0 && a[|a| - 1] == ':'
    requires |p| > 0 && forall i :: 0 <= i < |p| - 1 ==> p[i] != ':'
    requires forall j :: 0 <= j ==> !MatchAt(a, p, j)
    requires k >= 0 && Find(b, p) == k
    ensures Find(a + b, p) == |a| + k
  {
    forall j | 0 <= j < |a| ensures !MatchAt(a + b, p, j) {
      if j + |p| <= |a| {
        MatchInLeft(a, b, p, j);
      } else if j + |p| <= |a + b| {
        var t := |a| - 1 - j;
        assert (a + b)[j..j + |p|][t] == (a + b)[|a| - 1] == ':';
        assert p[t] != ':';
      }
    }
    SkipTail(a, b, p, k);
  }

  /** Find skips a prefix that does not contain p when what follows starts
      with two spaces and p has no two spaces in a row and does not end in one. */
  lemma FindPastBeforeSpaces(a: string, b: string, p: string, k: int)
    requires |b| >= 2 && b[0] == ' ' && b[1] == ' '
    requires |p| > 0 && p[|p| - 1] != ' '
    requires forall i :: 0 <= i < |p| - 1 ==> p[i] != ' ' || p[i + 1] != ' '
    requires forall j :: 0 <= j ==> !MatchAt(a, p, j)
    requires k >= 0 && Find(b, p) == k
    ensures Find(a + b, p) == |a| + k
  {
    forall j | 0 <= j < |a| ensures !MatchAt(a + b, p, j) {
      if j + |p| <= |a| {
        MatchInLeft(a, b, p, j);
      } else {
        NoMatchOverSpaces(a + b, p, j, |a| - j);
      }
    }
    SkipTail(a, b, p, k);
  }

  /** A window whose offset t lands on two spaces in s (or on one space at
      the end of p) cannot match p. */
  lemma NoMatchOverSpaces(s: string, p: string, j: nat, t: nat)
    requires 0 < t < |p| && j + t + 1 < |s|
    requires s[j + t] == ' ' && s[j + t + 1] == ' '
    requires p[|p| - 1] != ' '
    requires forall i :: 0 <= i < |p| - 1 ==> p[i] != ' ' || p[i + 1] != ' '
    ensures !MatchAt(s, p, j)
  {
  }

  /** Once no window starting in a matches, Find(a + b) is Find(b) shifted. */
  lemma SkipTail(a: string, b: string, p: string, k: int)
    requires forall j :: 0 <= j < |a| ==> !MatchAt(a + b, p, j)
    requires k >= 0 && Find(b, p) == k
    ensures Find(a + b, p) == |a| + k
  {
    forall j | |a| <= j < |a| + k ensures !MatchAt(a + b, p, j) {
      MatchInRight(a, b, p, j - |a|);
    }
    MatchInRight(a, b, p, k);
    FindIs(a + b, p, |a| + k);
  }

  /** p is found at the very start of p + rest. */
  lemma FindHere(p: string, rest: string)
    ensures Find(p + rest, p) == 0
  {
    assert (p + rest)[0..|p|] == p;
    FindIs(p + rest, p, 0);
  }

  /** p is found right after a lead none of whose characters can start it. */
  lemma FindAfter(lead: string, p: string, rest: string)
    requires |p| > 0 && forall i :: 0 <= i < |lead| ==> lead[i] != p[0]
    ensures Find(lead + p + rest, p) == |lead|
  {
    FindHere(p, rest);
    FindPast(lead, p + rest, p, 0);
    assert lead + p + rest == lead + (p + rest);
  }

  /** p is found right after a lead none of whose characters can start it,
      whatever follows p. */
  lemma FindAfterThen(lead: string, p: string, more: string, rest: string)
    requires |p| > 0 && forall i :: 0 <= i < |lead| ==> lead[i] != p[0]
    ensures Find(lead + p + more + rest, p) == |lead|
  {
    FindAfter(lead, p, more + rest);
    Regroup(lead + p, more, rest);
  }

  lemma Regroup(a: string, b: string, c: string)
    ensures a + b + c == a + (b + c)
  {
  }
}
