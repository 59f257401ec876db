/** The two functions of Go's `strings` package that the credential check
    uses: `Split` on a one-character separator and `ToLower` (restricted to
    ASCII), together with a `Join` that serves as the inverse of `Split`. */
module Strings {

  /** Number of occurrences of the space character in `s`. */
  function Spaces(s: string): nat {
    multiset(s)[' ']
  }

  /** The index of the first occurrence of `c` in `s`, in the style of
      `strings.IndexByte`; `-1` when `c` does not occur. */
  function IndexOf(s: string, c: char): (k: int)
    ensures -1 <= k < |s|
    ensures k == -1 <==> c !in s
    ensures k >= 0 ==> s[k] == c && c !in s[..k]
  {
    if |s| == 0 then -1
    else if s[0] == c then 0
    else
      var k := IndexOf(s[1..], c);
      assert s == [s[0]] + s[1..];
      if k == -1 then -1
      else
        assert s[..k + 1] == [s[0]] + s[1..][..k];
        k + 1
  }

  /** `strings.Split(s, " ")`: the pieces of `s` between consecutive spaces.
      As in Go, the empty string splits into one empty piece, and so a
      string with n spaces splits into n + 1 pieces. */
  function Split(s: string): (parts: seq<string>)
    ensures |parts| == Spaces(s) + 1
    decreases |s|
  {
    var i := IndexOf(s, ' ');
    if i == -1 then
      assert multiset(s)[' '] == 0;
      [s]
    else
      assert s == s[..i] + [s[i]] + s[i + 1..];
      assert multiset(s[..i])[' '] == 0;
      [s[..i]] + Split(s[i + 1..])
  }

  /** The pieces of `parts` with one space between each two of them
      (`strings.Join(parts, " ")`). */
  function Join(parts: seq<string>): string {
    if |parts| == 0 then ""
    else if |parts| == 1 then parts[0]
    else parts[0] + " " + Join(parts[1..])
  }

  /** No piece contains a space. */
  predicate SpaceFree(parts: seq<string>) {
    forall k :: 0 <= k < |parts| ==> ' ' !in parts[k]
  }

  /** Joining a piece in front of at least one more puts a space after it. */
  lemma JoinLead(a: string, parts: seq<string>)
    requires |parts| >= 1
    ensures Join([a] + parts) == a + " " + Join(parts)
  {
    assert ([a] + parts)[1..] == parts;
  }

  /** Splitting and joining again gives back the original text. */
  lemma {:induction false} JoinSplit(s: string)
    ensures Join(Split(s)) == s
    decreases |s|
  {
    var i := IndexOf(s, ' ');
    if i != -1 {
      var a, t := s[..i], s[i + 1..];
      assert s == a + " " + t;
      SplitLead(a, t);
      JoinSplit(t);
      JoinLead(a, Split(t));
    }
  }

  /** No piece of a split contains a space. */
  lemma {:induction false} SplitSpaceFree(s: string)
    ensures SpaceFree(Split(s))
    decreases |s|
  {
    var i := IndexOf(s, ' ');
    if i != -1 {
      SplitSpaceFree(s[i + 1..]);
      var parts := Split(s);
      assert parts == [s[..i]] + Split(s[i + 1..]);
      forall k | 0 <= k < |parts| ensures ' ' !in parts[k] {
        if k > 0 {
          assert parts[k] == Split(s[i + 1..])[k - 1];
        }
      }
    }
  }

  /** The first space of `a + " " + b` sits right after `a` when `a` has none. */
  lemma IndexOfAfterPrefix(a: string, b: string)
    requires ' ' !in a
    ensures IndexOf(a + " " + b, ' ') == |a|
  {
    var s := a + " " + b;
    assert s[|a|] == ' ';
    assert s[..|a|] == a;
  }

  /** A text without spaces is its own only piece. */
  lemma SplitNoSpace(s: string)
    requires ' ' !in s
    ensures Split(s) == [s]
  {
  }

  /** Split peels off the text before the first space. */
  lemma SplitLead(a: string, t: string)
    requires ' ' !in a
    ensures Split(a + " " + t) == [a] + Split(t)
  {
    var s := a + " " + t;
    IndexOfAfterPrefix(a, t);
    assert s[..|a|] == a && s[|a| + 1..] == t;
  }

  /** Joining space-free pieces and splitting again gives back the pieces. */
  lemma {:induction false} SplitJoin(parts: seq<string>)
    requires |parts| >= 1 && SpaceFree(parts)
    ensures Split(Join(parts)) == parts
    decreases |parts|
  {
    if |parts| == 1 {
      assert ' ' !in parts[0];
    } else {
      var tail := parts[1..];
      assert SpaceFree(tail) by {
        forall k | 0 <= k < |tail| ensures ' ' !in tail[k] {
          assert tail[k] == parts[k + 1];
        }
      }
      SplitJoin(tail);
      var s := Join(parts);
      assert ' ' !in parts[0];
      assert s == parts[0] + " " + Join(tail);
      SplitLead(parts[0], Join(tail));
      assert parts == [parts[0]] + tail;
    }
  }

  /** The first piece is the longest prefix of `s` free of spaces, which is
      what Go's `parts[0]` denotes. */
  lemma SplitHead(s: string)
    ensures var h := Split(s)[0];
      && h <= s
      && ' ' !in h
      && (|h| < |s| ==> s[|h|] == ' ')
  {
  }

  /** A string with exactly one space splits into the parts before and after
      it. */
  lemma SplitTwo(a: string, b: string)
    requires ' ' !in a && ' ' !in b
    ensures Split(a + " " + b) == [a, b]
  {
    assert Join([a, b]) == a + " " + b by {
      assert [a, b][1..] == [b];
    }
    SplitJoin([a, b]);
  }

  /** Pieces after the second do not affect the first two. */
  lemma SplitFirstTwo(a: string, b: string, rest: string)
    requires ' ' !in a && ' ' !in b
    ensures var parts := Split(a + " " + b + " " + rest);
      |parts| >= 3 && parts[0] == a && parts[1] == b
  {
    var s := a + " " + b + " " + rest;
    var t := b + " " + rest;
    assert s == a + " " + t;
    SplitLead(a, t);
    SplitLead(b, rest);
  }

  /** ASCII lower-casing of one character. */
  function LowerChar(c: char): char {
    if 'A' <= c <= 'Z' then (c as int + 32) as char else c
  }

  predicate IsUpper(c: char) {
    'A' <= c <= 'Z'
  }

  /** `strings.ToLower`, for the ASCII letters only: every upper-case letter
      is replaced by its lower-case counterpart, nothing else changes. */
  function ToLower(s: string): (r: string)
    ensures |r| == |s|
    ensures forall i :: 0 <= i < |s| ==> !IsUpper(r[i])
    ensures forall i :: 0 <= i < |s| && !IsUpper(s[i]) ==> r[i] == s[i]
    ensures forall i :: 0 <= i < |s| && IsUpper(s[i]) ==> r[i] as int == s[i] as int + 32
  {
    seq(|s|, i requires 0 <= i < |s| => LowerChar(s[i]))
  }

  /** Lower-casing twice is the same as lower-casing once. */
  lemma ToLowerIdempotent(s: string)
    ensures ToLower(ToLower(s)) == ToLower(s)
  {
  }

  /** Lower-casing leaves a text without upper-case letters as it is. */
  lemma ToLowerOfLower(s: string)
    requires forall i :: 0 <= i < |s| ==> !IsUpper(s[i])
    ensures ToLower(s) == s
  {
  }

  /** A text holding an upper-case ASCII letter is never the result of
      lower-casing. */
  lemma ToLowerNeverUpper(s: string, t: string)
    requires exists i :: 0 <= i < |t| && IsUpper(t[i])
    ensures ToLower(s) != t
  {
  }
}
