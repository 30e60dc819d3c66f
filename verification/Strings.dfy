/** The string searches the bridge relies on, and dotted paths as lists of tokens. */
module Strings {

  /** The first position of `c` at or after `from`, or -1. */
  function Find(s: string, c: char, from: nat): (i: int)
    requires from <= |s|
    ensures i == -1 || from <= i < |s|
    ensures i >= 0 ==> s[i] == c
    ensures forall k | from <= k < (if i == -1 then |s| else i) :: s[k] != c
    decreases |s| - from
  {
    if from == |s| then -1 else if s[from] == c then from else Find(s, c, from + 1)
  }

  /** The text after the last occurrence of `c`; all of it when there is none. */
  function AfterLast(s: string, c: char): (r: string)
    ensures c !in r
    ensures exists k | 0 <= k <= |s| :: r == s[k..] && (k == 0 || s[k - 1] == c)
  {
    if s == [] then assert s[0..] == []; []
    else if c in s[1..] then
      var r := AfterLast(s[1..], c);
      var k :| 0 <= k <= |s[1..]| && r == s[1..][k..] && (k == 0 || s[1..][k - 1] == c);
      assert k != 0;
      assert r == s[k + 1..] && s[k] == c;
      r
    else if s[0] == c then
      assert s[1..] == s[1..] && s[1 - 1] == c;
      s[1..]
    else
      assert s == s[0..];
      s
  }

  /** `s` with every `c` replaced by `with`. */
  function ReplaceAll(s: string, c: char, with: string): string {
    if s == [] then [] else (if s[0] == c then with else [s[0]]) + ReplaceAll(s[1..], c, with)
  }

  lemma {:induction false} ReplaceAllAppend(a: string, b: string, c: char, with: string)
    ensures ReplaceAll(a + b, c, with) == ReplaceAll(a, c, with) + ReplaceAll(b, c, with)
  {
    if a == [] {
      assert a + b == b;
    } else {
      ReplaceAllAppend(a[1..], b, c, with);
      assert (a + b)[1..] == a[1..] + b && (a + b)[0] == a[0];
      var first := if a[0] == c then with else [a[0]];
      assert first + (ReplaceAll(a[1..], c, with) + ReplaceAll(b, c, with)) == ReplaceAll(a, c, with) + ReplaceAll(b, c, with);
    }
  }

  lemma {:induction false} ReplaceAllAbsent(s: string, c: char, with: string)
    requires c !in s
    ensures ReplaceAll(s, c, with) == s
  {
    if s != [] {
      ReplaceAllAbsent(s[1..], c, with);
    }
  }

  lemma {:induction false} ReplaceAllChars(s: string, c: char, with: string)
    ensures forall x | x in ReplaceAll(s, c, with) :: x in with || (x in s && x != c)
  {
    if s != [] {
      ReplaceAllChars(s[1..], c, with);
    }
  }

  // ---------------------------------------------------------------------------------------------
  // Dotted paths

  /** The tokens of a dotted path: one more than it has dots. */
  function Split(path: string): (tokens: seq<string>)
    ensures |tokens| > 0
    decreases |path|
  {
    var i := Find(path, '.', 0);
    if i < 0 then [path] else [path[..i]] + Split(path[i + 1..])
  }

  function Join(tokens: seq<string>): string
    requires |tokens| > 0
  {
    if |tokens| == 1 then tokens[0] else tokens[0] + "." + Join(tokens[1..])
  }

  lemma FindFirst(a: string, b: string)
    requires '.' !in a
    ensures Find(a + "." + b, '.', 0) == |a|
  {
    var s := a + "." + b;
    assert s[|a|] == '.';
    assert forall k | 0 <= k < |a| :: s[k] == a[k];
  }

  lemma SplitOfDotted(first: string, rest: string)
    requires '.' !in first
    ensures Split(first + "." + rest) == [first] + Split(rest)
  {
    FindFirst(first, rest);
    var s := first + "." + rest;
    assert s[..|first|] == first && s[|first| + 1..] == rest;
  }

  lemma SplitOfUndotted(token: string)
    requires '.' !in token
    ensures Split(token) == [token]
  {
  }

  /** Printing then parsing gives the tokens back. */
  lemma {:induction false} SplitJoin(tokens: seq<string>)
    requires |tokens| > 0 && forall t | t in tokens :: '.' !in t
    ensures Split(Join(tokens)) == tokens
  {
    assert tokens[0] in tokens;
    if |tokens| == 1 {
      SplitOfUndotted(tokens[0]);
      assert tokens == [tokens[0]];
    } else {
      SplitOfDotted(tokens[0], Join(tokens[1..]));
      SplitJoin(tokens[1..]);
    }
  }

  lemma JoinOne(first: string, rest: seq<string>)
    requires |rest| > 0
    ensures Join([first] + rest) == first + "." + Join(rest)
  {
    assert ([first] + rest)[1..] == rest;
  }

  /** Parsing then printing gives the path back. */
  lemma {:induction false} JoinSplit(path: string)
    ensures Join(Split(path)) == path
    decreases |path|
  {
    var i := Find(path, '.', 0);
    if i >= 0 {
      JoinSplit(path[i + 1..]);
      JoinOne(path[..i], Split(path[i + 1..]));
      assert path == path[..i] + "." + path[i + 1..];
    }
  }

  /** Adding one token at the end prints it after one more dot. */
  lemma {:induction false} JoinSnoc(tokens: seq<string>, last: string)
    requires |tokens| > 0
    ensures Join(tokens + [last]) == Join(tokens) + "." + last
  {
    if |tokens| > 1 {
      JoinSnoc(tokens[1..], last);
      assert (tokens + [last])[1..] == tokens[1..] + [last];
    }
  }
}
