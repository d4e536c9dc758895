/** The Python string operations the two scrapers use: `in` on strings, `startswith`,
    `lower`, `replace`, `lstrip`, `split`, over characters taken one by one. */
module Strings {
  import opened Wrappers

  /** `s.startswith(p)`. */
  predicate StartsWith(s: string, p: string) {
    p <= s
  }

  predicate IsDigit(c: char) {
    '0' <= c <= '9'
  }

  function DigitValue(c: char): (d: nat)
    requires IsDigit(c)
    ensures d < 10
  {
    c as int - '0' as int
  }

  /** `sub` occurs in `s` starting at index `i`. */
  predicate ContainsAt(s: string, sub: string, i: int) {
    0 <= i && i + |sub| <= |s| && s[i..i + |sub|] == sub
  }

  /** Python's `sub in s`: plain substring search, case-sensitive, true for the empty `sub`. */
  function Contains(s: string, sub: string): (r: bool)
    ensures r <==> exists i :: ContainsAt(s, sub, i)
    decreases |s|
  {
    if sub <= s then
      assert ContainsAt(s, sub, 0);
      true
    else if |s| == 0 then
      false
    else
      ContainsShift(s, sub);
      Contains(s[1..], sub)
  }

  lemma ContainsShift(s: string, sub: string)
    requires |s| > 0 && !(sub <= s)
    ensures (exists i :: ContainsAt(s, sub, i)) <==> (exists i :: ContainsAt(s[1..], sub, i))
  {
    if i :| ContainsAt(s, sub, i) {
      assert i != 0;
      assert s[1..][i - 1..i - 1 + |sub|] == s[i..i + |sub|];
      assert ContainsAt(s[1..], sub, i - 1);
    }
    if i :| ContainsAt(s[1..], sub, i) {
      assert s[i + 1..i + 1 + |sub|] == s[1..][i..i + |sub|];
      assert ContainsAt(s, sub, i + 1);
    }
  }

  lemma ContainsConcat(a: string, sub: string, b: string)
    ensures Contains(a + sub + b, sub)
  {
    var s := a + sub + b;
    assert s[|a|..|a| + |sub|] == sub;
    assert ContainsAt(s, sub, |a|);
  }

  /** ASCII lower-casing of one character, as `str.lower` does on ASCII. */
  function LowerChar(c: char): char {
    if 'A' <= c <= 'Z' then (c as int + 32) as char else c
  }

  /** `s.lower()`, restricted to ASCII letters. */
  function Lower(s: string): (r: string)
    ensures |r| == |s|
    ensures forall i :: 0 <= i < |s| ==> r[i] == LowerChar(s[i])
  {
    seq(|s|, i requires 0 <= i < |s| => LowerChar(s[i]))
  }

  /** Lower-casing twice is lower-casing once. */
  lemma LowerIdempotent(s: string)
    ensures Lower(Lower(s)) == Lower(s)
  {
  }

  /** `word` occurs in `s` at index `i` when case is ignored: each character of `s` there
      lower-cases to the character of `word`. */
  predicate MatchesIgnoringCaseAt(s: string, word: string, i: int) {
    0 <= i && i + |word| <= |s| && forall j :: 0 <= j < |word| ==> LowerChar(s[i + j]) == word[j]
  }

  /** `word` occurs somewhere in `s` when case is ignored. */
  predicate OccursIgnoringCase(s: string, word: string) {
    exists i :: 0 <= i <= |s| && MatchesIgnoringCaseAt(s, word, i)
  }

  /** Searching the lower-cased text is searching the text with case ignored. */
  lemma ContainsLower(s: string, word: string)
    ensures Contains(Lower(s), word) <==> OccursIgnoringCase(s, word)
  {
    var t := Lower(s);
    if Contains(t, word) {
      var i :| ContainsAt(t, word, i);
      forall j | 0 <= j < |word| ensures LowerChar(s[i + j]) == word[j] {
        assert t[i..i + |word|][j] == word[j];
      }
      assert MatchesIgnoringCaseAt(s, word, i);
    }
    if OccursIgnoringCase(s, word) {
      var i :| 0 <= i <= |s| && MatchesIgnoringCaseAt(s, word, i);
      assert i + |word| <= |t|;
      forall j | 0 <= j < |word| ensures t[i..i + |word|][j] == word[j] {
        assert t[i + j] == LowerChar(s[i + j]);
      }
      assert t[i..i + |word|] == word;
      assert ContainsAt(t, word, i);
    }
  }

  /** `s.replace(a, b)` for single characters. */
  function ReplaceChar(s: string, a: char, b: char): (r: string)
    ensures |r| == |s|
    ensures forall i :: 0 <= i < |s| ==> r[i] == if s[i] == a then b else s[i]
    ensures a !in s ==> r == s
  {
    seq(|s|, i requires 0 <= i < |s| => if s[i] == a then b else s[i])
  }

  /** `s.lstrip(c)`: `s` with every leading `c` removed. */
  function LStrip(s: string, c: char): (r: string)
    ensures |r| <= |s| && r == s[|s| - |r|..]
    ensures r == [] || r[0] != c
    ensures forall i :: 0 <= i < |s| - |r| ==> s[i] == c
    decreases |s|
  {
    if |s| > 0 && s[0] == c then LStrip(s[1..], c) else s
  }

  /** `s.split(c)[-1]`: the text after the last `c`, or all of `s` when it has none. */
  function AfterLast(s: string, c: char): (r: string)
    ensures |r| <= |s| && r == s[|s| - |r|..]
    ensures c !in r
    ensures |r| < |s| ==> s[|s| - |r| - 1] == c
    decreases |s|
  {
    if |s| == 0 then ""
    else if s[|s| - 1] == c then ""
    else
      var r := AfterLast(s[..|s| - 1], c);
      assert s[..|s| - 1][|s| - 1 - |r|..] + [s[|s| - 1]] == s[|s| - 1 - |r|..];
      r + [s[|s| - 1]]
  }

  /** The text after the last `c` of `a + [c] + b` is `b` when `b` holds no `c`. */
  lemma AfterLastOf(a: string, c: char, b: string)
    requires c !in b
    ensures AfterLast(a + [c] + b, c) == b
  {
    var s := a + [c] + b;
    assert s[|a|] == c;
    assert s[|a| + 1..] == b;
  }

  /** The index of the first `c` in `s`. */
  function IndexOf(s: string, c: char): (r: Option<nat>)
    ensures r.Some? ==> r.value < |s| && s[r.value] == c && c !in s[..r.value]
    ensures r.None? <==> c !in s
    decreases |s|
  {
    if |s| == 0 then None
    else if s[0] == c then Some(0)
    else
      match IndexOf(s[1..], c)
      case None => None
      case Some(i) =>
        assert s[..i + 1] == [s[0]] + s[1..][..i];
        Some(i + 1)
  }

  /** The first `c` is the one at `i` when none comes before it. */
  lemma {:induction false} IndexOfAt(s: string, c: char, i: nat)
    requires i < |s| && s[i] == c && c !in s[..i]
    ensures IndexOf(s, c) == Some(i)
    decreases i
  {
    if i > 0 {
      assert s[0] in s[..i];
      assert s[1..][..i - 1] == s[1..i];
      assert forall x :: x in s[1..i] ==> x in s[..i];
      IndexOfAt(s[1..], c, i - 1);
    }
  }

  /** Splitting `a + [c] + b` at its first `c` gives `a` and `b` back when `a` holds no `c`. */
  lemma SplitFirstAt(a: string, c: char, b: string)
    requires c !in a
    ensures SplitFirst(a + [c] + b, c) == Some((a, b))
  {
    var s := a + [c] + b;
    assert s[..|a|] == a;
    IndexOfAt(s, c, |a|);
    assert s[|a| + 1..] == b;
  }

  /** `s.split(c, 1)`: the texts before and after the first `c`, when there is one. */
  function SplitFirst(s: string, c: char): (r: Option<(string, string)>)
    ensures r.None? <==> c !in s
    ensures r.Some? ==> s == r.value.0 + [c] + r.value.1 && c !in r.value.0
  {
    match IndexOf(s, c)
    case None => None
    case Some(i) =>
      assert s == s[..i] + [c] + s[i + 1..];
      Some((s[..i], s[i + 1..]))
  }

  /** `s.split(c)`: the pieces between the occurrences of `c`; there is always at least one. */
  function Split(s: string, c: char): (parts: seq<string>)
    ensures |parts| >= 1
    ensures forall k :: 0 <= k < |parts| ==> c !in parts[k]
    ensures Joined(parts, c) == s
    decreases |s|
  {
    if |s| == 0 then [""]
    else
      var rest := Split(s[1..], c);
      if s[0] == c then
        assert s == [] + [c] + Joined(rest, c);
        [""] + rest
      else
        var parts := [[s[0]] + rest[0]] + rest[1..];
        assert parts[1..] == rest[1..];
        assert forall k :: 1 <= k < |parts| ==> parts[k] == rest[k];
        parts
  }

  /** `c.join(parts)`: the inverse of `Split`. */
  function Joined(parts: seq<string>, c: char): string
    requires |parts| >= 1
  {
    if |parts| == 1 then parts[0] else parts[0] + [c] + Joined(parts[1..], c)
  }

  /** Joining two lists of pieces is joining each and gluing the results with `c`. */
  lemma {:induction false} JoinedAppend(a: seq<string>, b: seq<string>, c: char)
    requires |a| >= 1 && |b| >= 1
    ensures Joined(a + b, c) == Joined(a, c) + [c] + Joined(b, c)
    decreases |a|
  {
    assert (a + b)[0] == a[0];
    if |a| == 1 {
      assert (a + b)[1..] == b;
    } else {
      assert (a + b)[1..] == a[1..] + b;
      JoinedAppend(a[1..], b, c);
    }
  }

  /** Splitting `p + [c] + q` splits `p` and `q` separately. */
  lemma SplitAppend(p: string, c: char, q: string)
    ensures Split(p + [c] + q, c) == Split(p, c) + Split(q, c)
  {
    var parts := Split(p, c) + Split(q, c);
    JoinedAppend(Split(p, c), Split(q, c), c);
    forall k | 0 <= k < |parts| ensures c !in parts[k] {
      if k < |Split(p, c)| {
        assert parts[k] == Split(p, c)[k];
      } else {
        assert parts[k] == Split(q, c)[k - |Split(p, c)|];
      }
    }
    SplitJoined(parts, c);
  }

  /** Splitting what `Joined` glued together gives the pieces back, when no piece holds `c`. */
  lemma {:induction false} SplitJoined(parts: seq<string>, c: char)
    requires |parts| >= 1
    requires forall k :: 0 <= k < |parts| ==> c !in parts[k]
    ensures Split(Joined(parts, c), c) == parts
    decreases |parts|, |parts[0]|
  {
    var s := Joined(parts, c);
    if |parts[0]| == 0 {
      if |parts| > 1 {
        assert s == [c] + Joined(parts[1..], c);
        assert s[1..] == Joined(parts[1..], c);
        SplitJoined(parts[1..], c);
      }
    } else {
      var tail := [parts[0][1..]] + parts[1..];
      assert tail[1..] == parts[1..];
      assert forall k :: 1 <= k < |tail| ==> tail[k] == parts[k];
      assert c !in tail[0] by { assert forall j :: 0 <= j < |tail[0]| ==> tail[0][j] == parts[0][j + 1]; }
      SplitJoined(tail, c);
      assert s[0] == parts[0][0];
      if |parts| == 1 {
        assert s[1..] == Joined(tail, c);
      } else {
        assert s[1..] == Joined(tail, c);
      }
      assert [parts[0][0]] + parts[0][1..] == parts[0];
    }
  }
}
