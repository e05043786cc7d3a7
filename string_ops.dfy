/** The .NET `System.String` operations the connection-string rewrite calls:
    `Replace(old, "")`, `LastIndexOf(char)`, `Split(char)` and `string.Join`, all of
    them ordinal. `IndexOf(char)` is the first-separator search that `Split` and the
    field lemmas are stated with. */
module StringOps {
  import opened Text

  /** `s.IndexOf(c)`: the first position of `c`, or -1. */
  function IndexOf(s: string, c: char): (r: int)
    ensures -1 <= r < |s|
    ensures r == -1 <==> c !in s
    ensures r >= 0 ==> s[r] == c && c !in s[..r]
  {
    if s == [] then -1
    else if s[0] == c then 0
    else
      var k := IndexOf(s[1..], c);
      if k == -1 then -1
      else
        assert s[..k + 1] == [s[0]] + s[1..][..k];
        k + 1
  }

  /** `s.LastIndexOf(c)`: the last position of `c`, or -1. */
  function LastIndexOf(s: string, c: char): (r: int)
    ensures -1 <= r < |s|
    ensures r == -1 <==> c !in s
    ensures r >= 0 ==> s[r] == c && c !in s[r + 1..]
  {
    if s == [] then -1
    else if s[|s| - 1] == c then |s| - 1
    else
      var init := s[..|s| - 1];
      var k := LastIndexOf(init, c);
      assert s == init + [s[|s| - 1]];
      if k == -1 then -1
      else
        assert s[k + 1..] == init[k + 1..] + [s[|s| - 1]];
        k
  }

  /** The text before the first `c`, or all of `s` when there is none. */
  function Before(s: string, c: char): (r: string)
    ensures c !in r
    ensures IsPrefix(r, s)
  {
    if c in s then s[..IndexOf(s, c)] else s
  }

  /** The text after the first `c`; only meaningful when `c` occurs. */
  function After(s: string, c: char): (r: string)
    requires c in s
    ensures s == Before(s, c) + [c] + r
  {
    s[IndexOf(s, c) + 1..]
  }

  /** `s.Split(c)`: the pieces between the occurrences of `c`, never fewer than one. */
  function Split(s: string, c: char): (parts: seq<string>)
    ensures |parts| >= 1
    ensures forall k :: 0 <= k < |parts| ==> c !in parts[k]
    decreases |s|
  {
    var i := IndexOf(s, c);
    if i == -1 then [s] else [s[..i]] + Split(s[i + 1..], c)
  }

  /** `string.Join(sep.ToString(), parts)`. */
  function Join(parts: seq<string>, sep: char): string
  {
    if |parts| == 0 then ""
    else if |parts| == 1 then parts[0]
    else parts[0] + [sep] + Join(parts[1..], sep)
  }

  lemma JoinCons(p: string, rest: seq<string>, sep: char)
    requires |rest| >= 1
    ensures Join([p] + rest, sep) == p + [sep] + Join(rest, sep)
  {
    assert ([p] + rest)[1..] == rest;
  }

  lemma SplitCons(s: string, c: char)
    requires c in s
    ensures Split(s, c) == [Before(s, c)] + Split(After(s, c), c)
  {
  }

  /** Splitting and joining again with the same separator gives back the input. */
  lemma {:induction false} JoinSplit(s: string, c: char)
    ensures Join(Split(s, c), c) == s
    decreases |s|
  {
    if c in s {
      var head, tail := Before(s, c), After(s, c);
      SplitCons(s, c);
      JoinCons(head, Split(tail, c), c);
      JoinSplit(tail, c);
    }
  }

  /** The first separator in `p + [c] + rest`, when `p` has none, is the one after `p`. */
  lemma IndexOfAfterPiece(p: string, c: char, rest: string)
    requires c !in p
    ensures IndexOf(p + [c] + rest, c) == |p|
  {
    var s := p + [c] + rest;
    assert s[|p|] == c;
    assert s[..|p|] == p;
  }

  /** Splitting a piece free of the separator, then the separator, then the rest. */
  lemma SplitPiece(p: string, c: char, rest: string)
    requires c !in p
    ensures Split(p + [c] + rest, c) == [p] + Split(rest, c)
  {
    var s := p + [c] + rest;
    IndexOfAfterPiece(p, c, rest);
    assert s[..|p|] == p;
    assert s[|p| + 1..] == rest;
  }

  /** Joining pieces free of the separator and splitting again gives back the pieces. */
  lemma {:induction false} SplitJoin(parts: seq<string>, c: char)
    requires |parts| >= 1
    requires forall k :: 0 <= k < |parts| ==> c !in parts[k]
    ensures Split(Join(parts, c), c) == parts
  {
    if |parts| == 1 {
      assert IndexOf(parts[0], c) == -1;
    } else {
      var p, rest := parts[0], parts[1..];
      assert Join(parts, c) == p + [c] + Join(rest, c);
      SplitPiece(p, c, Join(rest, c));
      SplitJoin(rest, c);
      assert parts == [p] + rest;
    }
  }

  /** The first piece of a split is the text before the first separator. */
  lemma SplitHead(s: string, c: char)
    ensures Split(s, c)[0] == Before(s, c)
  {
  }

  /** The pieces after the first are the split of the text after the first separator,
      so joining them again gives back exactly that text. */
  lemma SplitTail(s: string, c: char)
    ensures c !in s <==> |Split(s, c)| == 1
    ensures c in s ==> Split(s, c)[1..] == Split(After(s, c), c)
    ensures c in s ==> Join(Split(s, c)[1..], c) == After(s, c)
  {
    if c in s {
      JoinSplit(After(s, c), c);
    }
  }

  /** `s.Replace(pat, "")`: a single left-to-right pass deleting non-overlapping
      occurrences of `pat`. */
  function RemoveAll(s: string, pat: string): (r: string)
    requires pat != []
    ensures |r| <= |s|
    decreases |s|
  {
    if IsPrefix(pat, s) then RemoveAll(s[|pat|..], pat)
    else if s == [] then []
    else [s[0]] + RemoveAll(s[1..], pat)
  }

  /** A string in which `pat` does not occur is left as it is. */
  lemma {:induction false} RemoveAllAbsent(s: string, pat: string)
    requires pat != []
    requires !Contains(s, pat)
    ensures RemoveAll(s, pat) == s
    decreases |s|
  {
    if s != [] {
      RemoveAllAbsent(s[1..], pat);
    }
  }

  /** An occurrence in `s[1..]` is an occurrence in `s` one position further on. */
  lemma OccursAtTail(s: string, pat: string, i: nat)
    requires s != []
    ensures OccursAt(s[1..], pat, i) <==> OccursAt(s, pat, i + 1)
  {
    if i + |pat| <= |s| - 1 {
      assert s[1..][i..i + |pat|] == s[i + 1..i + 1 + |pat|];
    }
  }

  /** When no occurrence of `pat` starts before position `n`, the pass copies the
      first `n` characters and continues on the rest. */
  lemma {:induction false} RemoveAllSkip(s: string, n: nat, pat: string)
    requires pat != [] && n <= |s|
    requires forall i: nat :: i < n ==> !OccursAt(s, pat, i)
    ensures RemoveAll(s, pat) == s[..n] + RemoveAll(s[n..], pat)
    decreases n
  {
    if n == 0 {
      assert s[..0] + RemoveAll(s[0..], pat) == RemoveAll(s, pat);
    } else {
      assert !OccursAt(s, pat, 0);
      var t := s[1..];
      forall i: nat | i < n - 1 ensures !OccursAt(t, pat, i) {
        OccursAtTail(s, pat, i);
      }
      RemoveAllSkip(t, n - 1, pat);
      assert t[n - 1..] == s[n..];
      assert s[..n] == [s[0]] + t[..n - 1];
    }
  }

  /** A leading occurrence of `pat` is deleted. */
  lemma RemoveAllPrefix(t: string, pat: string)
    requires pat != []
    ensures RemoveAll(pat + t, pat) == RemoveAll(t, pat)
  {
    assert IsPrefix(pat, pat + t);
    assert (pat + t)[|pat|..] == t;
  }
}
