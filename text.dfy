/** Character-level text operations shared by the server and the client:
    case folding, white space as .NET and JavaScript define it, trimming,
    substring search and the ordinal order on strings. */
module Text {
  import opened Optional

  // ---------------------------------------------------------------------------
  // Case folding. The listing query lower-cases both sides of every comparison;
  // the model fixes that fold to the ASCII letters A-Z.
  // ---------------------------------------------------------------------------

  function LowerChar(c: char): (r: char)
    ensures !('A' <= r <= 'Z')
    ensures 'a' <= c <= 'z' ==> r == c
  {
    if 'A' <= c <= 'Z' then (c as int + 32) as char else c
  }

  function ToLower(s: string): (r: string)
    ensures |r| == |s|
    ensures forall i :: 0 <= i < |s| ==> r[i] == LowerChar(s[i])
  {
    seq(|s|, i requires 0 <= i < |s| => LowerChar(s[i]))
  }

  /** Folding twice is folding once. */
  lemma ToLowerIdempotent(s: string)
    ensures ToLower(ToLower(s)) == ToLower(s)
  {
  }

  // ---------------------------------------------------------------------------
  // White space.
  // ---------------------------------------------------------------------------

  /** `Char.IsWhiteSpace` of .NET: the Unicode space separators, the line and
      paragraph separators, U+0009 to U+000D, U+0085 and U+00A0. */
  predicate IsDotNetWhiteSpace(c: char)
  {
    || '\U{0009}' <= c <= '\U{000D}'
    || c == ' '
    || c == '\U{0085}'
    || c == '\U{00A0}'
    || c == '\U{1680}'
    || '\U{2000}' <= c <= '\U{200A}'
    || c == '\U{2028}'
    || c == '\U{2029}'
    || c == '\U{202F}'
    || c == '\U{205F}'
    || c == '\U{3000}'
  }

  /** The characters JavaScript's `String.prototype.trim` removes: WhiteSpace and
      LineTerminator of ECMAScript. Unlike .NET it includes U+FEFF and excludes U+0085. */
  predicate IsJsWhiteSpace(c: char)
  {
    || '\U{0009}' <= c <= '\U{000D}'
    || c == ' '
    || c == '\U{00A0}'
    || c == '\U{1680}'
    || '\U{2000}' <= c <= '\U{200A}'
    || c == '\U{2028}'
    || c == '\U{2029}'
    || c == '\U{202F}'
    || c == '\U{205F}'
    || c == '\U{3000}'
    || c == '\U{FEFF}'
  }

  /** `string.IsNullOrWhiteSpace` of .NET. */
  predicate IsNullOrWhiteSpace(s: Option<string>)
  {
    s.None? || forall i :: 0 <= i < |s.value| ==> IsDotNetWhiteSpace(s.value[i])
  }

  // ---------------------------------------------------------------------------
  // JavaScript trim.
  // ---------------------------------------------------------------------------

  /** `String.prototype.trimStart`: drops the leading white space. */
  function TrimStart(s: string): string
  {
    if s != [] && IsJsWhiteSpace(s[0]) then TrimStart(s[1..]) else s
  }

  /** `String.prototype.trimEnd`: drops the trailing white space. */
  function TrimEnd(s: string): string
  {
    if s != [] && IsJsWhiteSpace(s[|s| - 1]) then TrimEnd(s[..|s| - 1]) else s
  }

  /** `String.prototype.trim`: drops white space at both ends. */
  function Trim(s: string): string
  {
    TrimEnd(TrimStart(s))
  }

  /** TrimStart keeps a suffix, cuts only white space and stops at the first other
      character. */
  lemma {:induction false} TrimStartSpec(s: string)
    ensures var r := TrimStart(s);
            && |r| <= |s| && r == s[|s| - |r|..]
            && (forall i :: 0 <= i < |s| - |r| ==> IsJsWhiteSpace(s[i]))
            && (r != [] ==> !IsJsWhiteSpace(r[0]))
    decreases |s|
  {
    if s != [] && IsJsWhiteSpace(s[0]) {
      var t := s[1..];
      TrimStartSpec(t);
      var r := TrimStart(t);
      assert t[|t| - |r|..] == s[|s| - |r|..];
      forall i | 1 <= i < |s| - |r| ensures IsJsWhiteSpace(s[i]) {
        assert s[i] == t[i - 1];
      }
    }
  }

  /** TrimEnd keeps a prefix, cuts only white space and stops at the last other
      character. */
  lemma {:induction false} TrimEndSpec(s: string)
    ensures var r := TrimEnd(s);
            && |r| <= |s| && r == s[..|r|]
            && (forall i :: |r| <= i < |s| ==> IsJsWhiteSpace(s[i]))
            && (r != [] ==> !IsJsWhiteSpace(r[|r| - 1]))
    decreases |s|
  {
    if s != [] && IsJsWhiteSpace(s[|s| - 1]) {
      var t := s[..|s| - 1];
      TrimEndSpec(t);
      var r := TrimEnd(t);
      assert t[..|r|] == s[..|r|];
      forall i | |r| <= i < |s| - 1 ensures IsJsWhiteSpace(s[i]) {
        assert s[i] == t[i];
      }
    }
  }

  /** `s[i..j]` is what is left when only white space is cut from both ends of `s`. */
  ghost predicate CutsWhiteSpace(s: string, i: int, j: int)
  {
    && 0 <= i <= j <= |s|
    && (forall k :: 0 <= k < i ==> IsJsWhiteSpace(s[k]))
    && (forall k :: j <= k < |s| ==> IsJsWhiteSpace(s[k]))
  }

  /** The trimmed string is a slice of the input with only white space cut away,
      and it neither starts nor ends with white space. */
  lemma TrimIsSlice(s: string)
    ensures exists i, j :: CutsWhiteSpace(s, i, j) && Trim(s) == s[i..j]
    ensures Trim(s) != [] ==> !IsJsWhiteSpace(Trim(s)[0]) && !IsJsWhiteSpace(Trim(s)[|Trim(s)| - 1])
  {
    var t := TrimStart(s);
    TrimStartSpec(s);
    var i := |s| - |t|;
    var u := TrimEnd(t);
    TrimEndSpec(t);
    var j := i + |u|;
    assert t == s[i..];
    assert u == t[..|u|];
    assert u == s[i..j];
    forall k | j <= k < |s| ensures IsJsWhiteSpace(s[k]) {
      assert s[k] == t[k - i];
    }
    assert CutsWhiteSpace(s, i, j);
    if u != [] {
      assert u[0] == t[0];
    }
  }

  /** A string trims to "" exactly when it consists of white space only. */
  lemma TrimEmptyIff(s: string)
    ensures Trim(s) == "" <==> forall i :: 0 <= i < |s| ==> IsJsWhiteSpace(s[i])
  {
    var t := TrimStart(s);
    TrimStartSpec(s);
    TrimEndSpec(t);
    var k := |s| - |t|;
    if Trim(s) != "" {
      assert t[0] == s[k];
    }
  }

  /** Trimming an already trimmed string changes nothing. */
  lemma TrimIdempotent(s: string)
    ensures Trim(Trim(s)) == Trim(s)
  {
    var r := Trim(s);
    TrimIsSlice(s);
    if r != [] {
      assert TrimStart(r) == r;
      assert TrimEnd(r) == r;
    }
  }

  // ---------------------------------------------------------------------------
  // Substring search (`string.Contains` / SQL LIKE '%x%').
  // ---------------------------------------------------------------------------

  predicate IsPrefix(p: string, s: string)
  {
    |p| <= |s| && s[..|p|] == p
  }

  /** `sub` occurs in `s` starting at position `i`. */
  predicate OccursAt(s: string, sub: string, i: nat)
  {
    i + |sub| <= |s| && s[i..i + |sub|] == sub
  }

  function Contains(s: string, sub: string): bool
  {
    IsPrefix(sub, s) || (s != [] && Contains(s[1..], sub))
  }

  /** `Contains` finds exactly the occurrences of `sub` in `s`. */
  lemma {:induction false} ContainsIff(s: string, sub: string)
    ensures Contains(s, sub) <==> exists i: nat :: OccursAt(s, sub, i)
  {
    if IsPrefix(sub, s) {
      assert OccursAt(s, sub, 0);
    } else if s == [] {
      forall i: nat ensures !OccursAt(s, sub, i) {
      }
    } else {
      ContainsIff(s[1..], sub);
      if Contains(s[1..], sub) {
        var i: nat :| OccursAt(s[1..], sub, i);
        assert s[1..][i..i + |sub|] == s[i + 1..i + 1 + |sub|];
        assert OccursAt(s, sub, i + 1);
      } else {
        forall i: nat | 0 < i && i + |sub| <= |s| ensures !OccursAt(s, sub, i) {
          assert s[1..][i - 1..i - 1 + |sub|] == s[i..i + |sub|];
          assert !OccursAt(s[1..], sub, i - 1);
        }
      }
    }
  }

  // ---------------------------------------------------------------------------
  // Ordinal (code point by code point) lexicographic order on strings.
  // ---------------------------------------------------------------------------

  predicate StrLe(a: string, b: string)
  {
    if a == [] then true
    else if b == [] then false
    else if a[0] != b[0] then a[0] < b[0]
    else StrLe(a[1..], b[1..])
  }

  predicate StrLt(a: string, b: string)
  {
    StrLe(a, b) && a != b
  }

  lemma {:induction false} StrLeRefl(a: string)
    ensures StrLe(a, a)
  {
    if a != [] {
      StrLeRefl(a[1..]);
    }
  }

  lemma {:induction false} StrLeAntisym(a: string, b: string)
    requires StrLe(a, b) && StrLe(b, a)
    ensures a == b
  {
    if a != [] && b != [] {
      StrLeAntisym(a[1..], b[1..]);
      assert a == [a[0]] + a[1..] && b == [b[0]] + b[1..];
    }
  }

  lemma {:induction false} StrLeTrans(a: string, b: string, c: string)
    requires StrLe(a, b) && StrLe(b, c)
    ensures StrLe(a, c)
  {
    if a != [] && b != [] && c != [] && a[0] == b[0] && b[0] == c[0] {
      StrLeTrans(a[1..], b[1..], c[1..]);
    }
  }

  lemma {:induction false} StrLeTotal(a: string, b: string)
    ensures StrLe(a, b) || StrLe(b, a)
  {
    if a != [] && b != [] && a[0] == b[0] {
      StrLeTotal(a[1..], b[1..]);
    }
  }
}
