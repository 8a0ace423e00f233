/**
 * The string operations the todo store relies on: JavaScript's
 * String.prototype.trim, and the "blank" test the actions validate with.
 */
module Text {

  /** The characters trim removes: ECMAScript WhiteSpace (tab, vertical tab,
      form feed, space, no-break space, byte order mark and the Unicode Zs
      space separators) and LineTerminator (LF, CR, U+2028, U+2029). */
  predicate IsWhitespace(c: char) {
    || c == '\t' || c == '\n' || c == '\U{000B}' || c == '\U{000C}' || c == '\r'
    || c == ' ' || c == '\U{00A0}' || c == '\U{1680}'
    || ('\U{2000}' <= c <= '\U{200A}')
    || c == '\U{2028}' || c == '\U{2029}' || c == '\U{202F}' || c == '\U{205F}'
    || c == '\U{3000}' || c == '\U{FEFF}'
  }

  /** A string is blank when it holds nothing but whitespace (the empty string included). */
  predicate IsBlank(s: string) {
    forall i :: 0 <= i < |s| ==> IsWhitespace(s[i])
  }

  /** Drops the leading whitespace: the result is the suffix of s that
      starts at its first non-whitespace character. */
  function TrimStart(s: string): (r: string)
    ensures |r| <= |s| && r == s[|s| - |r|..]
    ensures IsBlank(s[..|s| - |r|])
    ensures r == [] || !IsWhitespace(r[0])
  {
    if s != [] && IsWhitespace(s[0]) then
      var r := TrimStart(s[1..]);
      TrimStartStep(s, r);
      r
    else
      s
  }

  /** Drops the trailing whitespace: the result is the prefix of s that
      ends at its last non-whitespace character. */
  function TrimEnd(s: string): (r: string)
    ensures |r| <= |s| && r == s[..|r|]
    ensures IsBlank(s[|r|..])
    ensures r == [] || !IsWhitespace(r[|r| - 1])
  {
    if s != [] && IsWhitespace(s[|s| - 1]) then
      var r := TrimEnd(s[..|s| - 1]);
      TrimEndStep(s, r);
      r
    else
      s
  }

  /** The recursive step of TrimStart: one more whitespace character in
      front of s[1..] extends the blank prefix that TrimStart(s[1..]) drops. */
  lemma TrimStartStep(s: string, r: string)
    requires s != [] && IsWhitespace(s[0])
    requires |r| <= |s[1..]| && r == s[1..][|s[1..]| - |r|..] && IsBlank(s[1..][..|s[1..]| - |r|])
    ensures r == s[|s| - |r|..] && IsBlank(s[..|s| - |r|])
  {
    var n := |s| - |r|;
    assert s[1..][n - 1..] == s[n..];
    assert s[..n] == [s[0]] + s[1..][..n - 1];
    BlankConcat([s[0]], s[1..][..n - 1]);
  }

  /** The recursive step of TrimEnd: one more whitespace character at the
      end of s[..|s| - 1] extends the blank suffix that its TrimEnd drops. */
  lemma TrimEndStep(s: string, r: string)
    requires s != [] && IsWhitespace(s[|s| - 1])
    requires |r| <= |s[..|s| - 1]| && r == s[..|s| - 1][..|r|] && IsBlank(s[..|s| - 1][|r|..])
    ensures r == s[..|r|] && IsBlank(s[|r|..])
  {
    var n := |s| - 1;
    assert s[..n][..|r|] == s[..|r|];
    assert s[|r|..] == s[..n][|r|..] + [s[n]];
    BlankConcat(s[..n][|r|..], [s[n]]);
  }

  /** String.prototype.trim: the string without its leading and trailing
      whitespace. It is empty exactly when s is blank, and otherwise starts
      and ends with a non-whitespace character (TrimSlice: it is a slice of s
      between blank margins). */
  function Trim(s: string): (r: string)
    ensures |r| <= |s|
    ensures r == [] <==> IsBlank(s)
    ensures r == [] || (!IsWhitespace(r[0]) && !IsWhitespace(r[|r| - 1]))
  {
    var t := TrimStart(s);
    assert t == [] ==> IsBlank(s) by {
      if t == [] {
        assert s == s[..|s| - |t|];
      }
    }
    TrimEnd(t)
  }

  /** The slice of s that Trim returns: it starts at offset i, and
      everything before and after it is whitespace. */
  lemma TrimSlice(s: string) returns (i: nat)
    ensures i + |Trim(s)| <= |s| && Trim(s) == s[i..i + |Trim(s)|]
    ensures IsBlank(s[..i]) && IsBlank(s[i + |Trim(s)|..])
  {
    var t := TrimStart(s);
    var r := TrimEnd(t);
    assert Trim(s) == r;
    i := |s| - |t|;
    assert t == s[i..] && IsBlank(s[..i]);
    assert r == t[..|r|] && IsBlank(t[|r|..]);
    SliceOfSuffix(s, i, |r|);
  }

  /** Slicing a suffix of s is slicing s further along. */
  lemma SliceOfSuffix(s: string, i: nat, n: nat)
    requires i + n <= |s|
    ensures s[i..][..n] == s[i..i + n] && s[i..][n..] == s[i + n..]
  {
  }

  /** Trimming a string that already has no surrounding whitespace changes nothing. */
  lemma {:induction false} TrimUntrimmed(s: string)
    requires s == [] || (!IsWhitespace(s[0]) && !IsWhitespace(s[|s| - 1]))
    ensures Trim(s) == s
  {
    assert TrimStart(s) == s;
    assert TrimEnd(s) == s;
  }

  /** Trimming twice is trimming once. */
  lemma {:induction false} TrimIdempotent(s: string)
    ensures Trim(Trim(s)) == Trim(s)
  {
    TrimUntrimmed(Trim(s));
  }

  /** Trim is the only slice of s that leaves blank margins and has no
      whitespace at either end (or is empty, when s is blank). */
  lemma TrimUnique(s: string, i: nat, j: nat)
    requires i <= j <= |s| && IsBlank(s[..i]) && IsBlank(s[j..])
    requires i == j || (!IsWhitespace(s[i]) && !IsWhitespace(s[j - 1]))
    requires i == j ==> IsBlank(s)
    ensures Trim(s) == s[i..j]
  {
    if i == j {
      assert Trim(s) == [];
    } else {
      TrimUniqueSpan(s, i, j);
    }
  }

  /** TrimUnique for a string that is not blank: TrimStart stops at i and
      TrimEnd at j. */
  lemma TrimUniqueSpan(s: string, i: nat, j: nat)
    requires i < j <= |s| && IsBlank(s[..i]) && IsBlank(s[j..])
    requires !IsWhitespace(s[i]) && !IsWhitespace(s[j - 1])
    ensures Trim(s) == s[i..j]
  {
    TrimStartAt(s, i);
    TrimEndAtSuffix(s, i, j);
  }

  /** TrimEndAt, for the suffix of s that starts at i. */
  lemma TrimEndAtSuffix(s: string, i: nat, j: nat)
    requires i < j <= |s| && IsBlank(s[j..]) && !IsWhitespace(s[j - 1])
    ensures TrimEnd(s[i..]) == s[i..j]
  {
    var t := s[i..];
    assert t[j - i..] == s[j..] && t[j - i - 1] == s[j - 1];
    TrimEndAt(t, j - i);
    assert t[..j - i] == s[i..j];
  }

  /** TrimStart stops at the first character that is not whitespace. */
  lemma {:induction false} TrimStartAt(s: string, i: nat)
    requires i < |s| && IsBlank(s[..i]) && !IsWhitespace(s[i])
    ensures TrimStart(s) == s[i..]
  {
    if i > 0 {
      assert s[..i][0] == s[0];
      assert s[1..][..i - 1] == s[1..i] && s[1..i] == s[..i][1..];
      TrimStartAt(s[1..], i - 1);
      assert s[1..][i - 1..] == s[i..];
    }
  }

  /** TrimEnd stops after the last character that is not whitespace. */
  lemma {:induction false} TrimEndAt(s: string, j: nat)
    requires 0 < j <= |s| && IsBlank(s[j..]) && !IsWhitespace(s[j - 1])
    ensures TrimEnd(s) == s[..j]
  {
    if j < |s| {
      var n := |s| - 1;
      assert s[j..][n - j] == s[n];
      var u := s[..n];
      assert u[j..] == s[j..][..n - j];
      TrimEndAt(u, j);
      assert u[..j] == s[..j];
    }
  }

  /** Whitespace added around a string is removed again by trim. */
  lemma {:induction false} TrimPadded(pre: string, s: string, post: string)
    requires IsBlank(pre) && IsBlank(post)
    ensures Trim(pre + s + post) == Trim(s)
  {
    assert pre + s + post == pre + (s + post);
    TrimStartPadded(pre, s + post);
    if IsBlank(s) {
      BlankConcat(s, post);
      assert Trim(s + post) == [];
    } else {
      TrimStartAppend(s, post);
      TrimEndPadded(TrimStart(s), post);
    }
  }

  /** Leading whitespace is dropped by TrimStart. */
  lemma {:induction false} TrimStartPadded(pre: string, s: string)
    requires IsBlank(pre)
    ensures TrimStart(pre + s) == TrimStart(s)
  {
    if pre != [] {
      assert (pre + s)[0] == pre[0] && IsWhitespace(pre[0]);
      assert (pre + s)[1..] == pre[1..] + s;
      assert TrimStart(pre + s) == TrimStart(pre[1..] + s);
      TrimStartPadded(pre[1..], s);
    } else {
      assert pre + s == s;
    }
  }

  /** Trailing whitespace is dropped by TrimEnd. */
  lemma {:induction false} TrimEndPadded(s: string, post: string)
    requires IsBlank(post)
    ensures TrimEnd(s + post) == TrimEnd(s)
  {
    if post != [] {
      var n := |post| - 1;
      assert (s + post)[|s + post| - 1] == post[n] && IsWhitespace(post[n]);
      assert (s + post)[..|s + post| - 1] == s + post[..n];
      assert TrimEnd(s + post) == TrimEnd(s + post[..n]);
      TrimEndPadded(s, post[..n]);
    } else {
      assert s + post == s;
    }
  }

  /** TrimStart of a string that is not blank keeps whatever follows it. */
  lemma {:induction false} TrimStartAppend(s: string, post: string)
    requires !IsBlank(s)
    ensures TrimStart(s + post) == TrimStart(s) + post
  {
    if IsWhitespace(s[0]) {
      assert (s + post)[1..] == s[1..] + post;
      TrimStartAppend(s[1..], post);
    }
  }

  lemma BlankConcat(a: string, b: string)
    requires IsBlank(a) && IsBlank(b)
    ensures IsBlank(a + b)
  {
    forall m | 0 <= m < |a + b| ensures IsWhitespace((a + b)[m]) {
      if m >= |a| { assert (a + b)[m] == b[m - |a|]; }
    }
  }
}
