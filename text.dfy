/** The string operations the handlers apply to request fields:
    `toLowerCase()`, `trim()` and `split(',')`. */
module Text {

  /** Characters `String.prototype.trim` removes: the ECMAScript WhiteSpace
      and LineTerminator code points. */
  predicate IsSpace(c: char) {
    var n := c as int;
    || n == 0x09 || n == 0x0A || n == 0x0B || n == 0x0C || n == 0x0D || n == 0x20
    || n == 0xA0 || n == 0x1680 || (0x2000 <= n <= 0x200A)
    || n == 0x2028 || n == 0x2029 || n == 0x202F || n == 0x205F
    || n == 0x3000 || n == 0xFEFF
  }

  predicate IsUpper(c: char) {
    'A' <= c <= 'Z'
  }

  function LowerChar(c: char): (d: char)
    ensures IsUpper(c) ==> d as int == c as int + 32
    ensures !IsUpper(d)
    ensures IsSpace(d) == IsSpace(c)
    ensures !IsUpper(c) ==> d == c
  {
    if IsUpper(c) then (c as int + 32) as char else c
  }

  predicate IsLowerCase(s: string) {
    forall i :: 0 <= i < |s| ==> !IsUpper(s[i])
  }

  /** `s.toLowerCase()`, on the letters A to Z. */
  function Lower(s: string): (r: string)
    ensures |r| == |s|
    ensures IsLowerCase(r)
    ensures forall i :: 0 <= i < |s| ==> r[i] == LowerChar(s[i])
  {
    seq(|s|, i requires 0 <= i < |s| => LowerChar(s[i]))
  }

  lemma LowerOfLowerCase(s: string)
    requires IsLowerCase(s)
    ensures Lower(s) == s
  {
  }

  /** No whitespace at either end. */
  predicate Trimmed(s: string) {
    s == [] || (!IsSpace(s[0]) && !IsSpace(s[|s| - 1]))
  }

  /** `s.trimStart()`: the longest suffix of `s` that does not start with
      whitespace (that it is a suffix is `TrimStartIsSuffix`). */
  function TrimStart(s: string): (r: string)
    ensures |r| <= |s|
    ensures forall i :: 0 <= i < |s| - |r| ==> IsSpace(s[i])
    ensures r == [] || !IsSpace(r[0])
    decreases |s|
  {
    if s != [] && IsSpace(s[0]) then TrimStart(s[1..]) else s
  }

  /** `s.trimEnd()`: the longest prefix of `s` that does not end with
      whitespace (that it is a prefix is `TrimEndIsPrefix`). */
  function TrimEnd(s: string): (r: string)
    ensures |r| <= |s|
    ensures forall i :: |r| <= i < |s| ==> IsSpace(s[i])
    ensures r == [] || !IsSpace(r[|r| - 1])
    decreases |s|
  {
    if s != [] && IsSpace(s[|s| - 1]) then TrimEnd(s[..|s| - 1]) else s
  }

  lemma {:induction false} TrimStartIsSuffix(s: string)
    ensures TrimStart(s) == s[|s| - |TrimStart(s)|..]
    decreases |s|
  {
    if s != [] && IsSpace(s[0]) {
      TrimStartIsSuffix(s[1..]);
    }
  }

  lemma {:induction false} TrimEndIsPrefix(s: string)
    ensures TrimEnd(s) == s[..|TrimEnd(s)|]
    decreases |s|
  {
    if s != [] && IsSpace(s[|s| - 1]) {
      TrimEndIsPrefix(s[..|s| - 1]);
    }
  }

  /** `s.trim()`. */
  function Trim(s: string): (r: string)
    ensures Trimmed(r)
    ensures |r| <= |s|
  {
    var t := TrimStart(s);
    var r := TrimEnd(t);
    TrimEndIsPrefix(t);
    assert r != [] ==> r[0] == t[0];
    r
  }

  lemma TrimOfTrimmed(s: string)
    requires Trimmed(s)
    ensures Trim(s) == s
  {
  }

  /** A slice of a lower-case string is lower-case. */
  lemma TrimKeepsLowerCase(s: string)
    requires IsLowerCase(s)
    ensures IsLowerCase(Trim(s))
  {
    var t := TrimStart(s);
    TrimStartIsSuffix(s);
    TrimEndIsPrefix(t);
    assert IsLowerCase(t) by {
      forall i | 0 <= i < |t| ensures !IsUpper(t[i]) {
        assert t[i] == s[|s| - |t| + i];
      }
    }
  }

  /** Every character of `s` is whitespace. */
  predicate AllSpace(s: string) {
    forall k :: 0 <= k < |s| ==> IsSpace(s[k])
  }

  /** Where `trim()` cuts: its result starts after the leading whitespace. */
  function TrimFrom(s: string): (i: nat)
    ensures i <= |s|
  {
    |s| - |TrimStart(s)|
  }

  /** `trim()` keeps the slice of its input from `TrimFrom(s)` on, of its own
      length, and removes only the whitespace on either side of it. */
  lemma TrimSlice(s: string)
    ensures TrimFrom(s) + |Trim(s)| <= |s|
    ensures Trim(s) == s[TrimFrom(s)..TrimFrom(s) + |Trim(s)|]
    ensures AllSpace(s[..TrimFrom(s)]) && AllSpace(s[TrimFrom(s) + |Trim(s)|..])
  {
    var t := TrimStart(s);
    var r := TrimEnd(t);
    TrimStartIsSuffix(s);
    TrimEndIsPrefix(t);
    var i := |s| - |t|;
    var j := i + |r|;
    assert r == s[i..j];
    assert AllSpace(s[..i]) by {
      forall k | 0 <= k < i ensures IsSpace(s[..i][k]) {
        assert s[..i][k] == s[k];
      }
    }
    assert AllSpace(s[j..]) by {
      forall k | 0 <= k < |s| - j ensures IsSpace(s[j..][k]) {
        assert s[j..][k] == t[|r| + k];
      }
    }
  }

  /** The slice of `s` that has only whitespace around it and none at its
      own ends is the trim of `s`: `trim()` is determined by that property. */
  lemma TrimUnique(s: string, i: nat, j: nat)
    requires i <= j <= |s| && AllSpace(s[..i]) && AllSpace(s[j..]) && Trimmed(s[i..j])
    ensures Trim(s) == s[i..j]
  {
    TrimSlice(s);
    var i', j' := TrimFrom(s), TrimFrom(s) + |Trim(s)|;
    assert forall k :: 0 <= k < i ==> IsSpace(s[k]) by {
      forall k | 0 <= k < i ensures IsSpace(s[k]) { assert s[..i][k] == s[k]; }
    }
    assert forall k :: j <= k < |s| ==> IsSpace(s[k]) by {
      forall k | j <= k < |s| ensures IsSpace(s[k]) { assert s[j..][k - j] == s[k]; }
    }
    assert forall k :: 0 <= k < i' ==> IsSpace(s[k]) by {
      forall k | 0 <= k < i' ensures IsSpace(s[k]) { assert s[..i'][k] == s[k]; }
    }
    assert forall k :: j' <= k < |s| ==> IsSpace(s[k]) by {
      forall k | j' <= k < |s| ensures IsSpace(s[k]) { assert s[j'..][k - j'] == s[k]; }
    }
    if i < j && i' < j' {
      assert s[i..j][0] == s[i] && s[i'..j'][0] == s[i'];
      assert s[i..j][j - i - 1] == s[j - 1] && s[i'..j'][j' - i' - 1] == s[j' - 1];
    }
  }

  lemma AllSpaceConcat(a: string, b: string)
    requires AllSpace(a) && AllSpace(b)
    ensures AllSpace(a + b)
  {
    forall k | 0 <= k < |a + b| ensures IsSpace((a + b)[k]) {
      if k >= |a| {
        assert (a + b)[k] == b[k - |a|];
      }
    }
  }

  /** A slice with only whitespace around it keeps that property when more
      whitespace is added at both ends. */
  lemma SurroundedSlice(w: string, m: string, v: string, i: nat, j: nat)
    requires i <= j <= |m| && AllSpace(w) && AllSpace(v) && AllSpace(m[..i]) && AllSpace(m[j..])
    ensures (w + m + v)[|w| + i..|w| + j] == m[i..j]
    ensures AllSpace((w + m + v)[..|w| + i]) && AllSpace((w + m + v)[|w| + j..])
  {
    var s := w + m + v;
    assert s[..|w| + i] == w + m[..i];
    assert s[|w| + j..] == m[j..] + v;
    AllSpaceConcat(w, m[..i]);
    AllSpaceConcat(m[j..], v);
  }

  /** Whitespace added around a string does not change its trim. */
  lemma TrimOuterSpace(w: string, m: string, v: string)
    requires AllSpace(w) && AllSpace(v)
    ensures Trim(w + m + v) == Trim(m)
  {
    TrimSlice(m);
    var i, j := TrimFrom(m), TrimFrom(m) + |Trim(m)|;
    SurroundedSlice(w, m, v, i, j);
    TrimUnique(w + m + v, |w| + i, |w| + j);
  }

  /** `username.toLowerCase().trim()`: the form in which usernames are
      looked up and stored. */
  function Normalize(u: string): (r: string)
    ensures IsLowerCase(r) && Trimmed(r)
    ensures |r| <= |u|
  {
    TrimKeepsLowerCase(Lower(u));
    Trim(Lower(u))
  }

  /** The normal form: no upper-case letter and no whitespace at either end. */
  predicate Normalized(u: string) {
    IsLowerCase(u) && Trimmed(u)
  }

  /** The strings in normal form are exactly those `Normalize` leaves alone. */
  lemma NormalizedIff(u: string)
    ensures Normalized(u) <==> Normalize(u) == u
  {
    if Normalized(u) {
      LowerOfLowerCase(u);
      TrimOfTrimmed(u);
    }
  }

  /** Normalising twice is normalising once, so a stored username is found
      again by looking up its own normal form. */
  lemma NormalizeIdempotent(u: string)
    ensures Normalize(Normalize(u)) == Normalize(u)
  {
    NormalizedIff(Normalize(u));
  }

  /** `toLowerCase().trim()` is the lower-cased input with the whitespace
      around it removed: the slice of `Lower(u)` from `TrimFrom(Lower(u))` on,
      with only whitespace of `u` on either side. */
  lemma NormalizeSlice(u: string)
    ensures var i := TrimFrom(Lower(u)); var j := i + |Normalize(u)|;
      && j <= |u| && Normalize(u) == Lower(u)[i..j]
      && AllSpace(u[..i]) && AllSpace(u[j..])
  {
    var l := Lower(u);
    TrimSlice(l);
    var i, j := TrimFrom(l), TrimFrom(l) + |Trim(l)|;
    assert AllSpace(u[..i]) by {
      forall k | 0 <= k < i ensures IsSpace(u[..i][k]) {
        assert l[..i][k] == LowerChar(u[k]);
      }
    }
    assert AllSpace(u[j..]) by {
      forall k | 0 <= k < |u| - j ensures IsSpace(u[j..][k]) {
        assert l[j..][k] == LowerChar(u[j + k]);
      }
    }
  }

  /** Two usernames that differ only in the case of their letters normalise
      to the same name. */
  lemma NormalizeIgnoresCase(x: string, y: string)
    requires |x| == |y| && forall i :: 0 <= i < |x| ==> LowerChar(x[i]) == LowerChar(y[i])
    ensures Normalize(x) == Normalize(y)
  {
    assert Lower(x) == Lower(y);
  }

  lemma LowerConcat(a: string, b: string)
    ensures Lower(a + b) == Lower(a) + Lower(b)
  {
    assert forall k :: 0 <= k < |b| ==> (a + b)[|a| + k] == b[k];
  }

  lemma LowerKeepsSpace(w: string)
    requires AllSpace(w)
    ensures AllSpace(Lower(w))
  {
  }

  /** Whitespace around a username does not change its normal form. */
  lemma NormalizeIgnoresOuterSpace(p: string, x: string, q: string)
    requires AllSpace(p) && AllSpace(q)
    ensures Normalize(p + x + q) == Normalize(x)
  {
    LowerConcat(p + x, q);
    LowerConcat(p, x);
    LowerKeepsSpace(p);
    LowerKeepsSpace(q);
    TrimOuterSpace(Lower(p), Lower(x), Lower(q));
  }

  /** `s.split(sep)` with a one-character separator: the maximal
      separator-free pieces, empty ones included. */
  function Split(s: string, sep: char): (parts: seq<string>)
    ensures |parts| >= 1
    ensures forall i :: 0 <= i < |parts| ==> sep !in parts[i]
    decreases |s|
  {
    if s == [] then [[]]
    else
      var rest := Split(s[1..], sep);
      if s[0] == sep then [[]] + rest
      else [[s[0]] + rest[0]] + rest[1..]
  }

  /** `parts.join(sep)`, the inverse of `Split`. */
  function Join(parts: seq<string>, sep: char): string
    requires |parts| >= 1
    decreases |parts|
  {
    if |parts| == 1 then parts[0] else parts[0] + [sep] + Join(parts[1..], sep)
  }

  lemma {:induction false} JoinSplit(s: string, sep: char)
    ensures Join(Split(s, sep), sep) == s
    decreases |s|
  {
    if s != [] {
      JoinSplit(s[1..], sep);
      var rest := Split(s[1..], sep);
      if s[0] != sep {
        if |rest| == 1 {
          assert Join(Split(s, sep), sep) == [s[0]] + rest[0];
        } else {
          assert Join(Split(s, sep), sep) == [s[0]] + rest[0] + [sep] + Join(rest[1..], sep);
        }
      }
    }
  }

  /** Splitting `p + [sep] + rest` splits off `p` first. */
  lemma {:induction false} SplitAfterPiece(p: string, sep: char, rest: string)
    requires sep !in p
    ensures Split(p + [sep] + rest, sep) == [p] + Split(rest, sep)
    decreases |p|
  {
    if p == [] {
      assert ([sep] + rest)[1..] == rest;
    } else {
      assert (p + [sep] + rest)[1..] == p[1..] + [sep] + rest;
      SplitAfterPiece(p[1..], sep, rest);
      assert [p[0]] + p[1..] == p;
    }
  }

  lemma {:induction false} SplitOnlyPiece(p: string, sep: char)
    requires sep !in p
    ensures Split(p, sep) == [p]
    decreases |p|
  {
    if p != [] {
      SplitOnlyPiece(p[1..], sep);
      assert [p[0]] + p[1..] == p;
    }
  }

  lemma {:induction false} SplitJoin(parts: seq<string>, sep: char)
    requires |parts| >= 1
    requires forall i :: 0 <= i < |parts| ==> sep !in parts[i]
    ensures Split(Join(parts, sep), sep) == parts
    decreases |parts|
  {
    if |parts| == 1 {
      SplitOnlyPiece(parts[0], sep);
    } else {
      SplitJoin(parts[1..], sep);
      SplitAfterPiece(parts[0], sep, Join(parts[1..], sep));
      assert [parts[0]] + parts[1..] == parts;
    }
  }
}
