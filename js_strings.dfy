/** The two JavaScript string operations the menu display relies on:
    `String.prototype.split` with a non-empty literal separator, and
    `String.prototype.trim`. */
module JsStrings {

  /** ECMAScript WhiteSpace and LineTerminator code points: TAB, VT, FF, SP,
      NBSP, ZWNBSP (BOM), the other Unicode "Zs" space separators, and LF, CR,
      LINE SEPARATOR, PARAGRAPH SEPARATOR. */
  predicate IsWhite(c: char)
  {
    c == '\t' || c == '\n' || c == '\U{B}' || c == '\U{C}' || c == '\r' ||
    c == ' ' || c == '\U{A0}' || c == '\U{1680}' ||
    ('\U{2000}' <= c <= '\U{200A}') ||
    c == '\U{2028}' || c == '\U{2029}' || c == '\U{202F}' || c == '\U{205F}' ||
    c == '\U{3000}' || c == '\U{FEFF}'
  }

  /** Every character of `s` is white space (the empty string included). */
  predicate IsBlank(s: string)
  {
    forall k :: 0 <= k < |s| ==> IsWhite(s[k])
  }

  /** `s` neither starts nor ends with white space. */
  predicate IsTrimmed(s: string)
  {
    s == [] || (!IsWhite(s[0]) && !IsWhite(s[|s| - 1]))
  }

  /** `trimStart`: the longest suffix of `s` that does not start with white space. */
  function TrimStart(s: string): string
    decreases |s|
  {
    if s != [] && IsWhite(s[0]) then TrimStart(s[1..]) else s
  }

  /** `trimStart` keeps a suffix that does not start with white space and cuts
      only white space before it. */
  lemma {:induction false} TrimStartSuffix(s: string)
    ensures |TrimStart(s)| <= |s| && TrimStart(s) == s[|s| - |TrimStart(s)|..]
    ensures IsBlank(s[..|s| - |TrimStart(s)|])
    ensures TrimStart(s) == [] || !IsWhite(TrimStart(s)[0])
    decreases |s|
  {
    if s != [] && IsWhite(s[0]) {
      TrimStartSuffix(s[1..]);
      var n := |s| - |TrimStart(s)|;
      forall k | 0 <= k < n ensures IsWhite(s[..n][k]) {
        if k > 0 { assert s[..n][k] == s[1..][..n - 1][k - 1]; }
      }
    }
  }

  /** `trimEnd`: the longest prefix of `s` that does not end with white space. */
  function TrimEnd(s: string): string
    decreases |s|
  {
    if s != [] && IsWhite(s[|s| - 1]) then TrimEnd(s[..|s| - 1]) else s
  }

  /** `trimEnd` keeps a prefix that does not end with white space and cuts
      only white space after it. */
  lemma {:induction false} TrimEndPrefix(s: string)
    ensures |TrimEnd(s)| <= |s| && TrimEnd(s) == s[..|TrimEnd(s)|]
    ensures IsBlank(s[|TrimEnd(s)|..])
    ensures TrimEnd(s) == [] || !IsWhite(TrimEnd(s)[|TrimEnd(s)| - 1])
    decreases |s|
  {
    if s != [] && IsWhite(s[|s| - 1]) {
      var m := |s| - 1;
      TrimEndPrefix(s[..m]);
      var n := |TrimEnd(s)|;
      forall k | n <= k < |s| ensures IsWhite(s[k]) {
        if k < m { assert s[..m][n..][k - n] == s[k]; }
      }
      assert s[..m][..n] == s[..n];
    }
  }

  /** `trim`: white space removed from both ends. */
  function Trim(s: string): (r: string)
    ensures |r| <= |s|
  {
    TrimStartSuffix(s);
    TrimEndPrefix(TrimStart(s));
    TrimEnd(TrimStart(s))
  }

  /** How many leading white-space characters `trim` removes from `s`. */
  function TrimOffset(s: string): nat
  {
    TrimStartSuffix(s);
    |s| - |TrimStart(s)|
  }

  /** What `trim` keeps: a trimmed middle part of `s`, with only white space
      cut away on either side. */
  lemma TrimIsMiddle(s: string)
    ensures IsTrimmed(Trim(s))
    ensures TrimOffset(s) + |Trim(s)| <= |s|
    ensures Trim(s) == s[TrimOffset(s)..TrimOffset(s) + |Trim(s)|]
    ensures IsBlank(s[..TrimOffset(s)]) && IsBlank(s[TrimOffset(s) + |Trim(s)|..])
  {
    var t := TrimStart(s);
    var r := TrimEnd(t);
    TrimStartSuffix(s);
    TrimEndPrefix(t);
    var i := |s| - |t|;
    assert i == TrimOffset(s) && r == Trim(s);
    assert r == t[..|r|];
    if r != [] {
      assert r[0] == t[0];
    }
    assert t == s[i..];
    assert r == s[i..i + |r|];
    assert s[i + |r|..] == t[|r|..];
  }

  /** `trim` yields the empty string exactly when `s` is blank. */
  lemma TrimEmptyIffBlank(s: string)
    ensures Trim(s) == [] <==> IsBlank(s)
  {
    var t := TrimStart(s);
    TrimStartSuffix(s);
    TrimEndPrefix(t);
    var i := |s| - |t|;
    if Trim(s) == [] {
      assert t[0..] == t;
      assert s[..i] == s;
    }
  }

  /** `trim` changes nothing on a string that is already trimmed. */
  lemma TrimTrimmed(s: string)
    requires IsTrimmed(s)
    ensures Trim(s) == s
  {
  }

  /** `trim` is idempotent. */
  lemma TrimIdempotent(s: string)
    ensures Trim(Trim(s)) == Trim(s)
  {
    TrimIsMiddle(s);
    TrimTrimmed(Trim(s));
  }

  /** `sep` occurs somewhere in `s`. */
  predicate Contains(s: string, sep: string)
    decreases |s|
  {
    sep <= s || (s != [] && Contains(s[1..], sep))
  }

  /** `s.split(sep)` for a non-empty literal separator: scanning from the left,
      each occurrence of `sep` ends one part and is removed. */
  function Split(s: string, sep: string): (parts: seq<string>)
    requires sep != []
    ensures |parts| >= 1
    decreases |s|
  {
    if sep <= s then [[]] + Split(s[|sep|..], sep)
    else if s == [] then [[]]
    else
      var rest := Split(s[1..], sep);
      [[s[0]] + rest[0]] + rest[1..]
  }

  /** A string shorter than the separator is not split. */
  lemma {:induction false} SplitShort(s: string, sep: string)
    requires sep != [] && |s| < |sep|
    ensures Split(s, sep) == [s]
    decreases |s|
  {
    if s != [] {
      SplitShort(s[1..], sep);
      assert [s[0]] + s[1..] == s;
    }
  }

  /** `parts.join(sep)`. */
  function Join(parts: seq<string>, sep: string): string
    requires |parts| >= 1
    decreases |parts|
  {
    if |parts| == 1 then parts[0] else parts[0] + sep + Join(parts[1..], sep)
  }

  /** Joining the parts of a split with the same separator gives back the
      original string. */
  lemma {:induction false} JoinSplit(s: string, sep: string)
    requires sep != []
    ensures Join(Split(s, sep), sep) == s
    decreases |s|
  {
    if sep <= s {
      JoinSplit(s[|sep|..], sep);
      assert s == sep + s[|sep|..];
    } else if s != [] {
      var rest := Split(s[1..], sep);
      JoinSplit(s[1..], sep);
      if |rest| > 1 {
        assert Join(rest, sep) == rest[0] + sep + Join(rest[1..], sep);
        assert [[s[0]] + rest[0]] + rest[1..] == [[s[0]] + rest[0]] + rest[1..];
        assert ([[s[0]] + rest[0]] + rest[1..])[1..] == rest[1..];
        assert s == [s[0]] + s[1..];
      } else {
        assert s == [s[0]] + s[1..];
      }
    }
  }

  /** The first part of a split is a prefix of the string. */
  lemma {:induction false} SplitHeadIsPrefix(s: string, sep: string)
    requires sep != []
    ensures Split(s, sep)[0] <= s
    decreases |s|
  {
    if !(sep <= s) && s != [] {
      SplitHeadIsPrefix(s[1..], sep);
    }
  }

  /** If a prefix of `s` contains `sep`, so does `s`. */
  lemma {:induction false} ContainsPrefix(p: string, s: string, sep: string)
    requires p <= s && Contains(p, sep)
    ensures Contains(s, sep)
    decreases |p|
  {
    if !(sep <= p) {
      ContainsPrefix(p[1..], s[1..], sep);
    } else {
      assert s[..|sep|] == p[..|sep|];
    }
  }

  /** No part of a split contains the separator. */
  lemma {:induction false} SplitPartsFree(s: string, sep: string)
    requires sep != []
    ensures forall p :: p in Split(s, sep) ==> !Contains(p, sep)
    decreases |s|
  {
    if sep <= s {
      SplitPartsFree(s[|sep|..], sep);
    } else if s != [] {
      var rest := Split(s[1..], sep);
      SplitPartsFree(s[1..], sep);
      SplitHeadIsPrefix(s[1..], sep);
      assert [s[0]] + rest[0] <= s;
    }
  }

  /** If a middle part `s[i..j]` of `s` contains `sep`, so does `s`. */
  lemma {:induction false} ContainsSlice(s: string, i: nat, j: nat, sep: string)
    requires i <= j <= |s| && Contains(s[i..j], sep)
    ensures Contains(s, sep)
    decreases i
  {
    if i == 0 {
      ContainsPrefix(s[..j], s, sep);
    } else {
      assert s[1..][i - 1..j - 1] == s[i..j];
      ContainsSlice(s[1..], i - 1, j - 1, sep);
    }
  }

  /** Trimming a fragment that holds no `sep` yields a trimmed string that
      holds none either. */
  lemma TrimKeepsFree(p: string, sep: string)
    requires !Contains(p, sep)
    ensures IsTrimmed(Trim(p)) && !Contains(Trim(p), sep)
  {
    TrimIsMiddle(p);
    if Contains(Trim(p), sep) {
      ContainsSlice(p, TrimOffset(p), TrimOffset(p) + |Trim(p)|, sep);
    }
  }
}
