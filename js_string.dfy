/**
 * The JavaScript string operations the chat parser and the add handler rely on:
 * String.prototype.trim, toLowerCase, startsWith, indexOf and replace with a string
 * pattern and an empty replacement. A JavaScript string is modelled as a sequence of Unicode characters.
 */
module JsString {
  import opened Maybe

  /**
   * The code points that trim strips: WhiteSpace (ECMAScript section 12.2: TAB, VT,
   * FF, ZWNBSP and every Zs space) and LineTerminator (section 12.3: LF, CR, LS, PS).
   */
  predicate IsWhitespace(c: char): (b: bool)
    ensures c in " \t\n\r" ==> b
    ensures ('a' <= c <= 'z' || 'A' <= c <= 'Z' || '0' <= c <= '9') ==> !b
  {
    c == '\t' || c == '\n' || c == '\U{B}' || c == '\U{C}' || c == '\r' || c == ' '
    || c == '\U{A0}' || c == '\U{1680}' || ('\U{2000}' <= c <= '\U{200A}')
    || c == '\U{2028}' || c == '\U{2029}' || c == '\U{202F}' || c == '\U{205F}'
    || c == '\U{3000}' || c == '\U{FEFF}'
  }

  predicate AllWhitespace(s: string) {
    forall i :: 0 <= i < |s| ==> IsWhitespace(s[i])
  }

  /** A string with no whitespace at either end, which is what trim leaves. */
  predicate IsTrimmed(s: string) {
    s == [] || (!IsWhitespace(s[0]) && !IsWhitespace(s[|s| - 1]))
  }

  /** Drops the leading whitespace: the result is a suffix of `s` and all that was dropped is whitespace. */
  function TrimStart(s: string): (r: string)
    ensures |r| <= |s| && r == s[|s| - |r|..]
    ensures r == [] || !IsWhitespace(r[0])
    ensures AllWhitespace(s[..|s| - |r|])
  {
    if s != [] && IsWhitespace(s[0]) then
      var r := TrimStart(s[1..]);
      assert s[..|s| - |r|] == [s[0]] + s[1..][..|s| - 1 - |r|];
      r
    else s
  }

  /** Drops the trailing whitespace: the result is a prefix of `s` and all that was dropped is whitespace. */
  function TrimEnd(s: string): (r: string)
    ensures |r| <= |s| && r == s[..|r|]
    ensures r == [] || !IsWhitespace(r[|r| - 1])
    ensures AllWhitespace(s[|r|..])
  {
    if s != [] && IsWhitespace(s[|s| - 1]) then
      var r := TrimEnd(s[..|s| - 1]);
      assert s[|r|..] == s[..|s| - 1][|r|..] + [s[|s| - 1]];
      r
    else s
  }

  /** String.prototype.trim. */
  function Trim(s: string): (r: string)
    ensures IsTrimmed(r)
    ensures |r| <= |s|
    ensures r == [] <==> AllWhitespace(s)
  {
    var t := TrimStart(s);
    var r := TrimEnd(t);
    if r == [] then
      assert t == [];
      assert s[..|s| - |t|] == s;
      r
    else
      assert r[0] == t[0];
      r
  }

  /** Trim only removes whitespace at the two ends: what it returns is an infix `s[i..i + |Trim(s)|]` of `s`. */
  lemma TrimIsInfix(s: string) returns (i: nat)
    ensures i + |Trim(s)| <= |s| && Trim(s) == s[i..i + |Trim(s)|]
    ensures AllWhitespace(s[..i]) && AllWhitespace(s[i + |Trim(s)|..])
  {
    var t := TrimStart(s);
    i := |s| - |t|;
    var r := TrimEnd(t);
    assert Trim(s) == r;
    assert t == s[i..];
    assert s[i..][..|r|] == s[i..i + |r|];
    assert s[i + |r|..] == t[|r|..];
  }

  /** A string trim would leave alone is left alone (so trim is idempotent). */
  lemma TrimTrimmed(s: string)
    requires IsTrimmed(s)
    ensures Trim(s) == s
  {
  }

  lemma {:induction false} TrimStartLeading(w: string, r: string)
    requires AllWhitespace(w) && (r == [] || !IsWhitespace(r[0]))
    ensures TrimStart(w + r) == r
  {
    if w != [] {
      assert (w + r)[1..] == w[1..] + r;
      TrimStartLeading(w[1..], r);
    }
  }

  lemma {:induction false} TrimEndTrailing(r: string, w: string)
    requires AllWhitespace(w) && (r == [] || !IsWhitespace(r[|r| - 1]))
    ensures TrimEnd(r + w) == r
  {
    if w != [] {
      assert (r + w)[..|r + w| - 1] == r + w[..|w| - 1];
      TrimEndTrailing(r, w[..|w| - 1]);
    }
  }

  /** Whitespace around a trimmed string is exactly what trim removes. */
  lemma TrimSurrounded(w1: string, m: string, w2: string)
    requires AllWhitespace(w1) && AllWhitespace(w2) && IsTrimmed(m)
    ensures Trim(w1 + m + w2) == m
  {
    if m == [] {
      assert AllWhitespace(w1 + m + w2) by {
        forall i | 0 <= i < |w1 + m + w2| ensures IsWhitespace((w1 + m + w2)[i]) {
          if i < |w1| { assert (w1 + m + w2)[i] == w1[i]; }
          else { assert (w1 + m + w2)[i] == w2[i - |w1|]; }
        }
      }
    } else {
      assert w1 + m + w2 == w1 + (m + w2);
      assert (m + w2)[0] == m[0];
      TrimStartLeading(w1, m + w2);
      TrimEndTrailing(m, w2);
    }
  }

  /** The character mapping of toLowerCase, for the ASCII and Latin-1 capital letters. */
  function ToLowerChar(c: char): char {
    if 'A' <= c <= 'Z' || ('\U{C0}' <= c <= '\U{DE}' && c != '\U{D7}') then (c as int + 32) as char else c
  }

  predicate IsLowerCase(s: string) {
    forall i :: 0 <= i < |s| ==> ToLowerChar(s[i]) == s[i]
  }

  /** String.prototype.toLowerCase: maps every character, keeps the length and the whitespace. */
  function ToLower(s: string): (r: string)
    ensures |r| == |s| && IsLowerCase(r)
    ensures forall i :: 0 <= i < |s| ==> (IsWhitespace(r[i]) <==> IsWhitespace(s[i]))
    ensures IsTrimmed(r) <==> IsTrimmed(s)
  {
    seq(|s|, i requires 0 <= i < |s| => ToLowerChar(s[i]))
  }

  lemma ToLowerAppend(a: string, b: string)
    ensures ToLower(a + b) == ToLower(a) + ToLower(b)
  {
  }

  /** A lower-case string is its own lower-case form (so toLowerCase is idempotent). */
  lemma ToLowerLower(s: string)
    requires IsLowerCase(s)
    ensures ToLower(s) == s
  {
  }

  /** `s.startsWith(prefix)`: the first |prefix| characters of `s` are `prefix`. */
  predicate StartsWith(s: string, prefix: string) {
    |prefix| <= |s| && s[..|prefix|] == prefix
  }

  /** `s.startsWith(prefix)` holds exactly when `s` is `prefix` followed by something. */
  lemma StartsWithConcat(s: string, prefix: string)
    ensures StartsWith(s, prefix) <==> exists t :: s == prefix + t
  {
    if StartsWith(s, prefix) {
      assert s == prefix + s[|prefix|..];
    }
    forall t | s == prefix + t
      ensures StartsWith(s, prefix)
    {
      assert s[..|prefix|] == prefix;
    }
  }

  predicate OccursAt(s: string, pat: string, k: nat) {
    k + |pat| <= |s| && s[k..k + |pat|] == pat
  }

  /** The first position at or after `from` where `pat` occurs in `s`. */
  function IndexOfFrom(s: string, pat: string, from: nat): (r: Option<nat>)
    requires from <= |s|
    ensures r.Some? ==> from <= r.value && OccursAt(s, pat, r.value)
    ensures r.Some? ==> forall k :: from <= k < r.value ==> !OccursAt(s, pat, k)
    ensures r.None? ==> forall k :: from <= k <= |s| ==> !OccursAt(s, pat, k)
    decreases |s| - from
  {
    if OccursAt(s, pat, from) then Some(from)
    else if from == |s| then None
    else IndexOfFrom(s, pat, from + 1)
  }

  /** String.prototype.indexOf: the first position where `pat` occurs in `s`, if any. */
  function IndexOf(s: string, pat: string): Option<nat> {
    IndexOfFrom(s, pat, 0)
  }

  /** `s.replace(pat, "")` with a string pattern: only the first occurrence is removed. */
  function RemoveFirst(s: string, pat: string): (r: string)
    ensures IndexOf(s, pat).None? ==> r == s
    ensures IndexOf(s, pat).Some? ==> |r| == |s| - |pat|
  {
    match IndexOf(s, pat)
    case None => s
    case Some(k) => s[..k] + s[k + |pat|..]
  }

  /** Removing the first occurrence loses nothing: putting `pat` back at its index gives `s` again. */
  lemma RemoveFirstInverse(s: string, pat: string)
    requires IndexOf(s, pat).Some?
    ensures var k, r := IndexOf(s, pat).value, RemoveFirst(s, pat);
      k <= |r| && r[..k] + pat + r[k..] == s
  {
    var k := IndexOf(s, pat).value;
    var r := RemoveFirst(s, pat);
    assert r == s[..k] + s[k + |pat|..];
    assert r[..k] == s[..k] && r[k..] == s[k + |pat|..];
    assert s == s[..k] + s[k..k + |pat|] + s[k + |pat|..];
  }

  /** When `s` starts with `pat`, removing its first occurrence strips exactly that prefix. */
  lemma RemovePrefix(s: string, pat: string)
    requires StartsWith(s, pat)
    ensures RemoveFirst(s, pat) == s[|pat|..]
  {
    assert OccursAt(s, pat, 0);
  }
}
