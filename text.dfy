/** The string operations the review page applies: `toLowerCase`, `includes`
    and `trim`. Lowering is modelled on ASCII letters only. */
module Text {
  import opened Collections

  /** JavaScript truthiness of an optional string: present and non-empty. */
  predicate HasText(o: Option<string>) {
    o.Some? && o.value != ""
  }

  /** ASCII case folding of one character. */
  function LowerChar(c: char): (r: char)
    ensures 'A' <= c <= 'Z' ==> 'a' <= r <= 'z' && r as int == c as int + 32
    ensures !('A' <= c <= 'Z') ==> r == c
  {
    if 'A' <= c <= 'Z' then (c as int + 32) as char else c
  }

  /** `String.prototype.toLowerCase` restricted to ASCII letters. */
  function Lower(s: string): (r: string)
    ensures |r| == |s|
    ensures forall i :: 0 <= i < |s| ==> r[i] == LowerChar(s[i])
  {
    seq(|s|, i requires 0 <= i < |s| => LowerChar(s[i]))
  }

  lemma LowerIdempotent(s: string)
    ensures Lower(Lower(s)) == Lower(s)
  {
  }

  predicate IsPrefix(q: string, t: string) {
    |q| <= |t| && t[..|q|] == q
  }

  /** `t.includes(q)`: `q` occurs in `t` at some position. */
  predicate Contains(t: string, q: string)
    decreases |t|
  {
    IsPrefix(q, t) || (t != [] && Contains(t[1..], q))
  }

  /** `q` occurs in `t` starting at index `i`. */
  predicate OccursAt(t: string, q: string, i: int) {
    0 <= i <= |t| - |q| && t[i..i + |q|] == q
  }

  /** `Contains` is the substring test: some window of `t` equals `q`. */
  lemma {:induction false} ContainsIsSubstring(t: string, q: string)
    ensures Contains(t, q) <==> exists i :: OccursAt(t, q, i)
  {
    if IsPrefix(q, t) {
      assert OccursAt(t, q, 0);
    } else if t != [] {
      ContainsIsSubstring(t[1..], q);
      if Contains(t[1..], q) {
        var i :| OccursAt(t[1..], q, i);
        OccursShift(t, q, i);
      }
      if exists i :: OccursAt(t, q, i) {
        var i :| OccursAt(t, q, i);
        if i != 0 {
          OccursUnshift(t, q, i);
        }
      }
    }
  }

  lemma OccursShift(t: string, q: string, i: int)
    requires t != [] && OccursAt(t[1..], q, i)
    ensures OccursAt(t, q, i + 1)
  {
    assert t[1..][i..i + |q|] == t[i + 1..i + 1 + |q|];
  }

  lemma OccursUnshift(t: string, q: string, i: int)
    requires t != [] && 0 < i && OccursAt(t, q, i)
    ensures OccursAt(t[1..], q, i - 1)
  {
    var u := t[1..];
    assert u[i - 1..i - 1 + |q|] == t[i..i + |q|] by {
      forall k | i <= k < i + |q| ensures u[k - 1] == t[k] { }
    }
  }

  /** ECMAScript WhiteSpace and LineTerminator code points, which `trim` removes. */
  predicate IsWhitespace(c: char) {
    || c == '\t' || c == '\n' || c == '\U{000B}' || c == '\U{000C}' || c == '\r'
    || c == ' ' || c == '\U{00A0}' || c == '\U{1680}'
    || ('\U{2000}' <= c <= '\U{200A}')
    || c == '\U{2028}' || c == '\U{2029}' || c == '\U{202F}' || c == '\U{205F}'
    || c == '\U{3000}' || c == '\U{FEFF}'
  }

  /** Drops leading whitespace: the result is a suffix of `s`. */
  function TrimStart(s: string): (r: string)
    ensures |r| <= |s| && r == s[|s| - |r|..]
    ensures forall k :: 0 <= k < |s| - |r| ==> IsWhitespace(s[k])
    ensures r != [] ==> !IsWhitespace(r[0])
  {
    if s != [] && IsWhitespace(s[0]) then TrimStart(s[1..]) else s
  }

  /** Drops trailing whitespace: the result is a prefix of `s`. */
  function TrimEnd(s: string): (r: string)
    ensures |r| <= |s| && r == s[..|r|]
    ensures forall k :: |r| <= k < |s| ==> IsWhitespace(s[k])
    ensures r != [] ==> !IsWhitespace(r[|r| - 1])
  {
    if s != [] && IsWhitespace(s[|s| - 1]) then TrimEnd(s[..|s| - 1]) else s
  }

  /** `r` is `s[i..j]` and everything of `s` outside that window is whitespace. */
  ghost predicate IsTrimWindow(s: string, r: string, i: int, j: int) {
    && 0 <= i <= j <= |s| && r == s[i..j]
    && (forall k :: 0 <= k < i ==> IsWhitespace(s[k]))
    && (forall k :: j <= k < |s| ==> IsWhitespace(s[k]))
  }

  /** `String.prototype.trim`: the result has no whitespace at either end,
      and it is empty exactly when `s` is made of whitespace alone. */
  function Trim(s: string): (r: string)
    ensures r != [] ==> !IsWhitespace(r[0]) && !IsWhitespace(r[|r| - 1])
    ensures r == [] <==> forall k :: 0 <= k < |s| ==> IsWhitespace(s[k])
  {
    var t := TrimStart(s);
    var r := TrimEnd(t);
    TrimWindow(s, t, r);
    r
  }

  /** The trim of `s` is a window of `s` with only whitespace cut on either side. */
  lemma TrimIsWindow(s: string)
    ensures exists i, j :: IsTrimWindow(s, Trim(s), i, j)
  {
    var t := TrimStart(s);
    var r := TrimEnd(t);
    assert Trim(s) == r;
    TrimWindow(s, t, r);
  }

  /** Cutting a whitespace prefix and then a whitespace suffix leaves a
      window of the original string. */
  lemma TrimWindow(s: string, t: string, r: string)
    requires |t| <= |s| && t == s[|s| - |t|..]
    requires forall k :: 0 <= k < |s| - |t| ==> IsWhitespace(s[k])
    requires |r| <= |t| && r == t[..|r|]
    requires forall k :: |r| <= k < |t| ==> IsWhitespace(t[k])
    ensures IsTrimWindow(s, r, |s| - |t|, |s| - |t| + |r|)
  {
    var i := |s| - |t|;
    assert r == s[i..i + |r|];
    forall k | i + |r| <= k < |s| ensures IsWhitespace(s[k]) {
      assert s[k] == t[k - i];
    }
  }

  /** A string without whitespace at either end is its own trim. */
  lemma TrimOfTrimmed(s: string)
    requires s != [] && !IsWhitespace(s[0]) && !IsWhitespace(s[|s| - 1])
    ensures Trim(s) == s
  {
    assert TrimStart(s) == s;
    assert TrimEnd(s) == s;
  }

  /** `trim` is idempotent. */
  lemma TrimIdempotent(s: string)
    ensures Trim(Trim(s)) == Trim(s)
  {
    if Trim(s) != [] {
      TrimOfTrimmed(Trim(s));
    }
  }
}
