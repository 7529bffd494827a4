/**
 * The string operations the source uses: JavaScript's `\s` class and `trim()`, the `lowercase`
 * setter of the Mongoose schemas, `replace(/\s/g, '')`, `replace(pattern, '')` and Joi's
 * alphanumeric class.
 */
module Text {
  import opened Wrappers

  /** The characters JavaScript's `\s` matches; `String.prototype.trim` removes exactly these. */
  predicate IsSpace(c: char) {
    c == ' ' || c == '\t' || c == '\n' || c == '\r' || c == '\U{000B}' || c == '\U{000C}'
    || c == '\U{00A0}' || c == '\U{1680}' || ('\U{2000}' <= c <= '\U{200A}')
    || c == '\U{2028}' || c == '\U{2029}' || c == '\U{202F}' || c == '\U{205F}'
    || c == '\U{3000}' || c == '\U{FEFF}'
  }

  /** Joi's `alphanum()` class: `[a-zA-Z0-9]`. */
  predicate IsAlnum(c: char) {
    ('a' <= c <= 'z') || ('A' <= c <= 'Z') || ('0' <= c <= '9')
  }

  predicate IsAlnumString(s: string) {
    forall i :: 0 <= i < |s| ==> IsAlnum(s[i])
  }

  predicate HasNoSpace(s: string) {
    forall i :: 0 <= i < |s| ==> !IsSpace(s[i])
  }

  /** Neither end of `s` is white space. */
  predicate IsTrimmed(s: string) {
    s == [] || (!IsSpace(s[0]) && !IsSpace(s[|s| - 1]))
  }

  predicate IsUpper(c: char) {
    'A' <= c <= 'Z'
  }

  predicate IsLower(s: string) {
    forall i :: 0 <= i < |s| ==> !IsUpper(s[i])
  }

  function LowerChar(c: char): char {
    if IsUpper(c) then (c as int + 32) as char else c
  }

  /** `toLowerCase()`, on the ASCII letters. */
  function Lower(s: string): (r: string)
    ensures |r| == |s|
    ensures forall i :: 0 <= i < |s| ==> r[i] == LowerChar(s[i])
    ensures IsLower(r)
    ensures IsLower(s) ==> r == s
  {
    seq(|s|, i requires 0 <= i < |s| => LowerChar(s[i]))
  }

  /** Lowering a character neither creates nor removes white space. */
  lemma LowerKeepsSpaces(s: string)
    ensures forall i :: 0 <= i < |s| ==> (IsSpace(Lower(s)[i]) <==> IsSpace(s[i]))
  {
  }

  /** How many white-space characters `s` starts with. */
  function LeadingSpaces(s: string): (n: nat)
    ensures n <= |s|
    ensures forall k :: 0 <= k < n ==> IsSpace(s[k])
    ensures n == |s| || !IsSpace(s[n])
  {
    if |s| > 0 && IsSpace(s[0]) then
      var n := 1 + LeadingSpaces(s[1..]);
      assert forall k :: 1 <= k < n ==> s[k] == s[1..][k - 1];
      n
    else 0
  }

  /** How many white-space characters `s` ends with. */
  function TrailingSpaces(s: string): (n: nat)
    ensures n <= |s|
    ensures forall k :: |s| - n <= k < |s| ==> IsSpace(s[k])
    ensures n == |s| || !IsSpace(s[|s| - n - 1])
  {
    if |s| > 0 && IsSpace(s[|s| - 1]) then
      var n := 1 + TrailingSpaces(s[..|s| - 1]);
      assert forall k :: |s| - n <= k < |s| - 1 ==> s[k] == s[..|s| - 1][k];
      n
    else 0
  }

  /** `s[i..j]` is an infix of `s` with only white space before and after it. */
  predicate Padding(s: string, i: int, j: int) {
    && 0 <= i <= j <= |s|
    && (forall k :: 0 <= k < i ==> IsSpace(s[k]))
    && (forall k :: j <= k < |s| ==> IsSpace(s[k]))
  }

  /**
   * `trim()`: what is left of `s` once the white space at both of its ends is cut off. The result
   * is an infix of `s` that nothing but white space surrounds, and TrimOfPadded shows it is the
   * only such infix with no white space at its ends.
   */
  function Trim(s: string): (r: string)
    ensures IsTrimmed(r)
    ensures |r| <= |s|
    ensures IsTrimmed(s) ==> r == s
    ensures exists i, j :: Padding(s, i, j) && r == s[i..j]
  {
    var i := LeadingSpaces(s);
    var j := if i == |s| then |s| else |s| - TrailingSpaces(s);
    assert i <= j;
    assert Padding(s, i, j);
    assert IsTrimmed(s) ==> i == 0 && j == |s|;
    s[i..j]
  }

  /** White space around a value with no white space at its ends is exactly what `trim()` removes. */
  lemma TrimOfPadded(p: string, m: string, q: string)
    requires forall k :: 0 <= k < |p| ==> IsSpace(p[k])
    requires forall k :: 0 <= k < |q| ==> IsSpace(q[k])
    requires IsTrimmed(m)
    ensures Trim(p + m + q) == m
  {
    var s := p + m + q;
    var r := Trim(s);
    var i, j :| Padding(s, i, j) && r == s[i..j];
    if m != [] {
      assert s[|p|] == m[0] && s[|p| + |m| - 1] == m[|m| - 1];
      assert i <= |p| && |p| + |m| <= j;
      assert r[0] == s[i] && r[|r| - 1] == s[j - 1];
      assert s[|p|..|p| + |m|] == m;
    }
  }

  /** Trimmed and free of upper-case letters: the form the `trim: true, lowercase: true` setters give. */
  predicate IsNormal(s: string) {
    IsTrimmed(s) && IsLower(s)
  }

  /**
   * What those setters store for `s`: the lower-cased infix that `trim()` leaves, which is a normal
   * value, and `s` itself when it already is one.
   */
  function Normalize(s: string): (r: string)
    ensures IsNormal(r)
    ensures IsNormal(s) ==> r == s
    ensures exists i, j :: Padding(s, i, j) && r == Lower(s[i..j])
  {
    var t := Trim(s);
    LowerKeepsSpaces(t);
    Lower(t)
  }

  /** The setters on a padded value store its lower-cased core. */
  lemma NormalizeOfPadded(p: string, m: string, q: string)
    requires forall k :: 0 <= k < |p| ==> IsSpace(p[k])
    requires forall k :: 0 <= k < |q| ==> IsSpace(q[k])
    requires IsTrimmed(m)
    ensures Normalize(p + m + q) == Lower(m)
  {
    TrimOfPadded(p, m, q);
  }

  /** `replace(/\s/g, '')`: every white-space character removed, the others kept in order. */
  function StripSpace(s: string): (r: string)
    ensures HasNoSpace(r)
    ensures |r| <= |s|
    ensures HasNoSpace(s) ==> r == s
  {
    if s == [] then []
    else (if IsSpace(s[0]) then [] else [s[0]]) + StripSpace(s[1..])
  }

  /** A lone character is dropped when it is white space and kept otherwise. */
  lemma StripSpaceChar(c: char)
    ensures StripSpace([c]) == (if IsSpace(c) then [] else [c])
  {
    assert [c][1..] == [];
  }

  /** Stripping works character by character: the pieces of a string are stripped separately. */
  lemma {:induction false} StripSpaceAppend(a: string, b: string)
    ensures StripSpace(a + b) == StripSpace(a) + StripSpace(b)
  {
    if a != [] {
      assert (a + b)[1..] == a[1..] + b;
      StripSpaceAppend(a[1..], b);
    } else {
      assert a + b == b;
    }
  }

  predicate OccursAt(s: string, pat: string, i: nat) {
    i + |pat| <= |s| && s[i..i + |pat|] == pat
  }

  /** The first position at or after `from` where `pat` occurs in `s`. */
  function IndexFrom(s: string, pat: string, from: nat): (r: Option<nat>)
    decreases |s| - from
    ensures r.Some? ==> from <= r.value && OccursAt(s, pat, r.value)
                        && forall j :: from <= j < r.value ==> !OccursAt(s, pat, j)
    ensures r.None? ==> forall j :: from <= j ==> !OccursAt(s, pat, j)
  {
    if from + |pat| > |s| then None
    else if OccursAt(s, pat, from) then Some(from)
    else IndexFrom(s, pat, from + 1)
  }

  /** `s.replace(pat, rep)` with a string pattern: only the first occurrence is replaced. */
  function ReplaceFirst(s: string, pat: string, rep: string): (r: string)
    ensures (forall i: nat :: !OccursAt(s, pat, i)) ==> r == s
    ensures forall i: nat :: OccursAt(s, pat, i) && (forall j: nat :: j < i ==> !OccursAt(s, pat, j)) ==>
              r == s[..i] + rep + s[i + |pat|..]
    ensures OccursAt(s, pat, 0) ==> r == rep + s[|pat|..]
  {
    match IndexFrom(s, pat, 0)
    case None => s
    case Some(i) => s[..i] + rep + s[i + |pat|..]
  }

  /** The number of bytes in the UTF-8 encoding of a character. */
  function Utf8Width(c: char): nat {
    if c as int < 0x80 then 1 else if c as int < 0x800 then 2 else if c as int < 0x10000 then 3 else 4
  }

  /** The number of bytes in the UTF-8 encoding of `s`: one to four per character. */
  function Utf8Length(s: string): (n: nat)
    ensures |s| <= n <= 4 * |s|
  {
    if s == [] then 0 else Utf8Width(s[0]) + Utf8Length(s[1..])
  }

  lemma {:induction false} Utf8LengthAppend(a: string, b: string)
    ensures Utf8Length(a + b) == Utf8Length(a) + Utf8Length(b)
  {
    if a != [] {
      assert (a + b)[1..] == a[1..] + b;
      Utf8LengthAppend(a[1..], b);
    } else {
      assert a + b == b;
    }
  }

  /** An ASCII letter or digit is one byte. */
  lemma {:induction false} AlnumUtf8Length(s: string)
    requires IsAlnumString(s)
    ensures Utf8Length(s) == |s|
  {
    if s != [] {
      assert IsAlnum(s[0]);
      assert IsAlnumString(s[1..]) by {
        forall k | 0 <= k < |s| - 1 ensures IsAlnum(s[1..][k]) {
          assert s[1..][k] == s[k + 1];
        }
      }
      AlnumUtf8Length(s[1..]);
    }
  }

  /** Trimming never lengthens the encoding. */
  lemma TrimUtf8Length(s: string)
    ensures Utf8Length(Trim(s)) <= Utf8Length(s)
  {
    var r := Trim(s);
    assert exists i, j :: Padding(s, i, j) && r == s[i..j];
    var i, j :| Padding(s, i, j) && r == s[i..j];
    assert s == s[..i] + s[i..j] + s[j..];
    Utf8LengthAppend(s[..i] + s[i..j], s[j..]);
    Utf8LengthAppend(s[..i], s[i..j]);
  }
}
