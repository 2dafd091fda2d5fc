/** String helpers with JavaScript's meaning: `trim`, `\s`, `split` on one
    character, `join`, `includes`, and the ASCII case mapping that a regular
    expression with the `i` flag (and without `u`) applies. */
module Text {

  /** JavaScript's WhiteSpace and LineTerminator code points: what `trim`
      removes and what `\s` matches. */
  predicate IsSpace(c: char) {
    c == ' ' || c == '\t' || c == '\n' || c == '\r' || c == '\U{000B}' || c == '\U{000C}'
    || c == '\U{00A0}' || c == '\U{1680}' || ('\U{2000}' <= c <= '\U{200A}')
    || c == '\U{2028}' || c == '\U{2029}' || c == '\U{202F}' || c == '\U{205F}'
    || c == '\U{3000}' || c == '\U{FEFF}'
  }

  /** The characters a regular-expression `.` does not match. */
  predicate IsLineTerminator(c: char) {
    c == '\n' || c == '\r' || c == '\U{2028}' || c == '\U{2029}'
  }

  predicate IsDigit(c: char) { '0' <= c <= '9' }
  predicate IsUpper(c: char) { 'A' <= c <= 'Z' }
  predicate IsLower(c: char) { 'a' <= c <= 'z' }
  predicate IsLetter(c: char) { IsUpper(c) || IsLower(c) }
  predicate IsAlnum(c: char) { IsLetter(c) || IsDigit(c) }

  /** What `\b` counts as a word character. */
  predicate IsWordChar(c: char) { IsAlnum(c) || c == '_' }

  function LowerChar(c: char): (r: char)
    ensures IsUpper(c) ==> IsLower(r)
    ensures !IsUpper(c) ==> r == c
  {
    if IsUpper(c) then (c as int + 32) as char else c
  }

  function UpperChar(c: char): (r: char)
    ensures IsLower(c) ==> IsUpper(r)
    ensures !IsLower(c) ==> r == c
  {
    if IsLower(c) then (c as int - 32) as char else c
  }

  function ToLower(s: string): (r: string)
    ensures |r| == |s|
    ensures forall i :: 0 <= i < |s| ==> r[i] == LowerChar(s[i])
    decreases |s|
  {
    if |s| == 0 then "" else [LowerChar(s[0])] + ToLower(s[1..])
  }

  function ToUpper(s: string): (r: string)
    ensures |r| == |s|
    ensures forall i :: 0 <= i < |s| ==> r[i] == UpperChar(s[i])
    decreases |s|
  {
    if |s| == 0 then "" else [UpperChar(s[0])] + ToUpper(s[1..])
  }

  /** `s` holds an ASCII lower-case letter. */
  predicate HasLower(s: string) {
    exists k :: 0 <= k < |s| && IsLower(s[k])
  }

  /** `s === s.toUpperCase()` exactly when `s` has no lower-case letter. */
  lemma UpperUnchanged(s: string)
    ensures s == ToUpper(s) <==> !HasLower(s)
  {
    if HasLower(s) {
      var k :| 0 <= k < |s| && IsLower(s[k]);
      assert ToUpper(s)[k] != s[k];
    } else {
      assert forall k :: 0 <= k < |s| ==> ToUpper(s)[k] == s[k];
    }
  }

  /** `n` digits start at `p`: what `\d{n}` matches there. */
  predicate DigitsAt(s: string, p: nat, n: nat) {
    p + n <= |s| && forall k :: p <= k < p + n ==> IsDigit(s[k])
  }

  /** `\b` at position `i`: a word character on exactly one side. */
  predicate IsBoundary(s: string, i: nat)
    requires i <= |s|
  {
    (i > 0 && IsWordChar(s[i - 1])) != (i < |s| && IsWordChar(s[i]))
  }

  /** Case-insensitive equality of two characters under ASCII folding. */
  predicate SameLetter(a: char, b: char) { LowerChar(a) == LowerChar(b) }

  /** `w` occurs at position `p` of `s`, ignoring ASCII case. */
  predicate MatchesAtI(s: string, p: nat, w: string) {
    p + |w| <= |s| && forall k :: 0 <= k < |w| ==> SameLetter(s[p + k], w[k])
  }

  /** `trimStart`: the longest suffix that does not start with whitespace. */
  function TrimStart(s: string): (r: string)
    ensures |r| <= |s| && r == s[|s| - |r|..]
    ensures r == [] || !IsSpace(r[0])
    decreases |s|
  {
    if |s| > 0 && IsSpace(s[0]) then TrimStart(s[1..]) else s
  }

  /** Whitespace before a non-space character is all `trimStart` cuts, so
      what follows that character is kept as it is. */
  lemma {:induction false} TrimStartAppend(a: string, b: string, k: nat)
    requires k < |a| && !IsSpace(a[k])
    ensures TrimStart(a + b) == TrimStart(a) + b
    decreases |a|
  {
    if IsSpace(a[0]) {
      assert (a + b)[1..] == a[1..] + b;
      TrimStartAppend(a[1..], b, k - 1);
    }
  }

  /** Leading whitespace only is cut whole. */
  lemma {:induction false} TrimStartSpaces(a: string, b: string)
    requires forall k :: 0 <= k < |a| ==> IsSpace(a[k])
    ensures TrimStart(a + b) == TrimStart(b)
    decreases |a|
  {
    if |a| > 0 {
      assert (a + b)[1..] == a[1..] + b;
      TrimStartSpaces(a[1..], b);
    } else {
      assert a + b == b;
    }
  }

  /** `trimEnd`: the longest prefix that does not end with whitespace. */
  function TrimEnd(s: string): (r: string)
    ensures |r| <= |s| && r == s[..|r|]
    ensures r == [] || !IsSpace(r[|r| - 1])
    decreases |s|
  {
    if |s| > 0 && IsSpace(s[|s| - 1]) then TrimEnd(s[..|s| - 1]) else s
  }

  /** Only whitespace is cut from the front. */
  lemma {:induction false} TrimStartCut(s: string, k: nat)
    requires k < |s| - |TrimStart(s)|
    ensures IsSpace(s[k])
    decreases |s|
  {
    if k > 0 {
      TrimStartCut(s[1..], k - 1);
    }
  }

  /** Only whitespace is cut from the back. */
  lemma {:induction false} TrimEndCut(s: string, k: nat)
    requires |TrimEnd(s)| <= k < |s|
    ensures IsSpace(s[k])
    decreases |s|
  {
    if k < |s| - 1 {
      TrimEndCut(s[..|s| - 1], k);
    }
  }

  /** `String.prototype.trim`: no whitespace is left at either end, and a
      trimmed string is left as it is. */
  function Trim(s: string): (r: string)
    ensures |r| <= |s| && IsTrimmed(r)
    ensures IsTrimmed(s) ==> r == s
  {
    TrimEnd(TrimStart(s))
  }

  /** Trimming keeps only characters of the string. */
  lemma TrimChars(s: string, c: char)
    requires c in Trim(s)
    ensures c in s
  {
    var t := TrimStart(s);
    assert c in t;
  }

  /** Trimming leaves nothing exactly when the string is all whitespace. */
  lemma TrimEmpty(s: string)
    ensures Trim(s) == "" <==> forall k :: 0 <= k < |s| ==> IsSpace(s[k])
  {
    var t := TrimStart(s);
    var d := |s| - |t|;
    if Trim(s) == "" {
      forall k | 0 <= k < |s| ensures IsSpace(s[k]) {
        if k < d {
          TrimStartCut(s, k);
        } else {
          assert s[k] == t[k - d];
          TrimEndCut(t, k - d);
        }
      }
    }
  }

  /** The end of the longest run of `cls` characters starting at `p`. */
  function RunEnd(s: string, p: nat, cls: char -> bool): (e: nat)
    requires p <= |s|
    ensures p <= e <= |s|
    ensures forall k :: p <= k < e ==> cls(s[k])
    ensures e < |s| ==> !cls(s[e])
    decreases |s| - p
  {
    if p < |s| && cls(s[p]) then RunEnd(s, p + 1, cls) else p
  }

  /** `s.split(/[...]+/)` for a character class `cls`: the pieces between
      maximal runs of class characters; none of them holds one. */
  function SplitRuns(s: string, cls: char -> bool): (r: seq<string>)
    ensures |r| >= 1
    ensures forall k, i :: 0 <= k < |r| && 0 <= i < |r[k]| ==> !cls(r[k][i])
    decreases |s|
  {
    if |s| == 0 then [""]
    else if cls(s[0]) then [""] + SplitRuns(s[RunEnd(s, 0, cls)..], cls)
    else
      var rest := SplitRuns(s[1..], cls);
      [[s[0]] + rest[0]] + rest[1..]
  }

  /** A string with no whitespace at either end. */
  predicate IsTrimmed(s: string) {
    s == [] || (!IsSpace(s[0]) && !IsSpace(s[|s| - 1]))
  }

  /** `w` occurs in `s` at position `p`. */
  predicate OccursAt(s: string, w: string, p: nat) {
    p + |w| <= |s| && s[p..p + |w|] == w
  }

  /** `s.includes(sub)`. */
  predicate Contains(s: string, sub: string)
    decreases |s|
  {
    sub <= s || (s != [] && Contains(s[1..], sub))
  }

  /** `Contains` holds exactly when `sub` occurs at some position of `s`. */
  lemma {:induction false} ContainsAt(s: string, sub: string)
    ensures Contains(s, sub) <==> exists p: nat :: OccursAt(s, sub, p)
    decreases |s|
  {
    if sub <= s {
      assert OccursAt(s, sub, 0);
    } else if s == [] {
    } else {
      ContainsAt(s[1..], sub);
      if exists p: nat :: OccursAt(s, sub, p) {
        var p: nat :| OccursAt(s, sub, p);
        assert p != 0;
        assert OccursAt(s[1..], sub, p - 1);
      }
      if exists p: nat :: OccursAt(s[1..], sub, p) {
        var p: nat :| OccursAt(s[1..], sub, p);
        assert p + |sub| <= |s| - 1 && s[1..][p..p + |sub|] == sub;
        assert s[1..][p..p + |sub|] == s[p + 1..p + 1 + |sub|];
        assert OccursAt(s, sub, p + 1);
      }
    }
  }

  /** Some word of `words` occurs in `s`. */
  predicate ContainsAny(s: string, words: seq<string>) {
    exists w :: w in words && Contains(s, w)
  }

  /** `s.split(c)` for a one-character separator: the pieces between the
      occurrences of `c`, of which there is always at least one. */
  function Split(s: string, c: char): (r: seq<string>)
    ensures |r| >= 1
    ensures forall k :: 0 <= k < |r| ==> c !in r[k]
    decreases |s|
  {
    if |s| == 0 then [""]
    else if s[0] == c then [""] + Split(s[1..], c)
    else
      var rest := Split(s[1..], c);
      [[s[0]] + rest[0]] + rest[1..]
  }

  /** Every piece of a split holds only characters of the split string. */
  lemma {:induction false} SplitChars(s: string, c: char, k: nat, ch: char)
    requires k < |Split(s, c)| && ch in Split(s, c)[k]
    ensures ch in s
    decreases |s|
  {
    if |s| > 0 {
      var rest := Split(s[1..], c);
      if s[0] == c {
        assert Split(s, c)[k] == rest[k - 1];
        SplitChars(s[1..], c, k - 1, ch);
      } else if k == 0 {
        if ch != s[0] {
          assert ch in rest[0];
          SplitChars(s[1..], c, 0, ch);
        }
      } else {
        assert Split(s, c)[k] == rest[k];
        SplitChars(s[1..], c, k, ch);
      }
    }
  }

  /** `pieces.join(sep)`. */
  function Join(pieces: seq<string>, sep: string): string
    decreases |pieces|
  {
    if |pieces| == 0 then ""
    else if |pieces| == 1 then pieces[0]
    else pieces[0] + sep + Join(pieces[1..], sep)
  }

  /** Splitting at one separator and then at the rest is splitting the whole. */
  lemma {:induction false} SplitAround(a: string, c: char, b: string)
    ensures Split(a + [c] + b, c) == Split(a, c) + Split(b, c)
    decreases |a|
  {
    if |a| == 0 {
      assert a + [c] + b == [c] + b;
      assert ([c] + b)[1..] == b;
    } else {
      assert (a + [c] + b)[1..] == a[1..] + [c] + b;
      SplitAround(a[1..], c, b);
    }
  }

  lemma SplitNoSeparator(s: string, c: char)
    requires c !in s
    ensures Split(s, c) == [s]
    decreases |s|
  {
    if |s| > 0 {
      assert s[0] != c;
      SplitNoSeparator(s[1..], c);
      assert [s[0]] + s[1..] == s;
    }
  }

  /** `split` undoes `join` on pieces that do not contain the separator. */
  lemma {:induction false} SplitJoin(pieces: seq<string>, c: char)
    requires |pieces| >= 1
    requires forall k :: 0 <= k < |pieces| ==> c !in pieces[k]
    ensures Split(Join(pieces, [c]), c) == pieces
    decreases |pieces|
  {
    if |pieces| == 1 {
      SplitNoSeparator(pieces[0], c);
    } else {
      SplitJoin(pieces[1..], c);
      SplitAround(pieces[0], c, Join(pieces[1..], [c]));
      SplitNoSeparator(pieces[0], c);
      assert [pieces[0]] + pieces[1..] == pieces;
    }
  }

  /** `.map((l) => l.trim()).filter(Boolean)`: the trimmed pieces that are
      not empty, in their order. */
  function TrimNonEmpty(pieces: seq<string>): (r: seq<string>)
    ensures |r| <= |pieces|
    ensures forall k :: 0 <= k < |r| ==> r[k] != "" && IsTrimmed(r[k])
    decreases |pieces|
  {
    if |pieces| == 0 then []
    else
      var t := Trim(pieces[0]);
      (if t == "" then [] else [t]) + TrimNonEmpty(pieces[1..])
  }

  lemma {:induction false} TrimNonEmptyAppend(a: seq<string>, b: seq<string>)
    ensures TrimNonEmpty(a + b) == TrimNonEmpty(a) + TrimNonEmpty(b)
    decreases |a|
  {
    if |a| > 0 {
      var t := Trim(a[0]);
      var head: seq<string> := if t == "" then [] else [t];
      assert (a + b)[0] == a[0] && (a + b)[1..] == a[1..] + b;
      assert TrimNonEmpty(a + b) == head + TrimNonEmpty(a[1..] + b);
      assert TrimNonEmpty(a) == head + TrimNonEmpty(a[1..]);
      TrimNonEmptyAppend(a[1..], b);
      assert head + (TrimNonEmpty(a[1..]) + TrimNonEmpty(b)) == (head + TrimNonEmpty(a[1..])) + TrimNonEmpty(b);
    } else {
      assert a + b == b;
    }
  }

  /** Lines that are already trimmed and non-empty pass through unchanged. */
  lemma {:induction false} TrimNonEmptyKeeps(pieces: seq<string>)
    requires forall k :: 0 <= k < |pieces| ==> pieces[k] != "" && IsTrimmed(pieces[k])
    ensures TrimNonEmpty(pieces) == pieces
    decreases |pieces|
  {
    if |pieces| > 0 {
      TrimNonEmptyKeeps(pieces[1..]);
    }
  }

  /** Every line `TrimNonEmpty` keeps is the trim of a piece, and the
      pieces' characters are all it can hold. */
  lemma {:induction false} TrimNonEmptyChars(pieces: seq<string>, k: nat, c: char)
    requires k < |TrimNonEmpty(pieces)| && c in TrimNonEmpty(pieces)[k]
    ensures exists j :: 0 <= j < |pieces| && c in pieces[j]
    decreases |pieces|
  {
    var t := Trim(pieces[0]);
    var head: seq<string> := if t == "" then [] else [t];
    assert TrimNonEmpty(pieces) == head + TrimNonEmpty(pieces[1..]);
    if t != "" && k == 0 {
      TrimChars(pieces[0], c);
    } else {
      var k' := k - |head|;
      assert TrimNonEmpty(pieces)[k] == TrimNonEmpty(pieces[1..])[k'];
      TrimNonEmptyChars(pieces[1..], k', c);
      var j :| 0 <= j < |pieces[1..]| && c in pieces[1..][j];
      assert pieces[1..][j] == pieces[j + 1];
    }
  }

  function DigitChar(d: nat): (c: char)
    requires d < 10
    ensures IsDigit(c)
  {
    ('0' as int + d) as char
  }

  /** Decimal rendering of a natural number, as a template literal prints it. */
  function NatToString(n: nat): (r: string)
    ensures |r| >= 1 && IsDigit(r[0])
    ensures forall k :: 0 <= k < |r| ==> IsDigit(r[k])
    ensures n >= 10 ==> r[0] != '0'
    decreases n
  {
    if n < 10 then [DigitChar(n)] else NatToString(n / 10) + [DigitChar(n % 10)]
  }

  /** The first `n` elements, or all of them (`slice(0, n)`). */
  function Take<T>(s: seq<T>, n: nat): (r: seq<T>)
    ensures |r| == if |s| < n then |s| else n
    ensures r <= s
  {
    if |s| <= n then s else s[..n]
  }
}
