/**
 * The string primitives the widget relies on: JavaScript's `toLowerCase`,
 * `trim`, `includes`, `indexOf` and `substring`, on strings as `seq<char>`.
 */
module Text {

  // ---------------------------------------------------------------------------
  // Case folding
  // ---------------------------------------------------------------------------

  predicate IsUpper(c: char) {
    'A' <= c <= 'Z'
  }

  /** `toLowerCase` on one character, restricted to a fold that keeps the length: A-Z become a-z. */
  function LowerChar(c: char): (r: char)
    ensures !IsUpper(r)
    ensures !IsUpper(c) ==> r == c
    ensures IsUpper(c) ==> 'a' <= r <= 'z' && r as int - 'a' as int == c as int - 'A' as int
  {
    if IsUpper(c) then (c as int - 'A' as int + 'a' as int) as char else c
  }

  /** `toLowerCase` on a string: the character-wise fold, so the length never changes. */
  function ToLower(s: string): (r: string)
    ensures |r| == |s|
  {
    seq(|s|, i requires 0 <= i < |s| => LowerChar(s[i]))
  }

  /** Each character of the folded string is the fold of the character at the same position. */
  lemma ToLowerAt(s: string, i: int)
    requires 0 <= i < |s|
    ensures ToLower(s)[i] == LowerChar(s[i])
  {
  }

  /** Folding commutes with taking a slice: positions in the folded text are positions in the text. */
  lemma ToLowerSlice(s: string, a: int, b: int)
    requires 0 <= a <= b <= |s|
    ensures ToLower(s)[a..b] == ToLower(s[a..b])
  {
  }

  /** Folding twice folds once. */
  lemma ToLowerIdempotent(s: string)
    ensures ToLower(ToLower(s)) == ToLower(s)
  {
  }

  // ---------------------------------------------------------------------------
  // Trimming
  // ---------------------------------------------------------------------------

  /**
   * The characters `String.prototype.trim` removes: the ECMAScript WhiteSpace
   * set (tab, vertical tab, form feed, space, no-break space, byte order mark
   * and the other Unicode space separators) and the LineTerminator set.
   */
  predicate IsWhitespace(c: char) {
    var n := c as int;
    n == 0x09 || n == 0x0A || n == 0x0B || n == 0x0C || n == 0x0D || n == 0x20 ||
    n == 0xA0 || n == 0x1680 || (0x2000 <= n <= 0x200A) || n == 0x2028 || n == 0x2029 ||
    n == 0x202F || n == 0x205F || n == 0x3000 || n == 0xFEFF
  }

  /** Folding leaves whitespace alone: no whitespace character is upper-case. */
  lemma LowerCharWhitespace(c: char)
    ensures IsWhitespace(LowerChar(c)) <==> IsWhitespace(c)
  {
  }

  predicate IsBlank(s: string) {
    forall i :: 0 <= i < |s| ==> IsWhitespace(s[i])
  }

  /** The number of whitespace characters `s` starts with. */
  function LeadingWhitespace(s: string): (n: nat)
    ensures n <= |s|
    ensures forall i :: 0 <= i < n ==> IsWhitespace(s[i])
    ensures n < |s| ==> !IsWhitespace(s[n])
  {
    if |s| > 0 && IsWhitespace(s[0]) then 1 + LeadingWhitespace(s[1..]) else 0
  }

  /** The number of whitespace characters `s` ends with. */
  function TrailingWhitespace(s: string): (n: nat)
    ensures n <= |s|
    ensures forall i :: |s| - n <= i < |s| ==> IsWhitespace(s[i])
    ensures n < |s| ==> !IsWhitespace(s[|s| - 1 - n])
  {
    if |s| > 0 && IsWhitespace(s[|s| - 1]) then 1 + TrailingWhitespace(s[..|s| - 1]) else 0
  }

  /** Drops the leading whitespace. */
  function TrimStart(s: string): string {
    s[LeadingWhitespace(s)..]
  }

  /** Drops the trailing whitespace. */
  function TrimEnd(s: string): string {
    s[..|s| - TrailingWhitespace(s)]
  }

  /** `String.prototype.trim`: removes the whitespace at both ends. */
  function Trim(s: string): (r: string)
    ensures |r| <= |s|
  {
    TrimEnd(TrimStart(s))
  }

  /** A trimmed string is empty exactly when the string held nothing but whitespace. */
  lemma TrimEmptyIffBlank(s: string)
    ensures Trim(s) == [] <==> IsBlank(s)
  {
    var n := LeadingWhitespace(s);
    if n < |s| {
      var t := TrimStart(s);
      assert t[0] == s[n];
    }
  }

  /** A non-empty trimmed string neither starts nor ends with whitespace, and is a slice of the input. */
  lemma TrimShape(s: string)
    ensures Trim(s) != [] ==> !IsWhitespace(Trim(s)[0]) && !IsWhitespace(Trim(s)[|Trim(s)| - 1])
    ensures var a := LeadingWhitespace(s); a + |Trim(s)| <= |s| && Trim(s) == s[a..a + |Trim(s)|]
    ensures var a := LeadingWhitespace(s); IsBlank(s[..a]) && IsBlank(s[a + |Trim(s)|..])
  {
    var t := TrimStart(s);
    var r := Trim(s);
    var a := LeadingWhitespace(s);
    if r != [] {
      assert r[0] == s[a];
      var m := TrailingWhitespace(t);
      assert r[|r| - 1] == t[|t| - 1 - m];
    }
    assert r == s[a..a + |r|];
    TrimCutsWhitespace(s);
  }

  /** What `trim` cuts off at either end is whitespace. */
  lemma TrimCutsWhitespace(s: string)
    ensures var a := LeadingWhitespace(s); a + |Trim(s)| <= |s|
    ensures var a := LeadingWhitespace(s); IsBlank(s[..a]) && IsBlank(s[a + |Trim(s)|..])
  {
    var t := TrimStart(s);
    var a := LeadingWhitespace(s);
    var m := TrailingWhitespace(t);
    var b := a + |Trim(s)|;
    assert b == a + |t| - m;
    forall i | 0 <= i < |s| - b ensures IsWhitespace(s[b..][i]) {
      assert s[b..][i] == t[|t| - m + i];
    }
  }

  // ---------------------------------------------------------------------------
  // Searching
  // ---------------------------------------------------------------------------

  /** `q` occurs in `s` starting at position `i`. */
  predicate OccursAt(s: string, q: string, i: int) {
    0 <= i && i + |q| <= |s| && s[i..i + |q|] == q
  }

  /** `String.prototype.includes`. */
  predicate Contains(s: string, q: string) {
    exists i :: 0 <= i <= |s| && OccursAt(s, q, i)
  }

  /** `indexOf` started at `from`: the first occurrence at or after `from`, or -1. */
  function IndexFrom(s: string, q: string, from: nat): (r: int)
    ensures r == -1 || from <= r <= |s|
    decreases |s| - from
  {
    if from + |q| > |s| then -1
    else if s[from..from + |q|] == q then from
    else IndexFrom(s, q, from + 1)
  }

  /** `String.prototype.indexOf`: the position of the first occurrence of `q`, or -1 when there is none. */
  function IndexOf(s: string, q: string): (r: int)
    ensures -1 <= r <= |s|
  {
    IndexFrom(s, q, 0)
  }

  /** The search from `from` finds the first occurrence at or after `from`, and -1 only when there is none. */
  lemma {:induction false} IndexFromFirst(s: string, q: string, from: nat)
    ensures var r := IndexFrom(s, q, from);
      && (r == -1 || OccursAt(s, q, r))
      && (r == -1 <==> forall j :: from <= j ==> !OccursAt(s, q, j))
      && (r >= 0 ==> forall j :: from <= j < r ==> !OccursAt(s, q, j))
    decreases |s| - from
  {
    if from + |q| <= |s| && s[from..from + |q|] != q {
      IndexFromFirst(s, q, from + 1);
    }
  }

  /** `indexOf` gives -1 exactly when the query does not occur, and otherwise its first occurrence. */
  lemma IndexOfFirst(s: string, q: string)
    ensures IndexOf(s, q) == -1 <==> !Contains(s, q)
    ensures IndexOf(s, q) >= 0 ==> OccursAt(s, q, IndexOf(s, q)) && forall j :: 0 <= j < IndexOf(s, q) ==> !OccursAt(s, q, j)
  {
    IndexFromFirst(s, q, 0);
  }

  // ---------------------------------------------------------------------------
  // Slicing
  // ---------------------------------------------------------------------------

  /** How `substring` reads an argument: negative becomes 0, past the end becomes the length. */
  function Clamp(x: int, len: nat): (r: nat)
    ensures r <= len
    ensures 0 <= x <= len ==> r == x
  {
    if x < 0 then 0 else if x > len then len else x
  }

  /** `String.prototype.substring`: both arguments clamped, and swapped when the start is past the end. */
  function Substring(s: string, start: int, end: int): (r: string)
    ensures |r| <= |s|
    ensures 0 <= start <= end <= |s| ==> r == s[start..end]
  {
    var a := Clamp(start, |s|);
    var b := Clamp(end, |s|);
    if a <= b then s[a..b] else s[b..a]
  }

  /** A slice of a slice is a slice. */
  lemma SliceOfSlice(s: string, a: int, b: int, c: int, d: int)
    requires 0 <= a <= b <= |s| && 0 <= c <= d <= b - a
    ensures s[a..b][c..d] == s[a + c..a + d]
  {
    forall k | 0 <= k < d - c ensures s[a..b][c..d][k] == s[a + c..a + d][k] {
      assert s[a..b][c + k] == s[a + c + k];
    }
  }

  /** A slice that stays inside the middle part of `pre + mid + post` is a slice of `mid`. */
  lemma SliceOfMiddle(pre: string, mid: string, post: string, c: int, d: int)
    requires |pre| <= c <= d <= |pre| + |mid|
    ensures (pre + mid + post)[c..d] == mid[c - |pre|..d - |pre|]
  {
    var whole := pre + mid + post;
    assert |whole[c..d]| == |mid[c - |pre|..d - |pre|]|;
    forall k | 0 <= k < d - c ensures whole[c..d][k] == mid[c - |pre|..d - |pre|][k] {
      assert whole[c + k] == mid[c - |pre| + k];
    }
  }

  function Max(a: int, b: int): (r: int)
    ensures r >= a && r >= b && (r == a || r == b)
  {
    if a >= b then a else b
  }

  function Min(a: int, b: int): (r: int)
    ensures r <= a && r <= b && (r == a || r == b)
  {
    if a <= b then a else b
  }
}
