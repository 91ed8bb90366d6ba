/** The string operations the detector relies on: `toLowerCase`, `includes`, `split` and `trim`. */
module Text {

  predicate IsDigit(c: char) { '0' <= c <= '9' }

  /** JavaScript's white space: the `\s` class of a regular expression, and what `trim` removes. */
  predicate IsSpace(c: char) {
    || c == '\t' || c == '\n' || c == '\U{000B}' || c == '\U{000C}' || c == '\r' || c == ' '
    || c == '\U{00A0}' || c == '\U{1680}' || '\U{2000}' <= c <= '\U{200A}'
    || c == '\U{2028}' || c == '\U{2029}' || c == '\U{202F}' || c == '\U{205F}'
    || c == '\U{3000}' || c == '\U{FEFF}'
  }

  /** Folds A-Z to a-z and leaves every other character alone. */
  function LowerChar(c: char): char {
    if 'A' <= c <= 'Z' then (c as int + 32) as char else c
  }

  /** `s.toLowerCase()`, restricted to the ASCII letters. */
  function Lower(s: string): (r: string)
    ensures |r| == |s|
    ensures forall k :: 0 <= k < |s| ==> r[k] == LowerChar(s[k])
  {
    seq(|s|, k requires 0 <= k < |s| => LowerChar(s[k]))
  }

  /** Lower-casing leaves no capital letter A to Z, and every character that is not one stays in its place. */
  lemma LowerLeavesNoCapitals(s: string)
    ensures forall k :: 0 <= k < |Lower(s)| ==> !('A' <= Lower(s)[k] <= 'Z')
    ensures forall k :: 0 <= k < |s| && !('A' <= s[k] <= 'Z') ==> Lower(s)[k] == s[k]
  {
  }

  /** Lower-casing twice is lower-casing once. */
  lemma LowerIdempotent(s: string)
    ensures Lower(Lower(s)) == Lower(s)
  {
  }

  /** The length of the run of digits that starts at offset i. */
  function DigitRun(s: string, i: nat): (n: nat)
    requires i <= |s|
    ensures i + n <= |s|
    ensures forall k :: i <= k < i + n ==> IsDigit(s[k])
    ensures i + n < |s| ==> !IsDigit(s[i + n])
    decreases |s| - i
  {
    if i < |s| && IsDigit(s[i]) then 1 + DigitRun(s, i + 1) else 0
  }

  /** The length of the run of white space that starts at offset i. */
  function SpaceRun(s: string, i: nat): (n: nat)
    requires i <= |s|
    ensures i + n <= |s|
    ensures forall k :: i <= k < i + n ==> IsSpace(s[k])
    ensures i + n < |s| ==> !IsSpace(s[i + n])
    decreases |s| - i
  {
    if i < |s| && IsSpace(s[i]) then 1 + SpaceRun(s, i + 1) else 0
  }

  /** The lower-case word occurs at offset i when letters are compared regardless of case, as under a
      regular expression's `i` flag. */
  predicate WordAt(s: string, i: nat, word: string) {
    i + |word| <= |s| && Lower(s[i..i + |word|]) == word
  }

  /** w occurs in s starting at offset i. */
  predicate OccursAt(s: string, w: string, i: int) {
    0 <= i <= |s| - |w| && s[i..i + |w|] == w
  }

  /** `s.includes(w)`: w occurs in s as a contiguous block. */
  predicate Contains(s: string, w: string) {
    exists i | 0 <= i <= |s| - |w| :: OccursAt(s, w, i)
  }

  /** `s.split(sep)` for a one-character separator: the pieces between separators, empty ones included. */
  function Split(s: string, sep: char): (r: seq<string>)
    ensures |r| > 0
    ensures forall k :: 0 <= k < |r| ==> sep !in r[k]
  {
    if s == [] then [""]
    else
      var rest := Split(s[1..], sep);
      if s[0] == sep then [""] + rest
      else [[s[0]] + rest[0]] + rest[1..]
  }

  /** The inverse of Split: the pieces glued back together with the separator between them. */
  function Join(parts: seq<string>, sep: char): string {
    if |parts| == 0 then ""
    else if |parts| == 1 then parts[0]
    else parts[0] + [sep] + Join(parts[1..], sep)
  }

  /** Splitting loses nothing: gluing the pieces back gives the original text. */
  lemma {:induction false} JoinSplit(s: string, sep: char)
    ensures Join(Split(s, sep), sep) == s
  {
    if s != [] {
      JoinSplit(s[1..], sep);
      var rest := Split(s[1..], sep);
      if s[0] != sep && |rest| > 1 {
        assert Join(rest, sep) == rest[0] + [sep] + Join(rest[1..], sep);
        assert rest[1..][1..] == rest[2..];
      }
    }
  }

  /** A piece free of the separator comes out of Split as the first piece. */
  lemma {:induction false} SplitAfterPiece(w: string, t: string, sep: char)
    requires sep !in w
    ensures Split(w + [sep] + t, sep) == [w] + Split(t, sep)
  {
    if w != [] {
      assert (w + [sep] + t)[1..] == w[1..] + [sep] + t;
      SplitAfterPiece(w[1..], t, sep);
      assert [w[0]] + w[1..] == w;
    } else {
      assert (w + [sep] + t)[1..] == t;
    }
  }

  /** Text without the separator splits into itself alone. */
  lemma {:induction false} SplitWithoutSeparator(w: string, sep: char)
    requires sep !in w
    ensures Split(w, sep) == [w]
  {
    if w != [] {
      SplitWithoutSeparator(w[1..], sep);
      assert [w[0]] + w[1..] == w;
    }
  }

  /** Gluing is undone by splitting, provided no piece holds the separator. */
  lemma {:induction false} SplitJoin(parts: seq<string>, sep: char)
    requires |parts| > 0
    requires forall k :: 0 <= k < |parts| ==> sep !in parts[k]
    ensures Split(Join(parts, sep), sep) == parts
  {
    if |parts| == 1 {
      SplitWithoutSeparator(parts[0], sep);
    } else {
      SplitJoin(parts[1..], sep);
      SplitAfterPiece(parts[0], Join(parts[1..], sep), sep);
      assert [parts[0]] + parts[1..] == parts;
    }
  }

  /** The number of white-space characters at the start of s. */
  function LeadingSpaces(s: string): (n: nat)
    ensures n <= |s|
    ensures forall k :: 0 <= k < n ==> IsSpace(s[k])
    ensures n < |s| ==> !IsSpace(s[n])
  {
    if |s| > 0 && IsSpace(s[0]) then 1 + LeadingSpaces(s[1..]) else 0
  }

  /** The number of white-space characters at the end of s. */
  function TrailingSpaces(s: string): (n: nat)
    ensures n <= |s|
    ensures forall k :: |s| - n <= k < |s| ==> IsSpace(s[k])
    ensures n < |s| ==> !IsSpace(s[|s| - 1 - n])
  {
    if |s| > 0 && IsSpace(s[|s| - 1]) then 1 + TrailingSpaces(s[..|s| - 1]) else 0
  }

  /** `s.trim()`: s without its leading and trailing white space. */
  function Trim(s: string): (r: string)
    ensures |r| > 0 ==> !IsSpace(r[0]) && !IsSpace(r[|r| - 1])
    ensures exists a :: TrimmedAt(s, r, a)
  {
    var a := LeadingSpaces(s);
    var t := s[a..];
    var r := t[..|t| - TrailingSpaces(t)];
    assert TrimmedAt(s, r, a);
    r
  }

  /** r sits in s at offset a, and everything of s around it is white space. */
  ghost predicate TrimmedAt(s: string, r: string, a: nat) {
    && a + |r| <= |s|
    && s[a..a + |r|] == r
    && (forall k :: 0 <= k < a ==> IsSpace(s[k]))
    && (forall k :: a + |r| <= k < |s| ==> IsSpace(s[k]))
  }

  /** Trimming twice is trimming once. */
  lemma TrimIdempotent(s: string)
    ensures Trim(Trim(s)) == Trim(s)
  {
    var r := Trim(s);
    assert LeadingSpaces(r) == 0;
    assert TrailingSpaces(r) == 0;
    assert r[0..][..|r|] == r;
  }

  /** Lower-casing commutes with taking a slice. */
  lemma LowerSlice(s: string, a: nat, b: nat)
    requires a <= b <= |s|
    ensures Lower(s[a..b]) == Lower(s)[a..b]
  {
  }

  /** An occurrence inside a slice is an occurrence in the whole text, shifted by the slice's start. */
  lemma OccursInSlice(t: string, a: nat, b: nat, w: string, i: int)
    requires a <= b <= |t|
    requires OccursAt(t[a..b], w, i)
    ensures OccursAt(t, w, a + i)
  {
    assert 0 <= i <= b - a - |w|;
    var inner, outer := t[a..b][i..i + |w|], t[a + i..a + i + |w|];
    assert forall k :: 0 <= k < |w| ==> inner[k] == outer[k];
    assert inner == outer;
  }

  /** An occurrence of a word that starts and ends with non-space characters lies inside the part of the
      text that is not surrounded by white space. */
  lemma OccursInCore(t: string, a: nat, b: nat, w: string, i: int)
    requires a <= b <= |t| && |w| > 0
    requires !IsSpace(w[0]) && !IsSpace(w[|w| - 1])
    requires forall k :: 0 <= k < a ==> IsSpace(t[k])
    requires forall k :: b <= k < |t| ==> IsSpace(t[k])
    requires OccursAt(t, w, i)
    ensures OccursAt(t[a..b], w, i - a)
  {
    assert t[i..i + |w|] == w;
    assert t[i] == w[0] && t[i + |w| - 1] == w[|w| - 1];
    assert a <= i && i + |w| <= b;
    var inner, outer := t[a..b][i - a..i - a + |w|], t[i..i + |w|];
    assert forall k :: 0 <= k < |w| ==> inner[k] == outer[k];
    assert inner == outer;
  }

  /** A word without white space occurs in the lower-cased trimmed text exactly when it occurs in the
      lower-cased original: trimming never cuts through a keyword. */
  lemma TrimKeepsWords(s: string, w: string)
    requires |w| > 0
    requires forall k :: 0 <= k < |w| ==> !IsSpace(w[k])
    ensures Contains(Lower(Trim(s)), w) <==> Contains(Lower(s), w)
  {
    var r := Trim(s);
    var a: nat :| TrimmedAt(s, r, a);
    var b := a + |r|;
    assert b <= |s| && s[a..b] == r;
    var ls := Lower(s);
    LowerSlice(s, a, b);
    assert Lower(r) == ls[a..b];
    if Contains(Lower(r), w) {
      var i :| OccursAt(ls[a..b], w, i);
      OccursInSlice(ls, a, b, w, i);
    }
    if Contains(ls, w) {
      var i :| OccursAt(ls, w, i);
      OccursInCore(ls, a, b, w, i);
      assert OccursAt(Lower(r), w, i - a);
    }
  }
}
