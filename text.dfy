/** The JavaScript string operations the source relies on (`trim`, `toLowerCase`,
    `includes`, `indexOf`, `replace`, `split`, `endsWith`, `slice`), over `string`. */
module Text {
  import opened Wrappers

  /** JavaScript's `\s` class: WhiteSpace and LineTerminator code points. `trim` removes
      exactly these from both ends. */
  predicate IsJsWhitespace(c: char) {
    || c == ' ' || c == '\t' || c == '\n' || c == '\r' || c == '\U{B}' || c == '\U{C}'
    || c == '\U{A0}' || c == '\U{1680}' || ('\U{2000}' <= c <= '\U{200A}')
    || c == '\U{2028}' || c == '\U{2029}' || c == '\U{202F}' || c == '\U{205F}'
    || c == '\U{3000}' || c == '\U{FEFF}'
  }

  /** The characters a regular expression's `.` does not match, and at which `$` matches
      in multiline mode. */
  predicate IsLineTerminator(c: char) {
    c == '\n' || c == '\r' || c == '\U{2028}' || c == '\U{2029}'
  }

  lemma LineTerminatorIsWhitespace(c: char)
    requires IsLineTerminator(c)
    ensures IsJsWhitespace(c)
  {
  }

  /** Every character is whitespace (so `s.trim()` is empty). */
  predicate IsBlank(s: string) {
    forall i :: 0 <= i < |s| ==> IsJsWhitespace(s[i])
  }

  /** The end of the whitespace run that starts at index `i`. */
  function SpaceEnd(s: string, i: nat): (n: nat)
    requires i <= |s|
    ensures i <= n <= |s|
    ensures forall k :: i <= k < n ==> IsJsWhitespace(s[k])
    ensures n == |s| || !IsJsWhitespace(s[n])
    decreases |s| - i
  {
    if i < |s| && IsJsWhitespace(s[i]) then SpaceEnd(s, i + 1) else i
  }

  /** The start of the whitespace run that ends just before index `j`, not going below
      `lo`. */
  function SpaceStart(s: string, lo: nat, j: nat): (m: nat)
    requires lo <= j <= |s|
    ensures lo <= m <= j
    ensures forall k :: m <= k < j ==> IsJsWhitespace(s[k])
    ensures m == lo || !IsJsWhitespace(s[m - 1])
    decreases j
  {
    if lo < j && IsJsWhitespace(s[j - 1]) then SpaceStart(s, lo, j - 1) else j
  }

  /** `s.trim()`: the longest infix of `s` that neither starts nor ends with whitespace. */
  function Trim(s: string): (r: string)
    ensures |r| <= |s|
    ensures r == [] || (!IsJsWhitespace(r[0]) && !IsJsWhitespace(r[|r| - 1]))
    ensures r == [] <==> IsBlank(s)
  {
    var a := SpaceEnd(s, 0);
    s[a..SpaceStart(s, a, |s|)]
  }

  /** Trimming a string that has no surrounding whitespace changes nothing. */
  lemma TrimUntouched(s: string)
    requires s == [] || (!IsJsWhitespace(s[0]) && !IsJsWhitespace(s[|s| - 1]))
    ensures Trim(s) == s
  {
  }

  /** The trimmed text is a slice of the input: every character of it occurs there. */
  lemma TrimInfix(s: string)
    ensures forall i :: 0 <= i < |Trim(s)| ==> Trim(s)[i] in s
  {
    var a := SpaceEnd(s, 0);
    forall i | 0 <= i < |Trim(s)| ensures Trim(s)[i] in s {
      assert Trim(s)[i] == s[a + i];
    }
  }

  /** ASCII lower-casing; full Unicode case folding is not part of this model. */
  function LowerChar(c: char): char {
    if 'A' <= c <= 'Z' then (c as int + 32) as char else c
  }

  /** `s.toLowerCase()`, restricted to ASCII letters. */
  function Lower(s: string): (r: string)
    ensures |r| == |s|
    ensures forall i :: 0 <= i < |s| ==> r[i] == LowerChar(s[i])
  {
    seq(|s|, i requires 0 <= i < |s| => LowerChar(s[i]))
  }

  /** `pat` occurs in `s` starting at index `i`. */
  predicate OccursAt(s: string, pat: string, i: int) {
    0 <= i && i + |pat| <= |s| && s[i..i + |pat|] == pat
  }

  /** `s.includes(pat)`. */
  predicate Contains(s: string, pat: string) {
    exists i :: 0 <= i <= |s| - |pat| && OccursAt(s, pat, i)
  }

  /** The first occurrence of `pat` in `s` at or after `from`. */
  function IndexOfFrom(s: string, pat: string, from: nat): (r: Option<nat>)
    ensures r.Some? ==> from <= r.value && OccursAt(s, pat, r.value)
    ensures r.Some? ==> forall k :: from <= k < r.value ==> !OccursAt(s, pat, k)
    ensures r.None? ==> forall k :: from <= k ==> !OccursAt(s, pat, k)
    decreases |s| - from
  {
    if from + |pat| > |s| then None
    else if s[from..from + |pat|] == pat then Some(from)
    else IndexOfFrom(s, pat, from + 1)
  }

  /** `s.indexOf(pat)`, with `None` for -1. */
  function IndexOf(s: string, pat: string): (r: Option<nat>)
    ensures r.Some? ==> OccursAt(s, pat, r.value) && forall k :: 0 <= k < r.value ==> !OccursAt(s, pat, k)
    ensures r.None? <==> !Contains(s, pat)
  {
    IndexOfFrom(s, pat, 0)
  }

  /** `s.replace(pat, rep)` with a string pattern: only the first occurrence is replaced. */
  function ReplaceFirst(s: string, pat: string, rep: string): (r: string)
    ensures !Contains(s, pat) ==> r == s
    ensures Contains(s, pat) ==> |r| == |s| - |pat| + |rep|
  {
    match IndexOf(s, pat)
    case None => s
    case Some(i) => s[..i] + rep + s[i + |pat|..]
  }

  /** `s.replace(/c/g, rep)` for a single-character pattern: every `c` becomes `rep`. */
  function ReplaceAllChar(s: string, c: char, rep: string): (r: string)
    ensures |rep| >= 1 ==> |r| >= |s|
    decreases |s|
  {
    if s == [] then []
    else (if s[0] == c then rep else [s[0]]) + ReplaceAllChar(s[1..], c, rep)
  }

  /** A string without the pattern character comes back unchanged. */
  lemma {:induction false} ReplaceAllCharAbsent(s: string, c: char, rep: string)
    requires c !in s
    ensures ReplaceAllChar(s, c, rep) == s
    decreases |s|
  {
    if s != [] {
      assert s[0] != c;
      ReplaceAllCharAbsent(s[1..], c, rep);
      assert [s[0]] + s[1..] == s;
    }
  }

  /** On one character: the replacement if it is the pattern, else the character. */
  lemma ReplaceAllCharSingle(x: char, c: char, rep: string)
    ensures ReplaceAllChar([x], c, rep) == if x == c then rep else [x]
  {
    assert [x][1..] == [];
    assert ReplaceAllChar([], c, rep) == [];
  }

  /** After replacing, the pattern character is gone when the replacement lacks it. */
  lemma {:induction false} ReplaceAllCharRemoves(s: string, c: char, rep: string)
    requires c !in rep
    ensures c !in ReplaceAllChar(s, c, rep)
    decreases |s|
  {
    if s != [] {
      ReplaceAllCharRemoves(s[1..], c, rep);
    }
  }

  /** A one-character replacement keeps the length. */
  lemma {:induction false} ReplaceAllCharLength(s: string, c: char, rep: string)
    requires |rep| == 1
    ensures |ReplaceAllChar(s, c, rep)| == |s|
    decreases |s|
  {
    if s != [] {
      ReplaceAllCharLength(s[1..], c, rep);
    }
  }

  /** Replacing distributes over concatenation. */
  lemma {:induction false} ReplaceAllCharConcat(a: string, b: string, c: char, rep: string)
    ensures ReplaceAllChar(a + b, c, rep) == ReplaceAllChar(a, c, rep) + ReplaceAllChar(b, c, rep)
    decreases |a|
  {
    if a == [] {
      assert a + b == b;
    } else {
      assert (a + b)[1..] == a[1..] + b;
      ReplaceAllCharConcat(a[1..], b, c, rep);
    }
  }

  /** `s.endsWith(suffix)`. */
  predicate EndsWith(s: string, suffix: string) {
    |suffix| <= |s| && s[|s| - |suffix|..] == suffix
  }

  /** `s.split(sep)[0]`: the text before the first occurrence of `sep`, or all of `s`. */
  function BeforeFirst(s: string, sep: string): (r: string)
    ensures r <= s
  {
    match IndexOf(s, sep)
    case None => s
    case Some(i) => s[..i]
  }

  /** The text before the first separator holds no separator. */
  lemma BeforeFirstLacks(s: string, sep: string)
    requires |sep| > 0
    ensures !Contains(BeforeFirst(s, sep), sep)
  {
    match IndexOf(s, sep)
    case None =>
    case Some(i) =>
      if Contains(s[..i], sep) {
        var k :| 0 <= k <= i - |sep| && OccursAt(s[..i], sep, k);
        assert s[..i][k..k + |sep|] == s[k..k + |sep|];
        assert OccursAt(s, sep, k);
      }
  }

  /** The text before the first blank line of `a + "\n\n" + b` is `a`, when `a` holds no
      blank line and does not end in a line feed. */
  lemma BeforeFirstParagraph(a: string, b: string)
    requires !Contains(a, "\n\n") && (a == [] || a[|a| - 1] != '\n')
    ensures BeforeFirst(a + "\n\n" + b, "\n\n") == a
  {
    var x := a + "\n\n" + b;
    assert OccursAt(x, "\n\n", |a|);
    var i := IndexOf(x, "\n\n").value;
    if i + 2 <= |a| {
      assert x[i..i + 2] == a[i..i + 2];
      assert OccursAt(a, "\n\n", i);
      assert false;
    }
    assert x[..i] == a;
  }

  /** `s.split(sep)` for a one-character separator. */
  function Split(s: string, sep: char): (r: seq<string>)
    ensures |r| >= 1
    ensures forall i :: 0 <= i < |r| ==> sep !in r[i]
    ensures |r| == 1 <==> sep !in s
    ensures sep !in s ==> r == [s]
    decreases |s|
  {
    match IndexOf(s, [sep])
    case None =>
      assert sep !in s by {
        forall k | 0 <= k < |s| ensures s[k] != sep {
          assert !OccursAt(s, [sep], k);
          assert s[k..k + 1] == [s[k]];
        }
      }
      [s]
    case Some(i) =>
      assert s[i..i + 1][0] == s[i];
      assert sep !in s[..i] by {
        if sep in s[..i] {
          var k :| 0 <= k < i && s[k] == sep;
          assert OccursAt(s, [sep], k);
        }
      }
      [s[..i]] + Split(s[i + 1..], sep)
  }

  /** Splitting `a + [sep] + b` where neither part holds the separator gives the two parts. */
  lemma SplitTwo(a: string, sep: char, b: string)
    requires sep !in a && sep !in b
    ensures Split(a + [sep] + b, sep) == [a, b]
  {
    var s := a + [sep] + b;
    assert OccursAt(s, [sep], |a|);
    forall k | 0 <= k < |a| ensures !OccursAt(s, [sep], k) {
      assert s[k] == a[k];
    }
    assert IndexOf(s, [sep]) == Some(|a|);
    assert s[..|a|] == a;
    assert s[|a| + 1..] == b;
    assert !Contains(b, [sep]) by {
      forall k | 0 <= k < |b| ensures !OccursAt(b, [sep], k) {
        assert b[k] in b && b[k..k + 1][0] == b[k];
      }
    }
  }

  /** A prefix of a string that lacks `pat` lacks it too. */
  lemma ContainsPrefix(r: string, s: string, pat: string)
    requires r <= s && !Contains(s, pat)
    ensures !Contains(r, pat)
  {
    if Contains(r, pat) {
      var i :| 0 <= i <= |r| - |pat| && OccursAt(r, pat, i);
      assert s[i..i + |pat|] == r[i..i + |pat|];
      assert OccursAt(s, pat, i);
    }
  }

  /** `s.slice(0, n)`. */
  function Take(s: string, n: nat): (r: string)
    ensures r <= s
    ensures |r| == if |s| < n then |s| else n
  {
    if |s| <= n then s else s[..n]
  }
}
