/** The java.lang.String operations the core relies on: `contains`, `replace` and `isBlank`. */
module JavaStrings {

  /** `p` occurs in `s` at position `i`. */
  predicate OccursAt(s: string, p: string, i: int)
  {
    0 <= i && i + |p| <= |s| && s[i..i + |p|] == p
  }

  /** `String.contains`: `p` occurs somewhere in `s`. */
  predicate Contains(s: string, p: string)
  {
    exists i :: 0 <= i <= |s| - |p| && OccursAt(s, p, i)
  }

  /** The empty pattern occurs in every string, at index 0. */
  lemma EmptyContained(s: string)
    ensures Contains(s, [])
  {
    assert OccursAt(s, [], 0);
  }

  /** `String.replace(target, replacement)` for a non-empty target: scanning from left to
      right, every occurrence of `target` that does not overlap an earlier replaced one is
      replaced by `replacement`. */
  function Replace(s: string, target: string, replacement: string): string
    requires target != []
    decreases |s|
  {
    if |s| < |target| then s
    else if s[..|target|] == target then replacement + Replace(s[|target|..], target, replacement)
    else [s[0]] + Replace(s[1..], target, replacement)
  }

  /** `Character.isWhitespace` on a code point: the Unicode space, line and paragraph
      separators other than the no-break spaces U+00A0, U+2007 and U+202F, plus the
      controls U+0009..U+000D and U+001C..U+001F. */
  predicate IsWhitespace(c: char)
  {
    var k := c as int;
    || (0x09 <= k <= 0x0D) || (0x1C <= k <= 0x1F) || k == 0x20
    || k == 0x1680 || (0x2000 <= k <= 0x2006) || (0x2008 <= k <= 0x200A)
    || k == 0x2028 || k == 0x2029 || k == 0x205F || k == 0x3000
  }

  /** `String.isBlank`: empty, or white space only. */
  predicate IsBlank(s: string)
  {
    forall i :: 0 <= i < |s| ==> IsWhitespace(s[i])
  }

  /** The values the builder tests use: null aside, "", " ", "\t" and "   " are blank,
      "assistant" and "prompt-001" are not. */
  lemma BlankExamples()
    ensures IsBlank("") && IsBlank(" ") && IsBlank("\t") && IsBlank("   ")
    ensures !IsBlank("assistant") && !IsBlank("prompt-001")
  {
    assert !IsWhitespace("assistant"[0]);
    assert !IsWhitespace("prompt-001"[0]);
  }

  /** An occurrence in `s[1..]` is an occurrence in `s`, one position further on. */
  lemma ContainsTail(s: string, p: string)
    requires |s| > 0 && Contains(s[1..], p)
    ensures Contains(s, p)
  {
    var i :| 0 <= i <= |s[1..]| - |p| && OccursAt(s[1..], p, i);
    assert s[i + 1..i + 1 + |p|] == s[1..][i..i + |p|];
    assert OccursAt(s, p, i + 1);
  }

  /** When the target does not occur, `replace` returns the string unchanged; this is why
      the guard `text.contains(pattern)` in front of `replace` changes nothing. */
  lemma {:induction false} ReplaceAbsent(s: string, target: string, replacement: string)
    requires target != [] && !Contains(s, target)
    ensures Replace(s, target, replacement) == s
  {
    if |s| < |target| {
    } else {
      if s[..|target|] == target {
        assert OccursAt(s, target, 0);
        assert false;
      }
      if Contains(s[1..], target) {
        ContainsTail(s, target);
      }
      ReplaceAbsent(s[1..], target, replacement);
      assert [s[0]] + s[1..] == s;
    }
  }

  /** Replacing a target by itself is the identity. */
  lemma {:induction false} ReplaceBySelf(s: string, target: string)
    requires target != []
    ensures Replace(s, target, target) == s
  {
    if |s| < |target| {
    } else if s[..|target|] == target {
      ReplaceBySelf(s[|target|..], target);
      assert s[..|target|] + s[|target|..] == s;
    } else {
      ReplaceBySelf(s[1..], target);
      assert [s[0]] + s[1..] == s;
    }
  }

  /** A target that occurs is really rewritten when the replacement has another length:
      the result's length differs from the input's. */
  lemma {:induction false} ReplacePresentChangesLength(s: string, target: string, replacement: string)
    requires target != [] && |replacement| != |target| && Contains(s, target)
    ensures |Replace(s, target, replacement)| != |s|
  {
    ReplaceLength(s, target, replacement);
    var i :| 0 <= i <= |s| - |target| && OccursAt(s, target, i);
    ReplaceFindsOccurrence(s, target, replacement, i);
    var k, d := Rewritten(s, target), |replacement| - |target|;
    assert k * d != 0 by { NonZeroProduct(k, d); }
  }

  lemma NonZeroProduct(k: int, d: int)
    requires k > 0 && d != 0
    ensures k * d != 0
  {
  }

  /** The number of targets `replace` rewrites in `s`, counted by its own left-to-right scan. */
  function Rewritten(s: string, target: string): nat
    requires target != []
    decreases |s|
  {
    if |s| < |target| then 0
    else if s[..|target|] == target then 1 + Rewritten(s[|target|..], target)
    else Rewritten(s[1..], target)
  }

  /** Each rewritten target trades `|target|` characters for `|replacement|` ones. */
  lemma {:induction false} ReplaceLength(s: string, target: string, replacement: string)
    requires target != []
    ensures |Replace(s, target, replacement)| == |s| + Rewritten(s, target) * (|replacement| - |target|)
    decreases |s|
  {
    var d := |replacement| - |target|;
    if |s| < |target| {
    } else if s[..|target|] == target {
      var rest := s[|target|..];
      ReplaceLength(rest, target, replacement);
      var k := Rewritten(rest, target);
      assert Replace(s, target, replacement) == replacement + Replace(rest, target, replacement);
      assert Rewritten(s, target) == k + 1;
      RewriteStep(|s|, |target|, |replacement|, k);
    } else {
      var rest := s[1..];
      ReplaceLength(rest, target, replacement);
      assert Replace(s, target, replacement) == [s[0]] + Replace(rest, target, replacement);
      assert Rewritten(s, target) == Rewritten(rest, target);
    }
  }

  lemma RewriteStep(n: int, t: int, r: int, k: int)
    ensures r + ((n - t) + k * (r - t)) == n + (k + 1) * (r - t)
  {
  }

  /** If the target occurs anywhere, the scan rewrites at least one occurrence. */
  lemma {:induction false} ReplaceFindsOccurrence(s: string, target: string, replacement: string, i: int)
    requires target != [] && 0 <= i <= |s| - |target| && OccursAt(s, target, i)
    ensures Rewritten(s, target) > 0
    decreases i
  {
    if s[..|target|] == target {
    } else {
      assert i > 0;
      assert s[1..][i - 1..i - 1 + |target|] == s[i..i + |target|];
      ReplaceFindsOccurrence(s[1..], target, replacement, i - 1);
    }
  }
}
