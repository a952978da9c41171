/**
 * str_trim_char(s, c): a global replace of the pattern
 * `^[c]+|[c]+$` by the empty string, after escaping "]" and "\" inside
 * the bracket. The bracket expression built for "^" is `[^]`, which in
 * JavaScript matches every character; TrimChar is the one-character
 * trim the escaping was evidently written for.
 */
module CharTrim {
  import opened JsStrings

  /** The set of characters the bracket expression `[` + c + `]` matches once "]" and "\" are escaped. */
  function BracketClass(c: char): (k: CharClass)
    ensures c != '^' ==> k == Single(c)
    ensures c == '^' ==> forall x :: InClass(k, x)
  {
    if c == '^' then AnyChar else Single(c)
  }

  /**
   * str_trim_char as written: the leading and trailing runs matched by
   * the bracket expression are removed (both alternatives of the pattern
   * match a non-empty run, so the global replace removes at most one
   * run at each end).
   */
  function StrTrimChar(s: string, c: char): string {
    StripRuns(s, BracketClass(c))
  }

  /** The intended operation: remove the leading and trailing runs of c. */
  function TrimChar(s: string, c: char): string {
    StripRuns(s, Single(c))
  }

  /** The two agree for every character but "^". */
  lemma {:induction false} StrTrimCharAgrees(s: string, c: char)
    requires c != '^'
    ensures StrTrimChar(s, c) == TrimChar(s, c)
  {
  }

  /** As written, trimming "^" empties every string. */
  lemma {:induction false} StrTrimCaretEmpties(s: string)
    ensures StrTrimChar(s, '^') == ""
    decreases |s|
  {
    AnyStripsAll(s);
  }

  lemma {:induction false} AnyStripsAll(s: string)
    ensures StripStart(s, AnyChar) == ""
    decreases |s|
  {
    if s != [] {
      AnyStripsAll(s[1..]);
    }
  }

  /** The input that shows it: "a^" keeps its "a" under the intended trim, loses it as written. */
  lemma {:induction false} StrTrimCaretCounterexample()
    ensures StrTrimChar("a^", '^') == "" && TrimChar("a^", '^') == "a"
  {
    StrTrimCaretEmpties("a^");
    assert StripStart("a^", Single('^')) == "a^";
    assert "a^"[..1] == "a";
    assert StripEnd("a", Single('^')) == "a";
  }

  /**
   * TrimChar(s, c) is s less a leading and a trailing run of c, nothing
   * else, and neither starts nor ends with c.
   */
  lemma {:induction false} TrimCharShape(s: string, c: char)
    ensures var t := TrimChar(s, c);
      exists i, j :: 0 <= i <= j <= |s| && t == s[i..j]
        && (forall n :: 0 <= n < i ==> s[n] == c)
        && (forall n :: j <= n < |s| ==> s[n] == c)
    ensures var t := TrimChar(s, c); t == [] || (t[0] != c && t[|t| - 1] != c)
  {
    StripShape(s, Single(c));
  }

  /** Trimming twice is trimming once. */
  lemma {:induction false} TrimCharIdempotent(s: string, c: char)
    ensures TrimChar(TrimChar(s, c), c) == TrimChar(s, c)
  {
    StripIdempotent(s, Single(c));
  }
}
