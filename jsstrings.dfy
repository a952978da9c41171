/**
 * The String.prototype operations the querystring codec is built from:
 * split on a one-character separator, join, replace of the first
 * occurrence of a one-character pattern, and trim.
 */
module JsStrings {

  /** `s.split(sep)` for a one-character separator: the maximal pieces between separators. */
  function Split(s: string, sep: char): (r: seq<string>)
    ensures |r| >= 1
    ensures forall i :: 0 <= i < |r| ==> sep !in r[i]
    decreases |s|
  {
    if s == [] then [""]
    else if s[0] == sep then [""] + Split(s[1..], sep)
    else
      var rest := Split(s[1..], sep);
      [[s[0]] + rest[0]] + rest[1..]
  }

  /** `parts.join(sep)` */
  function Join(parts: seq<string>, sep: string): string
    decreases |parts|
  {
    if parts == [] then ""
    else if |parts| == 1 then parts[0]
    else parts[0] + sep + Join(parts[1..], sep)
  }

  /** A character in neither the pieces nor the separator is not in the join. */
  lemma {:induction false} JoinFree(parts: seq<string>, sep: string, c: char)
    requires c !in sep && forall i :: 0 <= i < |parts| ==> c !in parts[i]
    ensures c !in Join(parts, sep)
    decreases |parts|
  {
    if |parts| > 1 {
      JoinFree(parts[1..], sep, c);
    }
  }

  /** Joining one more piece. */
  lemma {:induction false} JoinSnoc(parts: seq<string>, p: string, sep: string)
    requires parts != []
    ensures Join(parts + [p], sep) == Join(parts, sep) + sep + p
    decreases |parts|
  {
    if |parts| > 1 {
      assert (parts + [p])[1..] == parts[1..] + [p];
      JoinSnoc(parts[1..], p, sep);
    }
  }

  /** The join starts with the first piece's first character and ends with the last piece's last one. */
  lemma {:induction false} JoinEnds(parts: seq<string>, sep: string)
    requires parts != [] && forall i :: 0 <= i < |parts| ==> parts[i] != ""
    ensures var j := Join(parts, sep);
      j != "" && j[0] == parts[0][0] && j[|j| - 1] == parts[|parts| - 1][|parts[|parts| - 1]| - 1]
    decreases |parts|
  {
    if |parts| > 1 {
      JoinEnds(parts[1..], sep);
    }
  }

  /** Joining what was split gives the input back. */
  lemma {:induction false} JoinSplit(s: string, sep: char)
    ensures Join(Split(s, sep), [sep]) == s
    decreases |s|
  {
    if s == [] {
    } else if s[0] == sep {
      JoinSplit(s[1..], sep);
      var rest := Split(s[1..], sep);
      assert Split(s, sep) == [""] + rest;
      assert ([""] + rest)[1..] == rest;
    } else {
      JoinSplit(s[1..], sep);
      var rest := Split(s[1..], sep);
      var r := [[s[0]] + rest[0]] + rest[1..];
      assert Split(s, sep) == r;
      if |rest| == 1 {
        assert Join(r, [sep]) == [s[0]] + rest[0];
      } else {
        assert r[1..] == rest[1..];
        assert Join(rest, [sep]) == rest[0] + [sep] + Join(rest[1..], [sep]);
        assert Join(r, [sep]) == [s[0]] + rest[0] + [sep] + Join(rest[1..], [sep]);
      }
    }
  }

  /** Splitting a join of separator-free pieces gives the pieces back. */
  lemma {:induction false} SplitJoin(parts: seq<string>, sep: char)
    requires |parts| >= 1
    requires forall i :: 0 <= i < |parts| ==> sep !in parts[i]
    ensures Split(Join(parts, [sep]), sep) == parts
    decreases |parts|
  {
    if |parts| == 1 {
      SplitFree(parts[0], sep);
    } else {
      SplitJoin(parts[1..], sep);
      SplitAfterFree(parts[0], [sep] + Join(parts[1..], [sep]), sep);
      assert Split([sep] + Join(parts[1..], [sep]), sep) == [""] + parts[1..] by {
        assert ([sep] + Join(parts[1..], [sep]))[1..] == Join(parts[1..], [sep]);
      }
      assert parts[0] + [sep] + Join(parts[1..], [sep]) == parts[0] + ([sep] + Join(parts[1..], [sep]));
      assert ([""] + parts[1..])[0] == "" && ([""] + parts[1..])[1..] == parts[1..];
      assert parts[0] + "" == parts[0];
      assert [parts[0]] + parts[1..] == parts;
    }
  }

  /** A separator-free string splits into itself. */
  lemma {:induction false} SplitFree(s: string, sep: char)
    requires sep !in s
    ensures Split(s, sep) == [s]
    decreases |s|
  {
    if s != [] {
      SplitFree(s[1..], sep);
      assert [s[0]] + s[1..] == s;
    }
  }

  /** A separator-free prefix sticks to the first piece. */
  lemma {:induction false} SplitAfterFree(p: string, s: string, sep: char)
    requires sep !in p
    ensures var r := Split(s, sep); Split(p + s, sep) == [p + r[0]] + r[1..]
    decreases |p|
  {
    var r := Split(s, sep);
    if p == [] {
      assert p + s == s && p + r[0] == r[0];
      assert [r[0]] + r[1..] == r;
    } else {
      SplitAfterFree(p[1..], s, sep);
      assert (p + s)[1..] == p[1..] + s;
      assert [p[0]] + (p[1..] + Split(s, sep)[0]) == p + Split(s, sep)[0];
    }
  }

  /** How many times c occurs in s. */
  function CountChar(s: string, c: char): nat
    decreases |s|
  {
    if s == [] then 0 else (if s[0] == c then 1 else 0) + CountChar(s[1..], c)
  }

  /** Splitting gives one more piece than there are separators. */
  lemma {:induction false} SplitCount(s: string, sep: char)
    ensures |Split(s, sep)| == CountChar(s, sep) + 1
    decreases |s|
  {
    if s != [] {
      SplitCount(s[1..], sep);
    }
  }

  /** The first piece runs up to the first separator; the others are the split of what follows it. */
  lemma {:induction false} SplitHead(s: string, sep: char)
    ensures Split(s, sep)[0] == s[..IndexOf(s, sep)]
    ensures IndexOf(s, sep) < |s| ==> Split(s, sep)[1..] == Split(s[IndexOf(s, sep) + 1..], sep)
    ensures IndexOf(s, sep) == |s| ==> |Split(s, sep)| == 1
    decreases |s|
  {
    if s != [] && s[0] != sep {
      SplitHead(s[1..], sep);
      var i := IndexOf(s[1..], sep);
      assert IndexOf(s, sep) == i + 1;
      assert s[..i + 1] == [s[0]] + s[1..][..i];
      if i < |s[1..]| {
        assert s[1..][i + 1..] == s[i + 2..];
      }
    }
  }

  /** The index of the first `c` in `s`, or |s| when there is none. */
  function IndexOf(s: string, c: char): (i: nat)
    ensures i <= |s|
    ensures c !in s[..i]
    ensures i < |s| ==> s[i] == c
    ensures i == |s| <==> c !in s
    decreases |s|
  {
    if s == [] then 0
    else if s[0] == c then 0
    else
      var j := IndexOf(s[1..], c);
      assert s[1..][..j] == s[1..j + 1];
      assert s[..j + 1] == [s[0]] + s[1..j + 1];
      j + 1
  }

  /** `s.replace(c, "")` with a one-character string pattern: only the first occurrence goes. */
  function RemoveFirst(s: string, c: char): (r: string)
    ensures c !in s ==> r == s
    ensures c in s ==> |r| == |s| - 1 && s == r[..IndexOf(s, c)] + [c] + r[IndexOf(s, c)..]
    ensures c in s ==> c !in r[..IndexOf(s, c)]
  {
    var i := IndexOf(s, c);
    if i == |s| then s
    else
      var r := s[..i] + s[i + 1..];
      assert r[..i] == s[..i];
      assert r[i..] == s[i + 1..];
      assert s == s[..i] + [c] + s[i + 1..];
      r
  }

  /**
   * The characters String.prototype.trim removes: WhiteSpace (tab,
   * vertical tab, form feed, space, no-break space, byte order mark and
   * the Space_Separator category) and LineTerminator (LF, CR, LS, PS).
   */
  predicate IsWhitespace(c: char) {
    || c == '\t' || c == '\n' || c == '\U{000B}' || c == '\U{000C}' || c == '\r' || c == ' '
    || c == '\U{00A0}' || c == '\U{1680}' || ('\U{2000}' <= c <= '\U{200A}')
    || c == '\U{2028}' || c == '\U{2029}' || c == '\U{202F}' || c == '\U{205F}'
    || c == '\U{3000}' || c == '\U{FEFF}'
  }

  /** A set of characters that a run is stripped of: one character, any character, or whitespace. */
  datatype CharClass = Single(c: char) | AnyChar | Whitespace

  predicate InClass(k: CharClass, x: char) {
    match k
    case Single(c) => x == c
    case AnyChar => true
    case Whitespace => IsWhitespace(x)
  }

  /** Removes the maximal leading run of characters in k. */
  function StripStart(s: string, k: CharClass): string
    decreases |s|
  {
    if s != [] && InClass(k, s[0]) then StripStart(s[1..], k) else s
  }

  /** Removes the maximal trailing run of characters in k. */
  function StripEnd(s: string, k: CharClass): string
    decreases |s|
  {
    if s != [] && InClass(k, s[|s| - 1]) then StripEnd(s[..|s| - 1], k) else s
  }

  /** Removes the maximal leading and trailing runs of characters in k. */
  function StripRuns(s: string, k: CharClass): string {
    StripEnd(StripStart(s, k), k)
  }

  /** `s.trim()` */
  function Trim(s: string): string {
    StripRuns(s, Whitespace)
  }

  /** Stripping removes one run from each end and nothing in between, and leaves no class character at either end. */
  lemma {:induction false} StripShape(s: string, k: CharClass)
    ensures var t := StripRuns(s, k);
      exists i, j :: 0 <= i <= j <= |s| && t == s[i..j]
        && (forall n :: 0 <= n < i ==> InClass(k, s[n]))
        && (forall n :: j <= n < |s| ==> InClass(k, s[n]))
    ensures var t := StripRuns(s, k); t == [] || (!InClass(k, t[0]) && !InClass(k, t[|t| - 1]))
  {
    var i := StripStartAt(s, k);
    var u := s[i..];
    var j := StripEndAt(u, k);
    assert u[..j] == s[i..i + j];
    forall n | i + j <= n < |s| ensures InClass(k, s[n]) {
      assert s[n] == u[n - i];
    }
  }

  lemma {:induction false} StripStartAt(s: string, k: CharClass) returns (i: nat)
    ensures i <= |s| && StripStart(s, k) == s[i..]
    ensures forall n :: 0 <= n < i ==> InClass(k, s[n])
    ensures i < |s| ==> !InClass(k, s[i])
    decreases |s|
  {
    if s != [] && InClass(k, s[0]) {
      var j := StripStartAt(s[1..], k);
      i := j + 1;
      assert s[1..][j..] == s[i..];
      forall n | 0 < n < i ensures InClass(k, s[n]) {
        assert s[n] == s[1..][n - 1];
      }
    } else {
      i := 0;
    }
  }

  lemma {:induction false} StripEndAt(s: string, k: CharClass) returns (j: nat)
    ensures j <= |s| && StripEnd(s, k) == s[..j]
    ensures forall n :: j <= n < |s| ==> InClass(k, s[n])
    ensures j > 0 ==> !InClass(k, s[j - 1])
    decreases |s|
  {
    if s != [] && InClass(k, s[|s| - 1]) {
      j := StripEndAt(s[..|s| - 1], k);
      assert s[..|s| - 1][..j] == s[..j];
    } else {
      j := |s|;
    }
  }

  /** A string with no class character at either end is left as it is. */
  lemma {:induction false} StripIdentity(s: string, k: CharClass)
    requires s == [] || (!InClass(k, s[0]) && !InClass(k, s[|s| - 1]))
    ensures StripRuns(s, k) == s
  {
    if s != [] {
      assert StripStart(s, k) == s;
    }
  }

  /** Stripping twice is stripping once. */
  lemma {:induction false} StripIdempotent(s: string, k: CharClass)
    ensures StripRuns(StripRuns(s, k), k) == StripRuns(s, k)
  {
    StripShape(s, k);
    StripIdentity(StripRuns(s, k), k);
  }
}
