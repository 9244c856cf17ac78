/** The string operations the chat session relies on: `String.prototype.trim`,
    `split(' ')` and `Array.prototype.join(' ')`. */
module Text {

  /** The code points `trim()` removes: ECMAScript WhiteSpace (TAB, VT, FF,
      ZWNBSP and every space separator) and LineTerminator (LF, CR, LS, PS). */
  predicate IsWhitespace(c: char)
  {
    || c == '\t' || c == '\n' || c == '\U{000B}' || c == '\U{000C}' || c == '\r'
    || c == ' ' || c == '\U{00A0}' || c == '\U{1680}'
    || ('\U{2000}' <= c <= '\U{200A}')
    || c == '\U{2028}' || c == '\U{2029}' || c == '\U{202F}' || c == '\U{205F}'
    || c == '\U{3000}' || c == '\U{FEFF}'
  }

  predicate AllWhitespace(s: string)
  {
    forall i :: 0 <= i < |s| ==> IsWhitespace(s[i])
  }

  /** How many whitespace characters `s` starts with. */
  function LeadingWhitespace(s: string): (n: nat)
    ensures n <= |s|
    ensures forall i :: 0 <= i < n ==> IsWhitespace(s[i])
    ensures n < |s| ==> !IsWhitespace(s[n])
  {
    if s == [] || !IsWhitespace(s[0]) then 0 else 1 + LeadingWhitespace(s[1..])
  }

  /** How many whitespace characters `s` ends with. */
  function TrailingWhitespace(s: string): (n: nat)
    ensures n <= |s|
    ensures forall i :: |s| - n <= i < |s| ==> IsWhitespace(s[i])
    ensures n < |s| ==> !IsWhitespace(s[|s| - n - 1])
  {
    if s == [] || !IsWhitespace(s[|s| - 1]) then 0 else 1 + TrailingWhitespace(s[..|s| - 1])
  }

  /** `s.trim()`: `s` without its leading and trailing whitespace. */
  function Trim(s: string): string
  {
    var lo := LeadingWhitespace(s);
    if lo == |s| then [] else s[lo..|s| - TrailingWhitespace(s)]
  }

  /** `trim()` keeps a contiguous part of `s`, starting after its leading whitespace. */
  lemma TrimIsInfix(s: string)
    ensures LeadingWhitespace(s) + |Trim(s)| <= |s|
    ensures Trim(s) == s[LeadingWhitespace(s)..LeadingWhitespace(s) + |Trim(s)|]
  {
    var lo := LeadingWhitespace(s);
    if lo < |s| {
      var hi := |s| - TrailingWhitespace(s);
      assert Trim(s) == s[lo..hi];
      assert lo + |Trim(s)| == hi;
    } else {
      assert Trim(s) == [];
    }
  }

  /** What `trim()` drops on either side is whitespace only. */
  lemma TrimDropsOnlyWhitespace(s: string)
    ensures forall i :: 0 <= i < LeadingWhitespace(s) ==> IsWhitespace(s[i])
    ensures forall i :: LeadingWhitespace(s) + |Trim(s)| <= i < |s| ==> IsWhitespace(s[i])
  {
    var lo := LeadingWhitespace(s);
    if lo < |s| {
      var n := TrailingWhitespace(s);
      assert |Trim(s)| == |s| - n - lo;
    }
  }

  /** What `trim()` keeps neither starts nor ends with whitespace. */
  lemma TrimKeepsNoOuterWhitespace(s: string)
    ensures Trim(s) != [] ==> !IsWhitespace(Trim(s)[0]) && !IsWhitespace(Trim(s)[|Trim(s)| - 1])
  {
    var lo := LeadingWhitespace(s);
    if lo < |s| {
      var n := TrailingWhitespace(s);
      var r := s[lo..|s| - n];
      assert Trim(s) == r;
      assert r[0] == s[lo];
      assert r[|r| - 1] == s[|s| - n - 1];
    }
  }

  /** The guard `!text.trim()`: the trimmed text is empty exactly when every
      character of `text` is whitespace. */
  lemma BlankIffAllWhitespace(s: string)
    ensures Trim(s) == [] <==> AllWhitespace(s)
  {
    TrimIsInfix(s);
    TrimDropsOnlyWhitespace(s);
    if Trim(s) != [] {
      assert !IsWhitespace(s[LeadingWhitespace(s)]);
    }
  }

  /** Trimming twice is trimming once. */
  lemma TrimIdempotent(s: string)
    ensures Trim(Trim(s)) == Trim(s)
  {
    TrimKeepsNoOuterWhitespace(s);
    var r := Trim(s);
    if r != [] {
      assert LeadingWhitespace(r) == 0;
      assert TrailingWhitespace(r) == 0;
      assert r[0..|r| - 0] == r;
    }
  }

  /** `s.split(sep)` for a one-character separator: the pieces between
      consecutive separators, so the empty string splits into one empty piece. */
  function Split(s: string, sep: char): (words: seq<string>)
    ensures |words| >= 1
    ensures forall i :: 0 <= i < |words| ==> sep !in words[i]
  {
    if s == [] then [[]]
    else
      var rest := Split(s[1..], sep);
      if s[0] == sep then [[]] + rest
      else [[s[0]] + rest[0]] + rest[1..]
  }

  /** `words.join(sep)`; the empty array joins to the empty string. */
  function Join(words: seq<string>, sep: char): string
  {
    if |words| == 0 then []
    else if |words| == 1 then words[0]
    else words[0] + [sep] + Join(words[1..], sep)
  }

  /** How many times `c` occurs in `s`. */
  function Occurrences(s: string, c: char): nat
  {
    if s == [] then 0 else (if s[0] == c then 1 else 0) + Occurrences(s[1..], c)
  }

  /** There is one piece more than there are separators. */
  lemma {:induction false} SplitLength(s: string, sep: char)
    ensures |Split(s, sep)| == Occurrences(s, sep) + 1
  {
    if s != [] {
      SplitLength(s[1..], sep);
    }
  }

  /** Joining the pieces of a split gives back the original text. */
  lemma {:induction false} JoinSplit(s: string, sep: char)
    ensures Join(Split(s, sep), sep) == s
  {
    if s != [] {
      var rest := Split(s[1..], sep);
      JoinSplit(s[1..], sep);
      if s[0] == sep {
        assert ([[]] + rest)[1..] == rest;
      } else if |rest| > 1 {
        var words := [[s[0]] + rest[0]] + rest[1..];
        assert words[1..] == rest[1..];
      }
    }
  }

  /** Splitting off a leading piece that holds no separator. */
  lemma {:induction false} SplitAfterWord(w: string, rest: string, sep: char)
    requires sep !in w
    ensures Split(w + rest, sep) == [w + Split(rest, sep)[0]] + Split(rest, sep)[1..]
  {
    if w != [] {
      assert (w + rest)[0] == w[0];
      assert (w + rest)[1..] == w[1..] + rest;
      SplitAfterWord(w[1..], rest, sep);
      assert [w[0]] + (w[1..] + Split(rest, sep)[0]) == w + Split(rest, sep)[0];
    } else {
      var words := Split(rest, sep);
      assert w + rest == rest;
      assert w + words[0] == words[0];
      assert [words[0]] + words[1..] == words;
    }
  }

  /** Splitting a join of separator-free pieces gives back the pieces. */
  lemma {:induction false} SplitJoin(words: seq<string>, sep: char)
    requires |words| >= 1
    requires forall i :: 0 <= i < |words| ==> sep !in words[i]
    ensures Split(Join(words, sep), sep) == words
  {
    if |words| == 1 {
      SplitAfterWord(words[0], [], sep);
      assert words[0] + [] == words[0];
    } else {
      var tail := Join(words[1..], sep);
      SplitJoin(words[1..], sep);
      SplitAfterWord(words[0], [sep] + tail, sep);
      assert words[0] + [sep] + tail == words[0] + ([sep] + tail);
      assert ([sep] + tail)[1..] == tail;
      assert Split([sep] + tail, sep) == [[]] + words[1..];
      assert words[0] + [] == words[0];
      assert [words[0]] + words[1..] == words;
    }
  }

  /** A join splits at any inner position into the join of the first `k` pieces,
      a separator and the join of the others. */
  lemma {:induction false} JoinSplitsAt(words: seq<string>, k: nat, sep: char)
    requires 1 <= k < |words|
    ensures Join(words, sep) == Join(words[..k], sep) + [sep] + Join(words[k..], sep)
  {
    if k > 1 {
      JoinSplitsAt(words[1..], k - 1, sep);
      assert words[1..][..k - 1] == words[..k][1..];
      assert words[1..][k - 1..] == words[k..];
    }
  }

  /** Each typing step shows one more piece than the step before it, after a
      single separator: no piece is skipped or reordered. */
  lemma NextTypingStep(words: seq<string>, k: nat, sep: char)
    requires 1 <= k < |words|
    ensures Join(words[..k + 1], sep) == Join(words[..k], sep) + [sep] + words[k]
  {
    JoinSplitsAt(words[..k + 1], k, sep);
    assert words[..k + 1][..k] == words[..k];
    assert words[..k + 1][k..] == [words[k]];
  }

  /** Every text the typing animation shows is a prefix of the final text. */
  lemma TypingStepIsPrefix(text: string, k: nat, sep: char)
    requires 1 <= k <= |Split(text, sep)|
    ensures Join(Split(text, sep)[..k], sep) <= text
  {
    var words := Split(text, sep);
    JoinSplit(text, sep);
    if k < |words| {
      JoinSplitsAt(words, k, sep);
    } else {
      assert words[..k] == words;
    }
  }
}
