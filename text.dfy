// Character classes and the few JavaScript string primitives that the
// scanners use (`s[i]`, `indexOf`, `lastIndexOf`, `slice`), written out with
// JavaScript's out-of-range behaviour: reading past the end yields
// `undefined` (here `None`), `indexOf` yields -1 when nothing is found.

module Text {

  datatype Option<+T> = None | Some(value: T)

  /** `s[i]` in JavaScript: the character, or `undefined` past the end. */
  function At(s: string, i: int): (r: Option<char>)
    ensures r.Some? <==> 0 <= i < |s|
  {
    if 0 <= i < |s| then Some(s[i]) else None
  }

  /** `s[i] === c`. */
  predicate Is(s: string, i: int, c: char) {
    0 <= i < |s| && s[i] == c
  }

  predicate IsAsciiLetter(c: char) {
    ('a' <= c <= 'z') || ('A' <= c <= 'Z')
  }

  predicate IsDigit(c: char) {
    '0' <= c <= '9'
  }

  /** `[ \t]` */
  predicate IsInlineSpace(c: char) {
    c == ' ' || c == '\t'
  }

  /** JavaScript's `\s`: the ASCII white space characters, the no-break
      space, the Unicode space separators, the line and paragraph
      separators and the byte order mark. */
  predicate IsWhitespace(c: char) {
    c == ' ' || c == '\t' || c == '\n' || c == '\r' || c == '\U{000B}' || c == '\U{000C}'
    || c == '\U{00A0}' || c == '\U{1680}' || ('\U{2000}' <= c <= '\U{200A}')
    || c == '\U{2028}' || c == '\U{2029}' || c == '\U{202F}' || c == '\U{205F}'
    || c == '\U{3000}' || c == '\U{FEFF}'
  }

  /** The characters JavaScript's `.` does not match. */
  predicate IsLineTerminator(c: char) {
    c == '\n' || c == '\r' || c == '\U{2028}' || c == '\U{2029}'
  }

  /** The character classes that appear behind a `*` or `+` in the scanners. */
  datatype CharClass =
    | InlineSpace      // [ \t]
    | IdentChar        // [a-zA-Z0-9_-]
    | Digit            // [0-9]
    | Newline          // \n
    | Dot              // \.
    | VariantNameChar  // a-z A-Z 0-9 _ - and space (getVariantName's loop)
    | Whitespace       // \s
    | ValueChar        // [^\s{}]

  predicate InClass(c: char, k: CharClass) {
    match k
    case InlineSpace => IsInlineSpace(c)
    case IdentChar => IsAsciiLetter(c) || IsDigit(c) || c == '_' || c == '-'
    case Digit => IsDigit(c)
    case Newline => c == '\n'
    case Dot => c == '.'
    case VariantNameChar => IsAsciiLetter(c) || IsDigit(c) || c == '_' || c == '-' || c == ' '
    case Whitespace => IsWhitespace(c)
    case ValueChar => !IsWhitespace(c) && c != '{' && c != '}'
  }

  /** The end of the longest run of class `k` that starts at `i`: a greedy
      `[k]*` anchored at `i`. */
  function Span(s: string, i: nat, k: CharClass): (j: nat)
    decreases |s| - i
    ensures i <= j
    ensures i <= |s| ==> j <= |s|
    ensures j < |s| ==> !InClass(s[j], k)
  {
    if i < |s| && InClass(s[i], k) then Span(s, i + 1, k) else i
  }

  /** Every character the run passes over is of class `k`. */
  lemma {:induction false} SpanRun(s: string, i: nat, k: CharClass)
    decreases |s| - i
    ensures forall p :: i <= p < Span(s, i, k) ==> p < |s| && InClass(s[p], k)
  {
    if i < |s| && InClass(s[i], k) {
      assert Span(s, i, k) == Span(s, i + 1, k);
      SpanRun(s, i + 1, k);
    } else {
      assert Span(s, i, k) == i;
    }
  }

  /** `s.indexOf(c, from)`: the first position at or after `from` holding
      `c`, or -1. */
  function IndexOf(s: string, c: char, from: nat): (r: int)
    decreases |s| - from
    ensures r == -1 || (from <= r < |s| && s[r] == c)
  {
    if from >= |s| then -1
    else if s[from] == c then from
    else IndexOf(s, c, from + 1)
  }

  /** No `c` stands between `from` and the position found, or anywhere
      after `from` when none is found. */
  lemma {:induction false} IndexOfFirst(s: string, c: char, from: nat)
    decreases |s| - from
    ensures IndexOf(s, c, from) == -1 ==> forall p :: from <= p < |s| ==> s[p] != c
    ensures IndexOf(s, c, from) != -1 ==> forall p :: from <= p < IndexOf(s, c, from) ==> s[p] != c
  {
    if from < |s| && s[from] != c {
      IndexOfFirst(s, c, from + 1);
    }
  }

  /** `s.lastIndexOf(c, from)`: the last position at or before `from`
      holding `c`, or -1. */
  function LastIndexOf(s: string, c: char, from: int): (r: int)
    decreases if from < 0 then 0 else from + 1
    ensures r == -1 || (0 <= r <= from && r < |s| && s[r] == c)
  {
    if from < 0 then -1
    else if from >= |s| then LastIndexOf(s, c, |s| - 1)
    else if s[from] == c then from
    else LastIndexOf(s, c, from - 1)
  }

  /** No `c` stands after the position found, up to `from`. */
  lemma {:induction false} LastIndexOfLast(s: string, c: char, from: int)
    decreases if from < 0 then 0 else from + 1
    ensures LastIndexOf(s, c, from) == -1 ==> forall p :: 0 <= p <= from && p < |s| ==> s[p] != c
    ensures LastIndexOf(s, c, from) != -1 ==> forall p :: LastIndexOf(s, c, from) < p <= from && p < |s| ==> s[p] != c
  {
    if from >= |s| {
      LastIndexOfLast(s, c, |s| - 1);
    } else if 0 <= from && s[from] != c {
      LastIndexOfLast(s, c, from - 1);
    }
  }

  /** `lastIndexOf` finds a `c` no earlier than any `c` at or before `from`. */
  lemma LastIndexOfAtLeast(s: string, c: char, from: int, p: nat)
    requires p <= from && p < |s| && s[p] == c
    ensures LastIndexOf(s, c, from) >= p
  {
    LastIndexOfLast(s, c, from);
  }

  /** `s.slice(a, b)` (equally `s.substring(a, b)` when a <= b) for
      non-negative bounds: the end is clamped to the length and an inverted
      range is empty. */
  function Slice(s: string, a: nat, b: nat): (r: string)
    decreases b - a
  {
    if a < b && a < |s| then [s[a]] + Slice(s, a + 1, b) else ""
  }

  /** Within bounds, `slice` is the subsequence. */
  lemma {:induction false} SliceIsSubsequence(s: string, a: nat, b: nat)
    requires a <= b <= |s|
    decreases b - a
    ensures Slice(s, a, b) == s[a..b]
  {
    if a < b {
      SliceIsSubsequence(s, a + 1, b);
      assert s[a..b] == [s[a]] + s[a + 1..b];
    }
  }

  /** `s.includes(c)` */
  predicate Includes(s: string, c: char)
    decreases |s|
  {
    |s| > 0 && (s[0] == c || Includes(s[1..], c))
  }

  lemma {:induction false} IncludesIsMembership(s: string, c: char)
    decreases |s|
    ensures Includes(s, c) <==> c in s
  {
    if |s| > 0 {
      IncludesIsMembership(s[1..], c);
      assert s == [s[0]] + s[1..];
    }
  }

  /** The number of occurrences of `c` in `s`. */
  function Count(s: string, c: char): (n: nat)
    ensures n <= |s|
    ensures n == 0 <==> c !in s
  {
    if s == [] then 0 else (if s[0] == c then 1 else 0) + Count(s[1..], c)
  }

  lemma CountAppend(a: string, b: string, c: char)
    ensures Count(a + b, c) == Count(a, c) + Count(b, c)
  {
    if a != [] {
      assert (a + b)[0] == a[0];
      assert (a + b)[1..] == a[1..] + b;
      CountAppend(a[1..], b, c);
    } else {
      assert a + b == b;
    }
  }

  /** `s.split(c)`: the pieces between the occurrences of `c`, at least
      one (`"".split(c)` is `[""]`). */
  function Split(s: string, c: char): (r: seq<string>)
    ensures |r| >= 1
  {
    if s == [] then [""]
    else
      var rest := Split(s[1..], c);
      if s[0] == c then [""] + rest else [[s[0]] + rest[0]] + rest[1..]
  }

  /** `parts.join(sep)` */
  function Join(parts: seq<string>, sep: string): string
    decreases |parts|
  {
    if |parts| == 0 then "" else if |parts| == 1 then parts[0] else parts[0] + sep + Join(parts[1..], sep)
  }

  /** Every occurrence of `c` replaced by `rep`, all else kept. */
  function ReplaceChar(s: string, c: char, rep: string): string
    decreases |s|
  {
    if s == [] then "" else (if s[0] == c then rep else [s[0]]) + ReplaceChar(s[1..], c, rep)
  }

  /** No piece that `split` returns holds the separator. */
  lemma {:induction false} SplitPiecesFree(s: string, c: char)
    decreases |s|
    ensures forall k :: 0 <= k < |Split(s, c)| ==> c !in Split(s, c)[k]
  {
    if s != [] {
      SplitPiecesFree(s[1..], c);
    }
  }

  lemma JoinCons(x: string, tail: seq<string>, sep: string)
    ensures Join([x] + tail, sep) == if tail == [] then x else x + sep + Join(tail, sep)
  {
    assert ([x] + tail)[1..] == tail;
  }

  lemma {:induction false} JoinSnoc(parts: seq<string>, x: string, sep: string)
    decreases |parts|
    ensures Join(parts + [x], sep) == if parts == [] then x else Join(parts, sep) + sep + x
  {
    if |parts| >= 2 {
      assert (parts + [x])[1..] == parts[1..] + [x];
      JoinSnoc(parts[1..], x, sep);
    } else if |parts| == 1 {
      assert parts + [x] == [parts[0], x];
    }
  }

  /** Splitting on `c` and joining with `rep` replaces each `c` by `rep`. */
  lemma {:induction false} JoinSplit(s: string, c: char, rep: string)
    decreases |s|
    ensures Join(Split(s, c), rep) == ReplaceChar(s, c, rep)
  {
    if s != [] {
      JoinSplit(s[1..], c, rep);
      JoinSplitStep(s, c, rep);
    }
  }

  /** JoinSplit's step from the rest of `s` to `s`. */
  lemma {:induction false} JoinSplitStep(s: string, c: char, rep: string)
    requires s != [] && Join(Split(s[1..], c), rep) == ReplaceChar(s[1..], c, rep)
    ensures Join(Split(s, c), rep) == ReplaceChar(s, c, rep)
  {
    if s[0] == c {
      JoinSplitAtSeparator(s, c, rep);
    } else {
      JoinSplitAtOther(s, c, rep);
    }
  }

  /** The step when `s` starts with the separator: an empty first piece. */
  lemma {:induction false} JoinSplitAtSeparator(s: string, c: char, rep: string)
    requires s != [] && s[0] == c && Join(Split(s[1..], c), rep) == ReplaceChar(s[1..], c, rep)
    ensures Join(Split(s, c), rep) == ReplaceChar(s, c, rep)
  {
    var rest := Split(s[1..], c);
    assert ReplaceChar(s, c, rep) == rep + ReplaceChar(s[1..], c, rep);
    assert Split(s, c) == [""] + rest;
    JoinCons("", rest, rep);
  }

  /** The step when it does not: the character joins the first piece. */
  lemma {:induction false} JoinSplitAtOther(s: string, c: char, rep: string)
    requires s != [] && s[0] != c && Join(Split(s[1..], c), rep) == ReplaceChar(s[1..], c, rep)
    ensures Join(Split(s, c), rep) == ReplaceChar(s, c, rep)
  {
    var rest := Split(s[1..], c);
    assert ReplaceChar(s, c, rep) == [s[0]] + ReplaceChar(s[1..], c, rep);
    assert Split(s, c) == [[s[0]] + rest[0]] + rest[1..];
    JoinPrependChar(s[0], rest, rep);
  }

  /** A character put in front of the first part comes first in the join. */
  lemma {:induction false} JoinPrependChar(ch: char, parts: seq<string>, sep: string)
    requires |parts| >= 1
    ensures Join([[ch] + parts[0]] + parts[1..], sep) == [ch] + Join(parts, sep)
  {
    var more := if parts[1..] == [] then "" else sep + Join(parts[1..], sep);
    JoinCons([ch] + parts[0], parts[1..], sep);
    JoinCons(parts[0], parts[1..], sep);
    assert parts == [parts[0]] + parts[1..];
    assert Join(parts, sep) == parts[0] + more;
    assert ([ch] + parts[0]) + more == [ch] + (parts[0] + more);
  }

  /** Splitting a string that starts with a piece free of `c`. */
  lemma {:induction false} SplitPrepend(x: string, t: string, c: char)
    requires c !in x
    decreases |x|
    ensures Split(x + t, c) == [x + Split(t, c)[0]] + Split(t, c)[1..]
  {
    if x != [] {
      assert (x + t)[1..] == x[1..] + t;
      SplitPrepend(x[1..], t, c);
      assert [x[0]] + (x[1..] + Split(t, c)[0]) == x + Split(t, c)[0];
    } else {
      assert x + t == t;
      assert Split(t, c) == [Split(t, c)[0]] + Split(t, c)[1..];
      assert x + Split(t, c)[0] == Split(t, c)[0];
    }
  }

  /** Joining pieces free of `c` with `c` and splitting again gives the
      pieces back. */
  lemma {:induction false} SplitJoin(parts: seq<string>, c: char)
    requires |parts| >= 1
    requires forall k :: 0 <= k < |parts| ==> c !in parts[k]
    decreases |parts|
    ensures Split(Join(parts, [c]), c) == parts
  {
    if |parts| == 1 {
      SplitPrepend(parts[0], "", c);
      assert parts[0] + "" == parts[0];
    } else {
      var rest := Join(parts[1..], [c]);
      SplitJoin(parts[1..], c);
      assert Join(parts, [c]) == parts[0] + ([c] + rest);
      assert ([c] + rest)[1..] == rest;
      assert Split([c] + rest, c) == [""] + parts[1..];
      SplitPrepend(parts[0], [c] + rest, c);
      assert parts[0] + "" == parts[0];
      assert parts == [parts[0]] + parts[1..];
    }
  }

  /** `split` returns one piece more than there are separators. */
  lemma {:induction false} SplitCount(s: string, c: char)
    decreases |s|
    ensures |Split(s, c)| == Count(s, c) + 1
  {
    if s != [] {
      SplitCount(s[1..], c);
    }
  }

  /** ReplaceChar's effect on the length. */
  lemma {:induction false} ReplaceCharLength(s: string, c: char, rep: string)
    decreases |s|
    ensures |ReplaceChar(s, c, rep)| == |s| + (|rep| - 1) * Count(s, c)
  {
    if s != [] {
      ReplaceCharLength(s[1..], c, rep);
      var n := Count(s[1..], c);
      assert |ReplaceChar(s[1..], c, rep)| == |s| - 1 + (|rep| - 1) * n;
      if s[0] == c {
        assert Count(s, c) == n + 1;
        assert (|rep| - 1) * (n + 1) == (|rep| - 1) * n + (|rep| - 1);
      } else {
        assert Count(s, c) == n;
      }
    }
  }

  /** Replacing a character that does not occur changes nothing. */
  lemma {:induction false} ReplaceAbsent(s: string, c: char, rep: string)
    requires c !in s
    decreases |s|
    ensures ReplaceChar(s, c, rep) == s
  {
    if s != [] {
      assert c !in s[1..] by { assert forall k :: 0 <= k < |s[1..]| ==> s[1..][k] == s[k + 1]; }
      ReplaceAbsent(s[1..], c, rep);
      assert s == [s[0]] + s[1..];
    }
  }

  /** Replacing `c` by itself changes nothing. */
  lemma {:induction false} ReplaceSelf(s: string, c: char)
    decreases |s|
    ensures ReplaceChar(s, c, [c]) == s
  {
    if s != [] {
      ReplaceSelf(s[1..], c);
      assert s == [s[0]] + s[1..];
    }
  }

  /** `a.concat(b).join('')` */
  lemma {:induction false} JoinConcat(a: seq<string>, b: seq<string>)
    decreases |b|
    ensures Join(a + b, "") == Join(a, "") + Join(b, "")
  {
    if b != [] {
      var init := b[..|b| - 1];
      var last := b[|b| - 1];
      assert b == init + [last];
      assert a + b == (a + init) + [last];
      JoinConcat(a, init);
      JoinSnoc(a + init, last, "");
      JoinSnoc(init, last, "");
      if init == [] {
        assert a + init == a;
      }
    } else {
      assert a + b == a;
    }
  }
}
