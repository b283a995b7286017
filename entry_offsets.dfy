// The line-by-line restart-point scan shared by `messageStartingPositions`
// (fluent/src/parser.js) and `messageOffsets` (fluent/src/lexer.js): both
// test `messageStartRe` at every line start and break at the last line.

module EntryOffsets {
  import opened Text

  /** `messageStartRe` (`/^-?[a-zA-Z][a-zA-Z0-9_-]*[ \t]*=?/my`) tested with
      `lastIndex = i` at a line start: the tail after the first letter can
      match the empty string, so the test succeeds exactly when an optional
      `-` and then an ASCII letter stand at `i`. */
  predicate MessageStartAt(s: string, i: nat) {
    (Is(s, i, '-') && i + 1 < |s| && IsAsciiLetter(s[i + 1]))
    || (i < |s| && IsAsciiLetter(s[i]))
  }

  /** Position 0 or a position right after a line feed. */
  predicate LineStart(s: string, p: nat) {
    p == 0 || (p <= |s| && s[p - 1] == '\n')
  }

  predicate StrictlyIncreasing(xs: seq<nat>) {
    forall a, b :: 0 <= a < b < |xs| ==> xs[a] < xs[b]
  }

  /** The offsets the scan yields when it starts its loop at `from`. */
  function Offsets(s: string, from: nat): seq<nat>
    decreases |s| - from
  {
    var here := if MessageStartAt(s, from) then [from] else [];
    var e := IndexOf(s, '\n', from);
    if e == -1 then here else here + Offsets(s, e + 1)
  }

  /** One turn of the scan's loop keeps "the offsets yielded so far,
      followed by those the scan yields from here, are all the offsets". */
  lemma ScanStep(s: string, acc: seq<nat>, from: nat)
    requires acc + Offsets(s, from) == Offsets(s, 0)
    ensures var acc' := acc + (if MessageStartAt(s, from) then [from] else []);
      var e := IndexOf(s, '\n', from);
      (e == -1 ==> acc' == Offsets(s, 0)) && (e != -1 ==> acc' + Offsets(s, e + 1) == Offsets(s, 0))
  {
    var here := if MessageStartAt(s, from) then [from] else [];
    var e := IndexOf(s, '\n', from);
    if e != -1 {
      assert Offsets(s, from) == here + Offsets(s, e + 1);
      assert acc + (here + Offsets(s, e + 1)) == (acc + here) + Offsets(s, e + 1);
    }
  }

  /** Every offset lies at or after `from`, is below the length of the
      source, satisfies `messageStartRe`, and is `from` itself or just after
      a line feed; the offsets strictly increase. */
  lemma {:induction false} OffsetsSound(s: string, from: nat)
    ensures StrictlyIncreasing(Offsets(s, from))
    ensures forall k :: 0 <= k < |Offsets(s, from)| ==>
      var p := Offsets(s, from)[k];
      from <= p < |s| && MessageStartAt(s, p) && (p == from || s[p - 1] == '\n')
    decreases |s| - from
  {
    var e := IndexOf(s, '\n', from);
    if e != -1 {
      IndexOfFirst(s, '\n', from);
      OffsetsSound(s, e + 1);
    }
  }

  /** Every line start at or after `from` that satisfies `messageStartRe`
      is yielded. */
  lemma {:induction false} OffsetsComplete(s: string, from: nat, p: nat)
    requires from <= p
    requires p == from || (p <= |s| && s[p - 1] == '\n')
    requires MessageStartAt(s, p)
    ensures p in Offsets(s, from)
    decreases |s| - from
  {
    var e := IndexOf(s, '\n', from);
    IndexOfFirst(s, '\n', from);
    if p != from {
      // The line feed just before p is at or after `from`, so the scan
      // reaches a later line start no later than p.
      assert from <= p - 1 < |s| && s[p - 1] == '\n';
      assert e != -1 && e <= p - 1;
      OffsetsComplete(s, e + 1, p);
    }
  }

  /** The yielded offsets of the whole source are exactly the line starts
      satisfying `messageStartRe`, in increasing order and each below the
      length of the source. */
  lemma MessageOffsetsCharacterized(s: string)
    ensures StrictlyIncreasing(Offsets(s, 0))
    ensures forall p: nat :: p in Offsets(s, 0) <==> p < |s| && LineStart(s, p) && MessageStartAt(s, p)
  {
    OffsetsSound(s, 0);
    forall p: nat | p < |s| && LineStart(s, p) && MessageStartAt(s, p)
      ensures p in Offsets(s, 0)
    {
      OffsetsComplete(s, 0, p);
    }
  }
}
