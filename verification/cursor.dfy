/**
 * The character cursor of the older front end: a reader over the source
 * that hands out characters one at a time and answers the EOF sentinel once
 * the source is exhausted. The Rust iterator over the string is modelled by
 * the number of characters already consumed.
 */
module Cursor {
  import opened Chars

  datatype Cursor = Cursor(source: string, pos: nat)
  {
    ghost predicate Valid() {
      pos <= |source|
    }
  }

  /** `Cursor::new`: nothing consumed yet. */
  function New(s: string): (c: Cursor)
    ensures c.Valid() && c.source == s && c.pos == 0
  {
    Cursor(s, 0)
  }

  /** `Cursor::lookahead(n)`: the n-th remaining character, without consuming it. */
  function Lookahead(c: Cursor, n: nat): (ch: char)
    requires c.Valid()
    ensures c.pos + n < |c.source| ==> ch == c.source[c.pos + n]
    ensures c.pos + n >= |c.source| ==> ch == EOF_CHAR
  {
    if c.pos + n < |c.source| then c.source[c.pos + n] else EOF_CHAR
  }

  /** `Cursor::advance`: the next character, consumed; the sentinel, unconsumed, at the end. */
  function Advance(c: Cursor): (r: (char, Cursor))
    requires c.Valid()
    ensures r.1.Valid() && r.1.source == c.source
    ensures r.0 == Lookahead(c, 0)
    ensures c.pos < |c.source| ==> r.1.pos == c.pos + 1
    ensures c.pos == |c.source| ==> r.1 == c
  {
    if c.pos < |c.source| then (c.source[c.pos], c.(pos := c.pos + 1))
    else (EOF_CHAR, c)
  }

  /**
   * `Cursor::is_at_end`: the next character is the sentinel. This is true at
   * the end of the source and also in front of a NUL character inside it.
   */
  function IsAtEnd(c: Cursor): (b: bool)
    requires c.Valid()
    ensures b <==> (c.pos == |c.source| || c.source[c.pos] == EOF_CHAR)
  {
    Lookahead(c, 0) == EOF_CHAR
  }

  /**
   * `Cursor::bytes_remaining`: on ASCII sources every character is one
   * byte, so this is the number of characters not yet consumed.
   */
  function BytesRemaining(c: Cursor): (n: nat)
    requires c.Valid()
    ensures n == 0 <==> c.pos == |c.source|
    ensures n <= |c.source|
  {
    |c.source| - c.pos
  }

  /** Lookahead does not consume: it commutes with the next `advance`. */
  lemma LookaheadThenAdvance(c: Cursor)
    requires c.Valid()
    ensures Advance(c).0 == Lookahead(c, 0)
    ensures forall n: nat :: Lookahead(Advance(c).1, n) == (if c.pos < |c.source| then Lookahead(c, n + 1) else EOF_CHAR)
  {
  }

  /** `bytes_remaining` drops by one per `advance` and stays 0 once exhausted. */
  lemma AdvanceConsumesOneByte(c: Cursor)
    requires c.Valid()
    ensures BytesRemaining(Advance(c).1) == (if BytesRemaining(c) > 0 then BytesRemaining(c) - 1 else 0)
  {
  }

  /** The characters returned by `k` consecutive calls to `advance`, and the cursor after them. */
  function AdvanceMany(c: Cursor, k: nat): (r: (string, Cursor))
    requires c.Valid()
    ensures |r.0| == k && r.1.Valid() && r.1.source == c.source
    decreases k
  {
    if k == 0 then ("", c)
    else
      var (ch, c1) := Advance(c);
      var (rest, c2) := AdvanceMany(c1, k - 1);
      ([ch] + rest, c2)
  }

  /** A run of `k` sentinel characters. */
  function EofRun(k: nat): (s: string)
    ensures |s| == k && forall i :: 0 <= i < k ==> s[i] == EOF_CHAR
  {
    if k == 0 then "" else [EOF_CHAR] + EofRun(k - 1)
  }

  /**
   * `advance` hands out the unread characters in order and then the sentinel
   * forever: k calls from position `pos` return the next k characters of the
   * source, padded with sentinels past its end.
   */
  lemma {:induction false} AdvanceManyReadsSource(c: Cursor, k: nat)
    requires c.Valid()
    ensures var n := if c.pos + k <= |c.source| then k else |c.source| - c.pos;
      AdvanceMany(c, k).0 == c.source[c.pos .. c.pos + n] + EofRun(k - n)
    ensures AdvanceMany(c, k).1.pos == if c.pos + k <= |c.source| then c.pos + k else |c.source|
    decreases k
  {
    if k == 0 {
    } else {
      var (ch, c1) := Advance(c);
      AdvanceManyReadsSource(c1, k - 1);
      if c.pos < |c.source| {
        assert c.source[c.pos .. c1.pos] == [ch];
      }
    }
  }

  /** The cursor's own examples: "one" reads o, n, e, then EOF; "" reads EOF at once and is at its end. */
  lemma CursorExamples()
    ensures AdvanceMany(New("one"), 4).0 == "one" + [EOF_CHAR]
    ensures AdvanceMany(New(""), 1).0 == [EOF_CHAR]
    ensures Lookahead(New("one"), 0) == 'o' && Lookahead(New(""), 0) == EOF_CHAR
    ensures IsAtEnd(New(""))
    ensures BytesRemaining(New("one")) == 3 && BytesRemaining(AdvanceMany(New("one"), 3).1) == 0
    ensures BytesRemaining(Advance(New("")).1) == 0
  {
    AdvanceManyReadsSource(New("one"), 4);
    AdvanceManyReadsSource(New("one"), 3);
    AdvanceManyReadsSource(New(""), 1);
  }
}
