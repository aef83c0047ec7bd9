/** The part of a parsed HTML document that the extraction reads, with the two ways
    the extraction turns an element into text. A document is its `tr` rows in
    document order, a row is its `td` cells in order, and an element's text is the
    sequence of its descendant text nodes in document order. */
module Soup {
  import opened Text

  /** The text nodes under one element, in document order. */
  type Fragments = seq<string>

  /** One `td` cell: all the text nodes under it, and, for each `a` element under
      it in document order, the text nodes under that link. */
  datatype Cell = Cell(text: Fragments, links: seq<Fragments>)

  /** One `tr` row: its `td` cells in order. */
  type Row = seq<Cell>

  /** `element.get_text(strip=True)`: every text node is stripped on its own, and
      the stripped pieces are joined with nothing between them. */
  function JoinStripped(text: Fragments): string {
    if text == [] then [] else Strip(text[0]) + JoinStripped(text[1..])
  }

  /** `element.text.strip()`: the text nodes are joined first and the whole string
      is stripped once. */
  function StripJoined(text: Fragments): string {
    Strip(Concat(text))
  }

  /** Text read with `get_text(strip=True)` has no whitespace at either end: an
      empty stripped node adds nothing, and a non-empty one starts and ends with
      non-whitespace. */
  lemma {:induction false} JoinStrippedTrimmed(text: Fragments)
    ensures NoEdgeSpace(JoinStripped(text))
  {
    if text != [] {
      JoinStrippedTrimmed(text[1..]);
      var _, _ := StripSplits(text[0]);
      NoEdgeSpaceJoin(Strip(text[0]), JoinStripped(text[1..]));
    }
  }

  /** Text read with `.text.strip()` has no whitespace at either end, so stripping
      it again changes nothing. */
  lemma StripJoinedTrimmed(text: Fragments)
    ensures NoEdgeSpace(StripJoined(text))
    ensures Strip(StripJoined(text)) == StripJoined(text)
  {
    var _, _ := StripSplits(Concat(text));
    StripIdempotent(Concat(text));
  }

  /** `get_text(strip=True)` works node by node: the text of two runs of nodes is
      the text of the first followed by the text of the second. */
  lemma {:induction false} JoinStrippedAppend(a: Fragments, b: Fragments)
    ensures JoinStripped(a + b) == JoinStripped(a) + JoinStripped(b)
  {
    if a == [] {
      assert a + b == b;
    } else {
      assert (a + b)[1..] == a[1..] + b;
      JoinStrippedAppend(a[1..], b);
    }
  }

  /** On a single text node `get_text(strip=True)` is that node stripped. */
  lemma JoinStrippedSingle(t: string)
    ensures JoinStripped([t]) == Strip(t)
  {
    assert [t][1..] == [];
  }

  /** On two text nodes `get_text(strip=True)` is the two nodes stripped apart. */
  lemma JoinStrippedPair(x: string, y: string)
    ensures JoinStripped([x, y]) == Strip(x) + Strip(y)
  {
    JoinStrippedSingle(x);
    JoinStrippedSingle(y);
    JoinStrippedAppend([x], [y]);
    assert [x] + [y] == [x, y];
  }

  /** The two rules agree on an element with a single text node... */
  lemma SingleNodeRulesAgree(t: string)
    ensures JoinStripped([t]) == StripJoined([t])
  {
    JoinStrippedSingle(t);
    ConcatSingle(t);
  }

  /** ...but not in general. Whitespace at the seam between two text nodes is
      dropped by `get_text(strip=True)`... */
  lemma JoinStrippedDropsSeam(a: string, gap: string, b: string)
    requires NoEdgeSpace(a) && NoEdgeSpace(b) && AllSpace(gap)
    ensures JoinStripped([a + gap, b]) == a + b
  {
    StripDropsAddedSpace(a, gap);
    StripDropsAddedSpace(b, []);
    assert b + [] == b;
    JoinStrippedPair(a + gap, b);
  }

  /** ...and kept by `.text.strip()` when both sides are non-empty: a link whose
      nodes are "New " and "Delhi" reads "New Delhi" one way and "NewDelhi" the
      other. */
  lemma StripJoinedKeepsSeam(a: string, gap: string, b: string)
    requires a != [] && b != []
    requires NoEdgeSpace(a) && NoEdgeSpace(b) && AllSpace(gap)
    ensures StripJoined([a + gap, b]) == a + gap + b
  {
    var e: string := [];
    var m := a + gap + b;
    assert Concat([a + gap, b]) == m by {
      ConcatSingle(a + gap);
      ConcatSingle(b);
      ConcatAppend([a + gap], [b]);
      assert [a + gap] + [b] == [a + gap, b];
    }
    assert m[0] == a[0];
    assert m[|m| - 1] == b[|b| - 1];
    assert e + m + e == m;
    StripCharacterized(e, m, e);
  }
}
