/**
 * When two different drawings have the same text. The rendering escapes nothing, so the text of the
 * node lines can be cut in more than one way; the edge lines cannot.
 */
module MermaidCollisions {
  import opened Wrappers
  import opened Digraph
  import opened Sorting
  import Values
  import opened Lineage
  import opened Mermaid
  import opened MermaidText

  /** The same nodes and the same edges. */
  ghost predicate SameDrawing(v: RunView, w: RunView) {
    NodeIds(v) == NodeIds(w) && v.edges == w.edges
  }

  ghost predicate SameText(v: RunView, w: RunView) {
    Text(Lines(v)) == Text(Lines(w))
  }

  ghost predicate OneLineIds(v: RunView) {
    forall id :: id in NodeIds(v) ==> OneLine(id)
  }

  /** Among runs whose ids are single lines, the text determines the drawing. */
  lemma {:induction false} OneLineRunsDiffer(v: RunView, w: RunView)
    requires OneLineIds(v) && OneLineIds(w) && SameText(v, w)
    ensures SameDrawing(v, w)
  {
    TextRoundTrip(v);
    TextRoundTrip(w);
  }

  // ---------- the parts of a text ----------

  lemma {:induction false} ConcatPlus(a: seq<string>, b: seq<string>)
    ensures Concat(a + b) == Concat(a) + Concat(b)
  {
    if b == [] {
      assert a + b == a;
    } else {
      var n := |b| - 1;
      ConcatPlus(a, b[..n]);
      ConcatAppend(a + b[..n], b[n]);
      ConcatAppend(b[..n], b[n]);
      assert a + b == (a + b[..n]) + [b[n]] && b == b[..n] + [b[n]];
    }
  }

  lemma {:induction false} TextPlus(a: seq<Line>, b: seq<Line>)
    ensures Text(a + b) == Text(a) + Text(b)
  {
    assert Texts(a + b) == Texts(a) + Texts(b);
    ConcatPlus(Texts(a), Texts(b));
  }

  lemma {:induction false} SingleText(l: Line)
    ensures Text([l]) == LineText(l) + "\n"
  {
    var t := LineText(l) + "\n";
    assert Texts([l]) == [t] && [t][1..] == [];
    assert Concat([t]) == t + "";
  }

  function NodesText(ids: seq<string>): string {
    Text(NodeLines(ids))
  }

  function Front(i: nat): string {
    "    " + Alias(i) + "["
  }

  function Open(i: nat): string {
    Front(i) + "\""
  }

  const CLOSE := "\"]\n"

  lemma {:induction false} NodeText(i: nat, id: string)
    ensures Text([NodeLine(Alias(i), id)]) == Open(i) + id + CLOSE
  {
    SingleText(NodeLine(Alias(i), id));
    assert "    " + Alias(i) + "[\"" + id + "\"]" + "\n" == Open(i) + id + CLOSE;
  }

  lemma {:induction false} LastNodeText(ids: seq<string>)
    requires ids != []
    ensures var n := |ids| - 1; NodesText(ids) == NodesText(ids[..n]) + (Open(n) + ids[n] + CLOSE)
  {
    var n := |ids| - 1;
    assert NodeLines(ids) == NodeLines(ids[..n]) + [NodeLine(Alias(n), ids[n])];
    TextPlus(NodeLines(ids[..n]), [NodeLine(Alias(n), ids[n])]);
    NodeText(n, ids[n]);
  }

  lemma {:induction false} TextParts(ids: seq<string>, pairs: seq<(string, string)>)
    requires forall p :: p in pairs ==> p.0 in ids && p.1 in ids
    ensures Text(LinesOf(ids, pairs)) == "graph TD\n" + (NodesText(ids) + Text(EdgeLines(ids, pairs)))
  {
    var nodes, edges := NodeLines(ids), EdgeLines(ids, pairs);
    assert LinesOf(ids, pairs) == [Header] + (nodes + edges);
    TextPlus([Header], nodes + edges);
    TextPlus(nodes, edges);
    SingleText(Header);
    HeaderText();
  }

  // ---------- the edge lines are cut in one way only ----------

  lemma {:induction false} AliasUnquoted(i: nat)
    ensures '"' !in Alias(i)
  {
    DecimalUnquoted(i);
  }

  lemma {:induction false} DecimalUnquoted(n: nat)
    ensures '"' !in Decimal(n)
  {
    if n >= 10 { DecimalUnquoted(n / 10); }
  }

  lemma {:induction false} ConcatUnquoted(ss: seq<string>)
    requires forall i :: 0 <= i < |ss| ==> '"' !in ss[i]
    ensures '"' !in Concat(ss)
  {
    if ss == [] {
    } else {
      ConcatUnquoted(ss[1..]);
    }
  }

  lemma {:induction false} EdgeLineFacts(ids: seq<string>, pairs: seq<(string, string)>, k: nat)
    requires (forall p :: p in pairs ==> p.0 in ids && p.1 in ids) && k < |pairs|
    ensures var l := EdgeLines(ids, pairs)[k];
            Parse(LineText(l)) == l && OneLine(LineText(l)) && '"' !in LineText(l)
  {
    assert pairs[k] in pairs;
    var from, to := Mermaid.Position(ids, pairs[k].0), Mermaid.Position(ids, pairs[k].1);
    assert EdgeLines(ids, pairs)[k] == EdgeLine(Alias(from), Alias(to));
    EdgeReadsBack(from, to);
    AliasUnquoted(from);
    AliasUnquoted(to);
  }

  lemma {:induction false} EdgesUnquoted(ids: seq<string>, pairs: seq<(string, string)>)
    requires forall p :: p in pairs ==> p.0 in ids && p.1 in ids
    ensures '"' !in Text(EdgeLines(ids, pairs))
  {
    var texts := Texts(EdgeLines(ids, pairs));
    forall k | 0 <= k < |texts| ensures '"' !in texts[k] { EdgeLineFacts(ids, pairs, k); }
    ConcatUnquoted(texts);
  }

  lemma {:induction false} EdgesReadBack(ids: seq<string>, pairs: seq<(string, string)>)
    requires forall p :: p in pairs ==> p.0 in ids && p.1 in ids
    ensures ParseAll(CutLines(Text(EdgeLines(ids, pairs)))) == EdgeLines(ids, pairs)
  {
    var ls := EdgeLines(ids, pairs);
    forall k | 0 <= k < |ls| ensures OneLine(LineText(ls[k])) && Parse(LineText(ls[k])) == ls[k] {
      EdgeLineFacts(ids, pairs, k);
    }
    TextReadBack(ls);
  }

  /** A node part is empty or closes its last node. */
  ghost predicate Closed(s: string) {
    s == "" || (|s| >= 3 && s[|s| - 3..] == CLOSE)
  }

  lemma {:induction false} NodesClosed(ids: seq<string>)
    ensures Closed(NodesText(ids)) && (NodesText(ids) == "" <==> ids == [])
  {
    if ids != [] {
      var n := |ids| - 1;
      LastNodeText(ids);
      var s := NodesText(ids[..n]) + (Open(n) + ids[n]);
      assert NodesText(ids) == s + CLOSE;
      assert (s + CLOSE)[|s + CLOSE| - 3..] == CLOSE;
    }
  }

  /** The place where the node part ends: no quotation mark from there on, and a closing before, if anything. */
  ghost predicate PartEnd(s: string, m: nat) {
    && m <= |s|
    && (forall q :: m <= q < |s| ==> s[q] != '"')
    && (m > 0 ==> m >= 3 && s[m - 3] == '"' && s[m - 2] == ']' && s[m - 1] == '\n')
  }

  lemma {:induction false} NodePartEnds(a: string, e: string)
    requires Closed(a) && '"' !in e
    ensures PartEnd(a + e, |a|)
  {
    var s := a + e;
    forall q | |a| <= q < |s| ensures s[q] != '"' { assert s[q] == e[q - |a|]; }
    if a != "" {
      assert forall k :: 0 <= k < 3 ==> s[|a| - 3 + k] == a[|a| - 3..][k] == CLOSE[k];
      assert s[|a| - 3] == s[|a| - 3 + 0] && s[|a| - 2] == s[|a| - 3 + 1] && s[|a| - 1] == s[|a| - 3 + 2];
    }
  }

  lemma {:induction false} PartEndIsUnique(s: string, m: nat, k: nat)
    requires PartEnd(s, m) && PartEnd(s, k)
    ensures m == k
  {
  }

  /** The last quotation mark of a text ends its node part. */
  lemma {:induction false} PartsAreUnique(a: string, e: string, b: string, f: string)
    requires a + e == b + f && Closed(a) && Closed(b) && '"' !in e && '"' !in f
    ensures a == b && e == f
  {
    NodePartEnds(a, e);
    NodePartEnds(b, f);
    PartEndIsUnique(a + e, |a|, |b|);
    assert a == (a + e)[..|a|] && b == (b + f)[..|b|];
    assert e == (a + e)[|a|..] && f == (b + f)[|b|..];
  }

  lemma {:induction false} Cancel(p: string, a: string, b: string)
    requires p + a == p + b
    ensures a == b
  {
    assert a == (p + a)[|p|..] && b == (p + b)[|p|..];
  }

  /** Exactly when two runs have the same text: the same node part, and edges between the same positions. */
  lemma {:induction false} SharedText(v: RunView, w: RunView)
    ensures (forall p :: p in EdgePairs(v) ==> p.0 in NodeListing(v) && p.1 in NodeListing(v))
      && (forall p :: p in EdgePairs(w) ==> p.0 in NodeListing(w) && p.1 in NodeListing(w))
    ensures SameText(v, w) <==>
      && NodesText(NodeListing(v)) == NodesText(NodeListing(w))
      && EdgeLines(NodeListing(v), EdgePairs(v)) == EdgeLines(NodeListing(w), EdgePairs(w))
  {
    PairsAreNodes(v);
    PairsAreNodes(w);
    SharedListings(NodeListing(v), EdgePairs(v), NodeListing(w), EdgePairs(w));
  }

  lemma {:induction false} SharedListings(ids: seq<string>, pairs: seq<(string, string)>, ids': seq<string>,
                                          pairs': seq<(string, string)>)
    requires (forall p :: p in pairs ==> p.0 in ids && p.1 in ids)
    requires (forall p :: p in pairs' ==> p.0 in ids' && p.1 in ids')
    ensures Text(LinesOf(ids, pairs)) == Text(LinesOf(ids', pairs')) <==>
      NodesText(ids) == NodesText(ids') && EdgeLines(ids, pairs) == EdgeLines(ids', pairs')
  {
    var a, e, b, f := NodesText(ids), Text(EdgeLines(ids, pairs)), NodesText(ids'), Text(EdgeLines(ids', pairs'));
    TextParts(ids, pairs);
    TextParts(ids', pairs');
    if "graph TD\n" + (a + e) == "graph TD\n" + (b + f) {
      assert a + e == ("graph TD\n" + (a + e))[9..] == b + f;
      NodesClosed(ids);
      NodesClosed(ids');
      EdgesUnquoted(ids, pairs);
      EdgesUnquoted(ids', pairs');
      PartsAreUnique(a, e, b, f);
      EdgesReadBack(ids, pairs);
      EdgesReadBack(ids', pairs');
    }
  }

  // ---------- what a collision needs ----------

  /** What stands between a node's id and the opening quotation mark of the next node. */
  function Markup(i: nat): string {
    CLOSE + Front(i)
  }

  /** The longer id is the shorter one, then the markup that ends it and begins the i-th node, then anything. */
  ghost predicate Swallows(longer: string, shorter: string, i: nat) {
    shorter + Markup(i) <= longer
  }

  /** Two listings with the same text first differ where one id swallows the beginning of the other's next node. */
  ghost predicate FirstSwallow(ids: seq<string>, ids': seq<string>, i: nat) {
    && i < |ids| && i < |ids'| && ids[..i] == ids'[..i]
    && (Swallows(ids[i], ids'[i], i + 1) || Swallows(ids'[i], ids[i], i + 1))
  }

  function NodesFrom(ids: seq<string>, i: nat): string
    requires i <= |ids|
  {
    Text(NodeLines(ids)[i..])
  }

  lemma {:induction false} NodesFromStep(ids: seq<string>, i: nat)
    requires i < |ids|
    ensures NodesFrom(ids, i) == Open(i) + (ids[i] + (CLOSE + NodesFrom(ids, i + 1)))
  {
    var ls := NodeLines(ids);
    HeadAndTail(ls, i);
    TextPlus([ls[i]], ls[i + 1..]);
    NodeText(i, ids[i]);
    Rightwards(Open(i), ids[i], CLOSE, NodesFrom(ids, i + 1));
  }

  lemma {:induction false} HeadAndTail<T>(s: seq<T>, i: nat)
    requires i < |s|
    ensures s[i..] == [s[i]] + s[i + 1..]
  {
  }

  lemma {:induction false} Rightwards(a: string, b: string, c: string, d: string)
    ensures (a + b + c) + d == a + (b + (c + d))
  {
  }

  lemma {:induction false} NodesFromEnd(ids: seq<string>)
    ensures NodesFrom(ids, |ids|) == ""
  {
    assert NodeLines(ids)[|ids|..] == [];
  }

  /** What stands from an id on. */
  function FromId(ids: seq<string>, i: nat): string
    requires i < |ids|
  {
    ids[i] + (CLOSE + NodesFrom(ids, i + 1))
  }

  lemma {:induction false} SameFromId(ids: seq<string>, ids': seq<string>, i: nat)
    requires i < |ids| && i < |ids'| && NodesFrom(ids, i) == NodesFrom(ids', i)
    ensures FromId(ids, i) == FromId(ids', i)
    ensures ids[i] == ids'[i] ==> NodesFrom(ids, i + 1) == NodesFrom(ids', i + 1)
  {
    NodesFromStep(ids, i);
    NodesFromStep(ids', i);
    Cancel(Open(i), FromId(ids, i), FromId(ids', i));
    if ids[i] == ids'[i] {
      Cancel(ids[i], CLOSE + NodesFrom(ids, i + 1), CLOSE + NodesFrom(ids', i + 1));
      Cancel(CLOSE, NodesFrom(ids, i + 1), NodesFrom(ids', i + 1));
    }
  }

  lemma {:induction false} BothEnd(ids: seq<string>, ids': seq<string>, i: nat)
    requires i <= |ids| && i <= |ids'| && NodesFrom(ids, i) == NodesFrom(ids', i)
    ensures i == |ids| <==> i == |ids'|
  {
    NodesFromEnd(ids);
    NodesFromEnd(ids');
    if i < |ids| { NodesFromStep(ids, i); }
    if i < |ids'| { NodesFromStep(ids', i); }
  }

  /** Two listings with the same text are the same up to where one id swallows the next node. */
  lemma {:induction false} FindSwallow(ids: seq<string>, ids': seq<string>, i: nat) returns (at: nat)
    requires ids != ids' && i <= |ids| && i <= |ids'| && ids[..i] == ids'[..i]
    requires NodesFrom(ids, i) == NodesFrom(ids', i)
    ensures FirstSwallow(ids, ids', at)
    decreases |ids| - i
  {
    BothEnd(ids, ids', i);
    NotAllEqual(ids, ids', i);
    SameFromId(ids, ids', i);
    if ids[i] == ids'[i] {
      OneMoreEqual(ids, ids', i);
      at := FindSwallow(ids, ids', i + 1);
    } else {
      at := i;
      SwallowHere(ids, ids', i);
    }
  }

  lemma {:induction false} SwallowHere(ids: seq<string>, ids': seq<string>, i: nat)
    requires i < |ids| && i < |ids'| && ids[i] != ids'[i] && FromId(ids, i) == FromId(ids', i)
    ensures Swallows(ids[i], ids'[i], i + 1) || Swallows(ids'[i], ids[i], i + 1)
  {
    DifferentLengths(ids[i], CLOSE + NodesFrom(ids, i + 1), ids'[i], CLOSE + NodesFrom(ids', i + 1));
    if |ids[i]| < |ids'[i]| {
      Swallowed(ids, i, ids'[i], NodesFrom(ids', i + 1));
    } else {
      Swallowed(ids', i, ids[i], NodesFrom(ids, i + 1));
    }
  }

  lemma {:induction false} OneMoreEqual(ids: seq<string>, ids': seq<string>, i: nat)
    requires i < |ids| && i < |ids'| && ids[..i] == ids'[..i] && ids[i] == ids'[i]
    ensures ids[..i + 1] == ids'[..i + 1]
  {
    assert ids[..i + 1] == ids[..i] + [ids[i]] && ids'[..i + 1] == ids'[..i] + [ids'[i]];
  }

  lemma {:induction false} NotAllEqual(ids: seq<string>, ids': seq<string>, i: nat)
    requires ids != ids' && i <= |ids| && i <= |ids'| && ids[..i] == ids'[..i]
    ensures !(i == |ids| && i == |ids'|)
  {
    assert ids[..|ids|] == ids && ids'[..|ids'|] == ids';
  }

  lemma {:induction false} DifferentLengths(x: string, s: string, y: string, t: string)
    requires x + s == y + t && x != y
    ensures |x| != |y|
  {
    assert x == (x + s)[..|x|] && y == (y + t)[..|y|];
  }

  lemma {:induction false} MarkupUnquoted(i: nat, k: nat)
    requires 0 < k < |Markup(i)|
    ensures Markup(i)[k] != '"'
  {
    AliasUnquoted(i);
    var rest := "]\n    " + Alias(i) + "[";
    assert Markup(i) == "\"" + rest && '"' !in rest;
    assert Markup(i)[k] == rest[k - 1] && rest[k - 1] in rest;
  }

  /** If an id is read further than the i-th one ends, it contains what follows the i-th one. */
  lemma {:induction false} Swallowed(ids: seq<string>, i: nat, y: string, rest: string)
    requires i < |ids| && |ids[i]| < |y| && FromId(ids, i) == y + (CLOSE + rest)
    ensures Swallows(y, ids[i], i + 1)
  {
    var x, s := ids[i], CLOSE + NodesFrom(ids, i + 1);
    SplitLonger(x, s, y, CLOSE + rest);
    MustContinue(ids, i, y[|x|..], rest);
    MarkupNext(ids, i);
    QuoteIsFirst(Markup(i + 1), s, y[|x|..], rest, i + 1);
    PrefixAfter(x, Markup(i + 1), y[|x|..]);
  }

  lemma {:induction false} SplitLonger(x: string, s: string, y: string, t: string)
    requires x + s == y + t && |x| < |y|
    ensures y == x + y[|x|..] && s == y[|x|..] + t
  {
    assert x == (x + s)[..|x|] && y[..|x|] == (y + t)[..|x|];
    assert y == x + y[|x|..];
    assert s == (x + s)[|x|..] && y[|x|..] + t == (y + t)[|x|..];
  }

  lemma {:induction false} MustContinue(ids: seq<string>, i: nat, d: string, rest: string)
    requires i < |ids| && d != "" && CLOSE + NodesFrom(ids, i + 1) == d + (CLOSE + rest)
    ensures i + 1 < |ids|
  {
    NodesFromEnd(ids);
    assert |CLOSE + NodesFrom(ids, i + 1)| == 3 + |NodesFrom(ids, i + 1)|;
    assert |d + (CLOSE + rest)| == |d| + 3 + |rest|;
  }

  lemma {:induction false} PrefixAfter(x: string, m: string, d: string)
    requires m <= d
    ensures x + m <= x + d
  {
  }

  lemma {:induction false} Regroup(a: string, b: string, c: string, d: string)
    ensures a + ((b + c) + d) == (a + b) + (c + d)
  {
  }

  lemma {:induction false} MarkupNext(ids: seq<string>, i: nat)
    requires i + 1 < |ids|
    ensures Markup(i + 1) <= CLOSE + NodesFrom(ids, i + 1)
  {
    NodesFromStep(ids, i + 1);
    Regroup(CLOSE, Front(i + 1), "\"", FromId(ids, i + 1));
    IsPrefix(Markup(i + 1), "\"" + FromId(ids, i + 1));
  }

  lemma {:induction false} IsPrefix(a: string, b: string)
    ensures a <= a + b
  {
  }

  /** The quotation mark of a closing cannot fall inside the markup. */
  lemma {:induction false} QuoteIsFirst(m: string, s: string, d: string, rest: string, i: nat)
    requires m == Markup(i) && m <= s && s == d + (CLOSE + rest) && d != ""
    ensures m <= d
  {
    if |d| < |m| {
      assert m[|d|] == s[|d|] == (CLOSE + rest)[0] == CLOSE[0];
      MarkupUnquoted(i, |d|);
      assert false;
    }
    assert m == s[..|m|] && d[..|m|] == s[..|m|];
  }

  /**
   * If two different drawings have the same text then at the first node where they differ the id of
   * one is that of the other followed by a quotation mark, a bracket, a line break and the beginning
   * of the next node line.
   */
  lemma {:induction false} CollisionsSwallow(v: RunView, w: RunView)
    requires SameText(v, w) && !SameDrawing(v, w)
    ensures exists i :: FirstSwallow(NodeListing(v), NodeListing(w), i)
  {
    SharedText(v, w);
    var ids, ids' := NodeListing(v), NodeListing(w);
    if ids == ids' {
      SamePositions(ids, EdgePairs(v), EdgePairs(w));
      ListingsAreSets(v);
      ListingsAreSets(w);
      assert false;
    }
    assert NodeLines(ids)[0..] == NodeLines(ids) && NodeLines(ids')[0..] == NodeLines(ids');
    var at := FindSwallow(ids, ids', 0);
  }

  /** Edge lines over the same nodes are those of the same pairs. */
  lemma {:induction false} SamePositions(ids: seq<string>, pairs: seq<(string, string)>, pairs': seq<(string, string)>)
    requires (forall p :: p in pairs ==> p.0 in ids && p.1 in ids)
    requires (forall p :: p in pairs' ==> p.0 in ids && p.1 in ids)
    requires EdgeLines(ids, pairs) == EdgeLines(ids, pairs')
    ensures pairs == pairs'
  {
    assert |pairs| == |EdgeLines(ids, pairs)| == |EdgeLines(ids, pairs')| == |pairs'|;
    forall k | 0 <= k < |pairs| ensures pairs[k] == pairs'[k] {
      SamePair(ids, pairs, ids, pairs', k);
    }
  }

  /** Equal edge lines join the same positions. */
  lemma {:induction false} SamePair(ids: seq<string>, pairs: seq<(string, string)>, ids': seq<string>,
                                    pairs': seq<(string, string)>, k: nat)
    requires (forall p :: p in pairs ==> p.0 in ids && p.1 in ids)
    requires (forall p :: p in pairs' ==> p.0 in ids' && p.1 in ids')
    requires EdgeLines(ids, pairs) == EdgeLines(ids', pairs') && k < |pairs|
    ensures k < |pairs'| && pairs[k] in pairs && pairs'[k] in pairs'
    ensures Mermaid.Position(ids, pairs[k].0) == Mermaid.Position(ids', pairs'[k].0)
    ensures Mermaid.Position(ids, pairs[k].1) == Mermaid.Position(ids', pairs'[k].1)
  {
    assert |pairs| == |EdgeLines(ids, pairs)| == |EdgeLines(ids', pairs')| == |pairs'|;
    assert pairs[k] in pairs && pairs'[k] in pairs';
    var l, l' := EdgeLines(ids, pairs)[k], EdgeLines(ids', pairs')[k];
    AliasInjective(Mermaid.Position(ids, pairs[k].0), Mermaid.Position(ids', pairs'[k].0));
    AliasInjective(Mermaid.Position(ids, pairs[k].1), Mermaid.Position(ids', pairs'[k].1));
  }

  /** The id contains no closing of a node followed by the beginning of another. */
  ghost predicate MarkupFree(id: string) {
    forall before, i :: !Swallows(id, before, i)
  }

  lemma {:induction false} SwallowIsMarked(ids: seq<string>, ids': seq<string>, i: nat)
    requires FirstSwallow(ids, ids', i)
    ensures ids[i] in ids && ids'[i] in ids' && (!MarkupFree(ids[i]) || !MarkupFree(ids'[i]))
  {
  }

  /** So the text determines the drawing among all runs whose ids are free of such markup. */
  lemma {:induction false} MarkupFreeRunsDiffer(v: RunView, w: RunView)
    requires SameText(v, w) && forall id :: id in NodeIds(v) || id in NodeIds(w) ==> MarkupFree(id)
    ensures SameDrawing(v, w)
  {
    if !SameDrawing(v, w) {
      CollisionsSwallow(v, w);
      var ids, ids' := NodeListing(v), NodeListing(w);
      var i :| FirstSwallow(ids, ids', i);
      SwallowIsMarked(ids, ids', i);
    }
  }

  // ---------- exactly when a run shares its text ----------

  /** The pairs join nodes that the other listing has as well, by position. */
  ghost predicate Fits(ids: seq<string>, pairs: seq<(string, string)>, ids': seq<string>) {
    forall p :: p in pairs ==>
      && p.0 in ids && p.1 in ids
      && Mermaid.Position(ids, p.0) < |ids'| && Mermaid.Position(ids, p.1) < |ids'|
  }

  /** Another way to cut the run's node text: other ids in order, at least as many as its edges need. */
  ghost predicate Recut(v: RunView, ids': seq<string>) {
    && Ascending(Before, ids') && ids' != NodeListing(v)
    && NodesText(ids') == NodesText(NodeListing(v))
    && Fits(NodeListing(v), EdgePairs(v), ids')
  }

  lemma {:induction false} PositionIs(ids: seq<string>, i: nat)
    requires Distinct(ids) && i < |ids|
    ensures Mermaid.Position(ids, ids[i]) == i
  {
  }

  lemma {:induction false} AscendingDistinct(ids: seq<string>)
    requires Ascending(Before, ids)
    ensures Distinct(ids)
  {
    forall i, j | 0 <= i < j < |ids| ensures ids[i] != ids[j] {
      BeforeIrreflexive(ids[i]);
      assert Before(ids[i], ids[j]);
    }
  }

  /** Smaller positions are smaller ids. */
  lemma {:induction false} OrderOfPositions(ids: seq<string>, a: string, b: string)
    requires Ascending(Before, ids) && a in ids && b in ids
    ensures Before(a, b) <==> Mermaid.Position(ids, a) < Mermaid.Position(ids, b)
  {
    var i, j := Mermaid.Position(ids, a), Mermaid.Position(ids, b);
    BeforeIrreflexive(a);
    if j < i && Before(a, b) { BeforeTransitive(b, a, b); BeforeIrreflexive(b); }
  }

  /** The same edges, by position, between the nodes of another listing. */
  function MovedPairs(ids: seq<string>, pairs: seq<(string, string)>, ids': seq<string>): seq<(string, string)>
    requires Fits(ids, pairs, ids')
  {
    seq(|pairs|, k requires 0 <= k < |pairs| =>
      assert pairs[k] in pairs;
      (ids'[Mermaid.Position(ids, pairs[k].0)], ids'[Mermaid.Position(ids, pairs[k].1)]))
  }

  lemma {:induction false} MovedKeepsOrder(ids: seq<string>, ids': seq<string>, a: string, b: string)
    requires Ascending(Before, ids) && Ascending(Before, ids') && a in ids && b in ids
    requires Mermaid.Position(ids, a) < |ids'| && Mermaid.Position(ids, b) < |ids'|
    ensures Before(a, b) <==> Before(ids'[Mermaid.Position(ids, a)], ids'[Mermaid.Position(ids, b)])
  {
    var i, j := Mermaid.Position(ids, a), Mermaid.Position(ids, b);
    AscendingDistinct(ids');
    PositionIs(ids', i);
    PositionIs(ids', j);
    OrderOfPositions(ids, a, b);
    OrderOfPositions(ids', ids'[i], ids'[j]);
  }

  lemma {:induction false} MovedPairsAscending(ids: seq<string>, pairs: seq<(string, string)>, ids': seq<string>)
    requires Ascending(Before, ids) && Ascending(Before, ids') && Ascending(PairBefore, pairs) && Fits(ids, pairs, ids')
    ensures Ascending(PairBefore, MovedPairs(ids, pairs, ids'))
  {
    var moved := MovedPairs(ids, pairs, ids');
    forall i, j | 0 <= i < j < |pairs| ensures PairBefore(moved[i], moved[j]) {
      assert PairBefore(pairs[i], pairs[j]) && pairs[i] in pairs && pairs[j] in pairs;
      MovedKeepsOrder(ids, ids', pairs[i].0, pairs[j].0);
      MovedKeepsOrder(ids, ids', pairs[i].1, pairs[j].1);
    }
  }

  lemma {:induction false} MovedEdgeLines(ids: seq<string>, pairs: seq<(string, string)>, ids': seq<string>)
    requires Fits(ids, pairs, ids') && Distinct(ids')
    ensures forall p :: p in MovedPairs(ids, pairs, ids') ==> p.0 in ids' && p.1 in ids'
    ensures EdgeLines(ids', MovedPairs(ids, pairs, ids')) == EdgeLines(ids, pairs)
  {
    var moved := MovedPairs(ids, pairs, ids');
    forall k | 0 <= k < |pairs| ensures moved[k].0 in ids' && moved[k].1 in ids' {
      assert pairs[k] in pairs;
    }
    forall k | 0 <= k < |pairs| ensures EdgeLines(ids', moved)[k] == EdgeLines(ids, pairs)[k] {
      assert pairs[k] in pairs && moved[k] in moved;
      PositionIs(ids', Mermaid.Position(ids, pairs[k].0));
      PositionIs(ids', Mermaid.Position(ids, pairs[k].1));
    }
  }

  /** A run with these nodes and edges. */
  function RunOf(ids: seq<string>, pairs: seq<(string, string)>): RunView {
    RunView(map id | id in ids :: Cell(Values.Succeeded, None), set p | p in pairs)
  }

  lemma {:induction false} ListingsOfRun(ids: seq<string>, pairs: seq<(string, string)>)
    requires Ascending(Before, ids) && Ascending(PairBefore, pairs)
    requires forall p :: p in pairs ==> p.0 in ids && p.1 in ids
    ensures NodeListing(RunOf(ids, pairs)) == ids && EdgePairs(RunOf(ids, pairs)) == pairs
  {
    var v := RunOf(ids, pairs);
    assert forall id :: id in NodeIds(v) <==> id in ids;
    SortedIdsAreUnique(NodeIds(v), ids);
    PairBeforeIsStrictOrder();
    AscendingIsUnique(PairBefore, pairs, EdgePairs(v));
  }

  /** Every other cut is that of a run, with the same text and another drawing. */
  lemma {:induction false} RecutCollides(v: RunView, ids': seq<string>)
    requires Recut(v, ids')
    ensures exists w :: SameText(w, v) && !SameDrawing(w, v)
  {
    var ids, pairs := NodeListing(v), EdgePairs(v);
    var moved := MovedPairs(ids, pairs, ids');
    AscendingDistinct(ids');
    MovedPairsAscending(ids, pairs, ids');
    MovedEdgeLines(ids, pairs, ids');
    var w := RunOf(ids', moved);
    ListingsOfRun(ids', moved);
    SharedText(w, v);
    assert SameText(w, v) && !SameDrawing(w, v);
  }

  /** And every other drawing with the same text is another cut. */
  lemma {:induction false} CollisionRecuts(v: RunView, w: RunView)
    requires SameText(w, v) && !SameDrawing(w, v)
    ensures Recut(v, NodeListing(w))
  {
    var ids, pairs, ids', pairs' := NodeListing(v), EdgePairs(v), NodeListing(w), EdgePairs(w);
    SharedText(w, v);
    if ids == ids' {
      SamePositions(ids, pairs', pairs);
      ListingsAreSets(v);
      ListingsAreSets(w);
      assert false;
    }
    forall p | p in pairs ensures Mermaid.Position(ids, p.0) < |ids'| && Mermaid.Position(ids, p.1) < |ids'| {
      SamePair(ids, pairs, ids', pairs', IndexOf(pairs, p));
    }
  }

  /** Exactly when a run's text does not determine its drawing: its node text can be cut in another way. */
  lemma {:induction false} SharesText(v: RunView)
    ensures (exists w :: SameText(w, v) && !SameDrawing(w, v)) <==> exists ids' :: Recut(v, ids')
  {
    if w :| SameText(w, v) && !SameDrawing(w, v) { CollisionRecuts(v, w); }
    if ids' :| Recut(v, ids') { RecutCollides(v, ids'); }
  }

  // ---------- runs whose last node is loose ----------

  /** There are two nodes or more, and the last one is the endpoint of no edge. */
  ghost predicate LooseLast(v: RunView) {
    var ids := NodeListing(v);
    |ids| >= 2 && ids[|ids| - 1] !in Endpoints(v)
  }

  /** The last two ids, read as one. */
  function MergedId(ids: seq<string>): string
    requires |ids| >= 2
  {
    ids[|ids| - 2] + (Markup(|ids| - 1) + ("\"" + ids[|ids| - 1]))
  }

  function Merged(ids: seq<string>): seq<string>
    requires |ids| >= 2
  {
    ids[..|ids| - 2] + [MergedId(ids)]
  }

  lemma {:induction false} MergedText(ids: seq<string>)
    requires |ids| >= 2
    ensures NodesText(Merged(ids)) == NodesText(ids)
  {
    var n := |ids|;
    var before, x, y := NodesText(ids[..n - 2]), ids[n - 2], ids[n - 1];
    LastNodeText(ids);
    LastNodeText(ids[..n - 1]);
    LastNodeText(Merged(ids));
    assert ids[..n - 1][..n - 2] == ids[..n - 2] == Merged(ids)[..n - 2];
    MergeTwo(before, Open(n - 2), x, n - 1, y);
  }

  lemma {:induction false} MergeTwo(before: string, open: string, x: string, i: nat, y: string)
    ensures before + (open + (x + (Markup(i) + ("\"" + y))) + CLOSE) ==
            (before + (open + x + CLOSE)) + (Open(i) + y + CLOSE)
  {
    var f, q := Front(i), "\"";
    assert open + (x + ((CLOSE + f) + (q + y))) + CLOSE == open + x + CLOSE + ((f + q) + y + CLOSE);
  }

  lemma {:induction false} BeforeLonger(a: string, b: string)
    requires b != ""
    ensures Before(a, a + b)
  {
    if a == "" {
      assert a + b == b;
    } else {
      BeforeLonger(a[1..], b);
      assert (a + b)[1..] == a[1..] + b;
    }
  }

  lemma {:induction false} MergedAscending(ids: seq<string>)
    requires |ids| >= 2 && Ascending(Before, ids)
    ensures Ascending(Before, Merged(ids))
  {
    var n, m := |ids|, MergedId(ids);
    BeforeLonger(ids[n - 2], Markup(n - 1) + ("\"" + ids[n - 1]));
    forall i | 0 <= i < n - 2 ensures Before(ids[i], m) { BeforeTransitive(ids[i], ids[n - 2], m); }
  }

  lemma {:induction false} NotLast(ids: seq<string>, x: string)
    requires x in ids && x != ids[|ids| - 1]
    ensures Mermaid.Position(ids, x) < |ids| - 1
  {
  }

  lemma {:induction false} ListedEndpoints(v: RunView, p: (string, string))
    requires p in EdgePairs(v)
    ensures p.0 in Endpoints(v) && p.1 in Endpoints(v) && p.0 in NodeListing(v) && p.1 in NodeListing(v)
  {
    assert p in v.edges;
  }

  lemma {:induction false} LooseFits(v: RunView)
    requires LooseLast(v)
    ensures Fits(NodeListing(v), EdgePairs(v), Merged(NodeListing(v)))
  {
    var ids := NodeListing(v);
    forall p | p in EdgePairs(v)
      ensures p.0 in ids && p.1 in ids
      ensures Mermaid.Position(ids, p.0) < |ids| - 1 && Mermaid.Position(ids, p.1) < |ids| - 1
    {
      ListedEndpoints(v, p);
      NotLast(ids, p.0);
      NotLast(ids, p.1);
    }
    assert |Merged(ids)| == |ids| - 1;
  }

  /** A run with a loose last node, whatever its ids, shares its text: its last two nodes can be read as one. */
  lemma {:induction false} LooseRunsCollide(v: RunView)
    requires LooseLast(v)
    ensures exists w :: SameText(w, v) && !SameDrawing(w, v)
  {
    var ids := NodeListing(v);
    MergedAscending(ids);
    MergedText(ids);
    LooseFits(v);
    assert |Merged(ids)| == |ids| - 1;
    RecutCollides(v, Merged(ids));
  }

  // ---------- runs of one-line ids ----------

  function Breaks(s: string): nat {
    if s == "" then 0 else Breaks(s[..|s| - 1]) + if s[|s| - 1] == NEWLINE then 1 else 0
  }

  lemma {:induction false} BreaksPlus(a: string, b: string)
    ensures Breaks(a + b) == Breaks(a) + Breaks(b)
  {
    if b == "" {
      assert a + b == a;
    } else {
      BreaksPlus(a, b[..|b| - 1]);
      assert (a + b)[..|a + b| - 1] == a + b[..|b| - 1];
    }
  }

  lemma {:induction false} NoBreaks(s: string)
    ensures Breaks(s) == 0 <==> OneLine(s)
  {
    if s == "" {
    } else {
      NoBreaks(s[..|s| - 1]);
      assert s == s[..|s| - 1] + [s[|s| - 1]];
    }
  }

  lemma {:induction false} NodeBreaks(i: nat, id: string)
    ensures Breaks(Open(i) + id + CLOSE) == 1 + Breaks(id)
  {
    BreaksPlus(Open(i) + id, CLOSE);
    BreaksPlus(Open(i), id);
    AliasIsPlain(i);
    NoBreaks(Open(i));
    NoBreaks("\"]");
    assert CLOSE[..2] == "\"]" && CLOSE[2] == NEWLINE;
  }

  ghost predicate AllOneLine(ids: seq<string>) {
    forall i :: 0 <= i < |ids| ==> OneLine(ids[i])
  }

  lemma {:induction false} AllOneLineStep(ids: seq<string>)
    requires ids != []
    ensures var n := |ids| - 1; AllOneLine(ids) <==> AllOneLine(ids[..n]) && OneLine(ids[n])
  {
    var n := |ids| - 1;
    assert forall i :: 0 <= i < n ==> ids[..n][i] == ids[i];
  }

  /** The node part has a line break per node, and more exactly if some id has one. */
  lemma {:induction false} NodesBreaks(ids: seq<string>)
    ensures Breaks(NodesText(ids)) >= |ids|
    ensures Breaks(NodesText(ids)) == |ids| <==> AllOneLine(ids)
  {
    if ids == [] {
      NodesClosed(ids);
    } else {
      var n := |ids| - 1;
      NodesBreaks(ids[..n]);
      assert Breaks(NodesText(ids)) == Breaks(NodesText(ids[..n])) + 1 + Breaks(ids[n]) by {
        LastNodeText(ids);
        BreaksPlus(NodesText(ids[..n]), Open(n) + ids[n] + CLOSE);
        NodeBreaks(n, ids[n]);
      }
      NoBreaks(ids[n]);
      AllOneLineStep(ids);
    }
  }

  /** Another drawing with the text of a run of one-line ids has fewer nodes. */
  lemma {:induction false} OtherHasFewer(v: RunView, w: RunView)
    requires OneLineIds(v) && SameText(v, w) && !SameDrawing(v, w)
    ensures |NodeListing(w)| < |NodeListing(v)|
  {
    var ids, ids' := NodeListing(v), NodeListing(w);
    SharedText(v, w);
    NodesBreaks(ids);
    NodesBreaks(ids');
    assert forall i :: 0 <= i < |ids| ==> ids[i] in NodeIds(v);
    if |ids'| >= |ids| {
      assert forall id :: id in NodeIds(w) ==> id in ids';
      assert OneLineIds(w);
      OneLineRunsDiffer(v, w);
    }
  }

  lemma {:induction false} LastPosition(ids: seq<string>)
    requires Distinct(ids) && ids != []
    ensures Mermaid.Position(ids, ids[|ids| - 1]) == |ids| - 1
  {
  }

  /** Equal edge lines that use the last node of one listing need as many nodes in the other. */
  lemma {:induction false} LastNodeUsed(ids: seq<string>, pairs: seq<(string, string)>, ids': seq<string>,
                                        pairs': seq<(string, string)>, k: nat)
    requires (forall p :: p in pairs ==> p.0 in ids && p.1 in ids)
    requires (forall p :: p in pairs' ==> p.0 in ids' && p.1 in ids')
    requires EdgeLines(ids, pairs) == EdgeLines(ids', pairs') && k < |pairs| && ids != [] && Distinct(ids)
    requires pairs[k].0 == ids[|ids| - 1] || pairs[k].1 == ids[|ids| - 1]
    ensures |ids| <= |ids'|
  {
    SamePair(ids, pairs, ids', pairs', k);
    LastPosition(ids);
  }

  lemma {:induction false} EmptyNodePart(ids: seq<string>, ids': seq<string>)
    requires NodesText(ids) == NodesText(ids') && |ids'| < |ids|
    ensures |ids| >= 2
  {
    NodesClosed(ids);
    NodesClosed(ids');
  }

  lemma {:induction false} EdgeAtEndpoint(v: RunView, id: string) returns (k: nat)
    requires id in Endpoints(v)
    ensures k < |EdgePairs(v)| && (EdgePairs(v)[k].0 == id || EdgePairs(v)[k].1 == id)
  {
    var e :| e in v.edges && (e.0 == id || e.1 == id);
    assert e in EdgePairs(v);
    k := IndexOf(EdgePairs(v), e);
  }

  lemma {:induction false} LastUsedNeedsAsMany(v: RunView, w: RunView)
    requires SameText(v, w) && NodeListing(v) != [] && NodeListing(v)[|NodeListing(v)| - 1] in Endpoints(v)
    ensures |NodeListing(v)| <= |NodeListing(w)|
  {
    SharedText(v, w);
    var k := EdgeAtEndpoint(v, NodeListing(v)[|NodeListing(v)| - 1]);
    LastNodeUsed(NodeListing(v), EdgePairs(v), NodeListing(w), EdgePairs(w), k);
  }

  lemma {:induction false} FewerMeansTwo(v: RunView, w: RunView)
    requires SameText(v, w) && |NodeListing(w)| < |NodeListing(v)|
    ensures |NodeListing(v)| >= 2
  {
    SharedText(v, w);
    EmptyNodePart(NodeListing(v), NodeListing(w));
  }

  lemma {:induction false} CollisionsAreLoose(v: RunView, w: RunView)
    requires OneLineIds(v) && SameText(v, w) && !SameDrawing(v, w)
    ensures LooseLast(v)
  {
    assert |NodeListing(w)| < |NodeListing(v)| by { OtherHasFewer(v, w); }
    FewerMeansTwo(v, w);
    if NodeListing(v)[|NodeListing(v)| - 1] in Endpoints(v) { LastUsedNeedsAsMany(v, w); }
  }

  /** For a run of one-line ids that is the only way to share a text with a different drawing. */
  lemma {:induction false} SharesTextExactly(v: RunView)
    requires OneLineIds(v)
    ensures (exists w :: SameText(w, v) && !SameDrawing(w, v)) <==> LooseLast(v)
  {
    if w :| SameText(w, v) && !SameDrawing(w, v) { CollisionsAreLoose(v, w); }
    if LooseLast(v) { LooseRunsCollide(v); }
  }
}
