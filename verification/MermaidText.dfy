/** A reader that cuts the rendered text into lines, and the runs that it reads back as they were. */
module MermaidText {
  import opened Wrappers
  import opened Digraph
  import opened Sorting
  import Values
  import opened Lineage
  import opened Mermaid

  const NEWLINE := '\n'

  ghost predicate OneLine(s: string) {
    NEWLINE !in s
  }

  // ---------- cutting into lines ----------

  function FirstBreak(s: string): (n: nat)
    ensures n <= |s| && NEWLINE !in s[..n]
    ensures n < |s| ==> s[n] == NEWLINE
  {
    if s == "" || s[0] == NEWLINE then 0
    else
      assert s == [s[0]] + s[1..];
      assert s[..1 + FirstBreak(s[1..])] == [s[0]] + s[1..][..FirstBreak(s[1..])];
      1 + FirstBreak(s[1..])
  }

  function CutLines(s: string): (ls: seq<string>)
    ensures forall l :: l in ls ==> NEWLINE !in l
  {
    if s == "" then []
    else
      var n := FirstBreak(s);
      assert s[..|s|] == s;
      if n == |s| then [s] else [s[..n]] + CutLines(s[n + 1..])
  }

  lemma {:induction false} FirstBreakAfter(a: string, b: string)
    requires OneLine(a)
    ensures FirstBreak(a + "\n" + b) == |a|
  {
    if a == "" {
    } else {
      assert (a + "\n" + b)[1..] == a[1..] + "\n" + b;
      FirstBreakAfter(a[1..], b);
    }
  }

  function TextsOf(ls: seq<Line>): seq<string> {
    seq(|ls|, i requires 0 <= i < |ls| => LineText(ls[i]))
  }

  lemma {:induction false} CutFirst(s: string, rest: string)
    requires OneLine(s)
    ensures CutLines(s + "\n" + rest) == [s] + CutLines(rest)
  {
    var all := s + "\n" + rest;
    FirstBreakAfter(s, rest);
    assert all[..|s|] == s && all[|s| + 1..] == rest;
  }

  /** Ended lines are cut where they were joined. */
  lemma {:induction false} CutConcat(ss: seq<string>, ended: seq<string>)
    requires |ended| == |ss| && forall i :: 0 <= i < |ss| ==> OneLine(ss[i]) && ended[i] == ss[i] + "\n"
    ensures CutLines(Concat(ended)) == ss
  {
    if ss == [] {
    } else {
      CutConcat(ss[1..], ended[1..]);
      CutFirst(ss[0], Concat(ended[1..]));
      assert ss == [ss[0]] + ss[1..];
    }
  }

  lemma {:induction false} CutText(ls: seq<Line>)
    requires forall i :: 0 <= i < |ls| ==> OneLine(LineText(ls[i]))
    ensures CutLines(Text(ls)) == TextsOf(ls)
  {
    CutConcat(TextsOf(ls), Texts(ls));
  }

  // ---------- reading one line ----------

  predicate Plain(c: char) {
    c != '[' && c != ' ' && c != NEWLINE
  }

  /** The length of the longest plain prefix. */
  function PlainLength(s: string): (n: nat)
    ensures n <= |s|
  {
    if s == "" || !Plain(s[0]) then 0 else 1 + PlainLength(s[1..])
  }

  function Parse(s: string): Line {
    if |s| < 4 || s[..4] != "    " then Header
    else
      var r := s[4..];
      var k := PlainLength(r);
      if k + 4 <= |r| && r[k] == '[' then NodeLine(r[..k], r[k + 2..|r| - 2])
      else if k + 5 <= |r| && r[k] == ' ' then EdgeLine(r[..k], r[k + 5..])
      else Header
  }

  lemma {:induction false} PlainPrefix(a: string, c: char, b: string)
    requires (forall i :: 0 <= i < |a| ==> Plain(a[i])) && !Plain(c)
    ensures PlainLength(a + [c] + b) == |a|
  {
    if a == "" {
    } else {
      assert (a + [c] + b)[1..] == a[1..] + [c] + b;
      PlainPrefix(a[1..], c, b);
    }
  }

  lemma {:induction false} ParseNode(name: string, id: string)
    requires forall i :: 0 <= i < |name| ==> Plain(name[i])
    ensures Parse(LineText(NodeLine(name, id))) == NodeLine(name, id)
  {
    var s := LineText(NodeLine(name, id));
    var r := name + "[\"" + id + "\"]";
    assert s == "    " + r && s[..4] == "    " && s[4..] == r;
    assert r == name + ['['] + ("\"" + id + "\"]");
    PlainPrefix(name, '[', "\"" + id + "\"]");
    assert r[..|name|] == name && r[|name| + 2..|r| - 2] == id;
  }

  lemma {:induction false} ParseEdge(from: string, to: string)
    requires forall i :: 0 <= i < |from| ==> Plain(from[i])
    ensures Parse(LineText(EdgeLine(from, to))) == EdgeLine(from, to)
  {
    var s := LineText(EdgeLine(from, to));
    var r := from + " --> " + to;
    assert s == "    " + r && s[..4] == "    " && s[4..] == r;
    assert r == from + [' '] + ("--> " + to);
    PlainPrefix(from, ' ', "--> " + to);
    assert r[..|from|] == from && r[|from| + 5..] == to;
  }

  lemma {:induction false} DecimalIsPlain(n: nat)
    ensures forall i :: 0 <= i < |Decimal(n)| ==> Plain(Decimal(n)[i])
  {
    if n >= 10 { DecimalIsPlain(n / 10); }
  }

  lemma {:induction false} AliasIsPlain(i: nat)
    ensures forall k :: 0 <= k < |Alias(i)| ==> Plain(Alias(i)[k])
    ensures OneLine(Alias(i))
  {
    DecimalIsPlain(i);
  }

  // ---------- reading the text ----------

  function ParseAll(ss: seq<string>): seq<Line> {
    seq(|ss|, i requires 0 <= i < |ss| => Parse(ss[i]))
  }

  function ReadText(s: string): Drawing {
    Decode(ParseAll(CutLines(s)))
  }

  lemma {:induction false} NodeReadsBack(i: nat, id: string)
    ensures var l := NodeLine(Alias(i), id);
            Parse(LineText(l)) == l && (OneLine(id) ==> OneLine(LineText(l)))
  {
    AliasIsPlain(i);
    ParseNode(Alias(i), id);
  }

  lemma {:induction false} EdgeReadsBack(i: nat, j: nat)
    ensures var l := EdgeLine(Alias(i), Alias(j)); Parse(LineText(l)) == l && OneLine(LineText(l))
  {
    AliasIsPlain(i);
    AliasIsPlain(j);
    ParseEdge(Alias(i), Alias(j));
  }

  /** Each line of a drawing is read back as it was, and is one line if the ids are. */
  lemma {:induction false} LinesReadBack(ids: seq<string>, pairs: seq<(string, string)>, i: nat)
    requires forall p :: p in pairs ==> p.0 in ids && p.1 in ids
    requires i < 1 + |ids| + |pairs|
    ensures var l := LinesOf(ids, pairs)[i];
            Parse(LineText(l)) == l && ((forall id :: id in ids ==> OneLine(id)) ==> OneLine(LineText(l)))
  {
    var l := LinesOf(ids, pairs)[i];
    if i == 0 {
      assert l == Header;
    } else if i <= |ids| {
      assert l == NodeLine(Alias(i - 1), ids[i - 1]);
      NodeReadsBack(i - 1, ids[i - 1]);
    } else {
      var k := i - 1 - |ids|;
      assert pairs[k] in pairs;
      var from, to := Mermaid.Position(ids, pairs[k].0), Mermaid.Position(ids, pairs[k].1);
      assert l == EdgeLine(Alias(from), Alias(to));
      EdgeReadsBack(from, to);
    }
  }

  lemma {:induction false} TextReadBack(ls: seq<Line>)
    requires forall i :: 0 <= i < |ls| ==> OneLine(LineText(ls[i])) && Parse(LineText(ls[i])) == ls[i]
    ensures ParseAll(CutLines(Text(ls))) == ls
  {
    CutText(ls);
    assert ParseAll(TextsOf(ls)) == ls;
  }

  lemma {:induction false} TableOfOneLineIds(ls: seq<Line>)
    requires forall l :: l in ls && l.NodeLine? ==> OneLine(l.id)
    ensures forall id :: id in AliasTable(ls).Values ==> OneLine(id)
  {
    if ls == [] {
    } else {
      var n := |ls| - 1;
      assert ls[n] in ls && forall l :: l in ls[..n] ==> l in ls;
      TableOfOneLineIds(ls[..n]);
    }
  }

  /** Whatever text is read, the ids read from it are single lines. */
  lemma {:induction false} ReadIdsAreOneLine(s: string, id: string)
    requires id in ReadText(s).nodes
    ensures OneLine(id)
  {
    var cut := CutLines(s);
    forall l | l in ParseAll(cut) && l.NodeLine? ensures OneLine(l.id) {
      var i :| 0 <= i < |cut| && ParseAll(cut)[i] == l;
      assert cut[i] in cut;
    }
    TableOfOneLineIds(ParseAll(cut));
  }

  /**
   * This reader gives back the run's nodes and edges exactly when no id contains a line break: it
   * reads every text as that of a run with one-line ids. What texts other runs share is another matter.
   */
  lemma {:induction false} TextRoundTrip(v: RunView)
    ensures ReadText(Text(Lines(v))) == Drawing(NodeIds(v), v.edges) <==> forall id :: id in NodeIds(v) ==> OneLine(id)
  {
    var ls := Lines(v);
    if forall id :: id in NodeIds(v) ==> OneLine(id) {
      PairsAreNodes(v);
      forall i | 0 <= i < |ls| ensures OneLine(LineText(ls[i])) && Parse(LineText(ls[i])) == ls[i] {
        LinesReadBack(NodeListing(v), EdgePairs(v), i);
      }
      TextReadBack(ls);
      DecodeLines(v);
    }
    if ReadText(Text(ls)) == Drawing(NodeIds(v), v.edges) {
      forall id | id in NodeIds(v) ensures OneLine(id) { ReadIdsAreOneLine(Text(ls), id); }
    }
  }

  /** With a line break in an id, two runs with different tasks can render the same text. */
  lemma {:induction false} LineBreaksCollide()
    ensures var one := RunView(map["a\"]\n    t1[\"b" := Cell(Values.Succeeded, None)], {});
            var two := RunView(map["a" := Cell(Values.Succeeded, None), "b" := Cell(Values.Succeeded, None)], {});
            NodeIds(one) != NodeIds(two) && Text(Lines(one)) == Text(Lines(two))
  {
    var id := "a\"]\n    t1[\"b";
    var one := RunView(map[id := Cell(Values.Succeeded, None)], {});
    var two := RunView(map["a" := Cell(Values.Succeeded, None), "b" := Cell(Values.Succeeded, None)], {});
    assert "a" in NodeIds(two) && "a" !in NodeIds(one);
    SortedIdsAreUnique(NodeIds(one), [id]);
    SortedIdsAreUnique(NodeIds(two), ["a", "b"]);
    NoPairs(one);
    NoPairs(two);
    PairsAreNodes(one);
    PairsAreNodes(two);
    assert Lines(one) == [Header, NodeLine(Alias(0), id)];
    assert Lines(two) == [Header, NodeLine(Alias(0), "a"), NodeLine(Alias(1), "b")];
    OneNodeText(id);
    TwoNodeText("a", "b");
    SameCharacters();
  }

  lemma {:induction false} NoPairs(v: RunView)
    requires v.edges == {}
    ensures EdgePairs(v) == []
  {
    DistinctCardinality(EdgePairs(v));
    assert Elements(EdgePairs(v)) == {};
  }

  lemma {:induction false} ConcatTwo(a: string, b: string)
    ensures Concat([a, b]) == a + b
  {
    assert [a, b][1..] == [b] && [b][1..] == [];
    assert Concat([b]) == b + "" == b;
  }

  lemma {:induction false} ConcatThree(a: string, b: string, c: string)
    ensures Concat([a, b, c]) == a + b + c
  {
    assert [a, b, c][1..] == [b, c];
    ConcatTwo(b, c);
  }

  lemma {:induction false} FirstAliases()
    ensures Alias(0) == "t0" && Alias(1) == "t1"
  {
  }

  lemma {:induction false} EndedNodeText(name: string, id: string, open: string)
    requires open == "    " + name + "[\""
    ensures LineText(NodeLine(name, id)) + "\n" == open + id + "\"]\n"
  {
  }

  lemma {:induction false} OneNodeText(id: string)
    ensures Text([Header, NodeLine(Alias(0), id)]) == "graph TD\n" + ("    t0[\"" + id + "\"]\n")
  {
    var n := NodeLine(Alias(0), id);
    FirstAliases();
    HeaderText();
    EndedNodeText(Alias(0), id, "    t0[\"");
    assert Texts([Header, n]) == ["graph TD\n", "    t0[\"" + id + "\"]\n"];
    ConcatTwo("graph TD\n", "    t0[\"" + id + "\"]\n");
  }

  lemma {:induction false} TwoNodeText(a: string, b: string)
    ensures Text([Header, NodeLine(Alias(0), a), NodeLine(Alias(1), b)]) ==
            ("graph TD\n" + ("    t0[\"" + a + "\"]\n")) + ("    t1[\"" + b + "\"]\n")
  {
    var n, m := NodeLine(Alias(0), a), NodeLine(Alias(1), b);
    FirstAliases();
    HeaderText();
    EndedNodeText(Alias(0), a, "    t0[\"");
    EndedNodeText(Alias(1), b, "    t1[\"");
    assert Texts([Header, n, m]) == ["graph TD\n", "    t0[\"" + a + "\"]\n", "    t1[\"" + b + "\"]\n"];
    ConcatThree("graph TD\n", "    t0[\"" + a + "\"]\n", "    t1[\"" + b + "\"]\n");
  }

  lemma {:induction false} SameCharacters()
    ensures "graph TD\n" + ("    t0[\"" + "a\"]\n    t1[\"b" + "\"]\n")
         == ("graph TD\n" + ("    t0[\"" + "a" + "\"]\n")) + ("    t1[\"" + "b" + "\"]\n")
  {
  }

  /** The whole text of one edge between two tasks. */
  lemma {:induction false} OneEdgeText()
    ensures Text(Lines(RunView(map[], {("a", "b")}))) ==
            "graph TD\n" + ("    t0[\"a\"]\n" + ("    t1[\"b\"]\n" + "    t0 --> t1\n"))
  {
    var n0, n1, e := NodeLine("t0", "a"), NodeLine("t1", "b"), EdgeLine("t0", "t1");
    OneEdgeLines();
    HeaderText();
    ConcatFour(LineText(Header) + "\n", LineText(n0) + "\n", LineText(n1) + "\n", LineText(e) + "\n");
    assert Texts([Header, n0, n1, e]) ==
      [LineText(Header) + "\n", LineText(n0) + "\n", LineText(n1) + "\n", LineText(e) + "\n"];
    EdgeCharacters();
  }

  lemma {:induction false} OneEdgeLines()
    ensures Lines(RunView(map[], {("a", "b")})) ==
            [Header, NodeLine("t0", "a"), NodeLine("t1", "b"), EdgeLine("t0", "t1")]
  {
    var v := RunView(map[], {("a", "b")});
    SortedIdsAreUnique(NodeIds(v), ["a", "b"]);
    OnePair(v, ("a", "b"));
    PairsAreNodes(v);
    FirstAliases();
    assert Mermaid.Position(["a", "b"], "a") == 0 && Mermaid.Position(["a", "b"], "b") == 1;
  }

  lemma {:induction false} OnePair(v: RunView, p: (string, string))
    requires v.edges == {p}
    ensures EdgePairs(v) == [p]
  {
    DistinctCardinality(EdgePairs(v));
    assert Elements(EdgePairs(v)) == {p};
    assert EdgePairs(v)[0] in v.edges;
  }

  lemma {:induction false} ConcatFour(a: string, b: string, c: string, d: string)
    ensures Concat([a, b, c, d]) == a + (b + (c + d))
  {
    assert [a, b, c, d][1..] == [b, c, d];
    ConcatThree(b, c, d);
    assert b + c + d == b + (c + d);
  }

  lemma {:induction false} EdgeCharacters()
    ensures LineText(NodeLine("t0", "a")) + "\n" == "    t0[\"a\"]\n"
    ensures LineText(NodeLine("t1", "b")) + "\n" == "    t1[\"b\"]\n"
    ensures LineText(EdgeLine("t0", "t1")) + "\n" == "    t0 --> t1\n"
  {
  }
}
