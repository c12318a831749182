/** Ordered listings of a run and its rendering as a Mermaid graph. */
module Mermaid {
  import opened Digraph
  import opened Sorting
  import opened Lineage

  datatype LineageEdge = LineageEdge(runId: string, upstream: string, downstream: string, recordedAt: Time)

  // ---------- listings ----------

  function EdgePairs(v: RunView): seq<(string, string)> {
    SortPairs(v.edges)
  }

  function PairOf(e: LineageEdge): (string, string) {
    (e.upstream, e.downstream)
  }

  /** All edges of the run, ordered by both ids, with the time of their first insertion. */
  method EdgesForRun(store: LineageStore, run: string) returns (out: seq<LineageEdge>)
    ensures var pairs := EdgePairs(View(store.Contents(), run));
            && |out| == |pairs|
            && forall i :: 0 <= i < |out| ==>
                 && PairOf(out[i]) == pairs[i] && out[i].runId == run
                 && (run, pairs[i].0, pairs[i].1) in store.lineageEdges
                 && out[i].recordedAt == store.lineageEdges[(run, pairs[i].0, pairs[i].1)]
    ensures forall i, j :: 0 <= i < j < |out| ==>
              || Before(out[i].upstream, out[j].upstream)
              || (out[i].upstream == out[j].upstream && Before(out[i].downstream, out[j].downstream))
  {
    var rows := EdgePairs(View(store.Contents(), run));
    ViewMeaning(store.Contents(), run);
    out := [];
    for i := 0 to |rows|
      invariant |out| == i
      invariant forall j :: 0 <= j < i ==>
        && PairOf(out[j]) == rows[j] && out[j].runId == run
        && (run, rows[j].0, rows[j].1) in store.lineageEdges
        && out[j].recordedAt == store.lineageEdges[(run, rows[j].0, rows[j].1)]
    {
      assert rows[i] in rows && (rows[i].0, rows[i].1) == rows[i];
      var key := (run, rows[i].0, rows[i].1);
      out := out + [LineageEdge(run, rows[i].0, rows[i].1, store.lineageEdges[key])];
    }
  }

  function TaskIdsSorted(v: RunView): seq<string> {
    SortIds(v.rows.Keys)
  }

  /** All task rows of the run, ordered by task id. */
  method TaskRunsForRun(store: LineageStore, run: string) returns (out: seq<TaskRunRecord>)
    ensures var ids := TaskIdsSorted(View(store.Contents(), run));
            && |out| == |ids|
            && forall i :: 0 <= i < |out| ==>
                 && (run, ids[i]) in store.taskRuns
                 && var row := store.taskRuns[(run, ids[i])];
                    out[i] == TaskRunRecord(run, ids[i], row.state, row.startedAt, row.finishedAt, row.output)
  {
    var ids := TaskIdsSorted(View(store.Contents(), run));
    ViewMeaning(store.Contents(), run);
    out := [];
    for i := 0 to |ids|
      invariant |out| == i
      invariant forall j :: 0 <= j < i ==>
        && (run, ids[j]) in store.taskRuns
        && var row := store.taskRuns[(run, ids[j])];
           out[j] == TaskRunRecord(run, ids[j], row.state, row.startedAt, row.finishedAt, row.output)
    {
      assert ids[i] in ids;
      var row := store.taskRuns[(run, ids[i])];
      out := out + [TaskRunRecord(run, ids[i], row.state, row.startedAt, row.finishedAt, row.output)];
    }
  }

  // ---------- the rendering ----------

  function Endpoints(v: RunView): set<string> {
    (set e | e in v.edges :: e.0) + (set e | e in v.edges :: e.1)
  }

  /** The nodes drawn: the endpoints of the edges and the recorded tasks. */
  function NodeIds(v: RunView): set<string> {
    Endpoints(v) + v.rows.Keys
  }

  function NodeListing(v: RunView): seq<string> {
    SortIds(NodeIds(v))
  }

  function Digit(d: nat): char
    requires d < 10
  {
    ['0', '1', '2', '3', '4', '5', '6', '7', '8', '9'][d]
  }

  function Decimal(n: nat): string {
    if n < 10 then [Digit(n)] else Decimal(n / 10) + [Digit(n % 10)]
  }

  function Alias(i: nat): string {
    "t" + Decimal(i)
  }

  function Position(ids: seq<string>, id: string): (i: nat)
    requires id in ids
    ensures i < |ids| && ids[i] == id
  {
    if ids[0] == id then 0 else 1 + Position(ids[1..], id)
  }

  datatype Line = Header | NodeLine(name: string, id: string) | EdgeLine(from: string, to: string)

  function NodeLines(ids: seq<string>): seq<Line> {
    seq(|ids|, i requires 0 <= i < |ids| => NodeLine(Alias(i), ids[i]))
  }

  function EdgeLines(ids: seq<string>, pairs: seq<(string, string)>): seq<Line>
    requires forall p :: p in pairs ==> p.0 in ids && p.1 in ids
  {
    seq(|pairs|, k requires 0 <= k < |pairs| =>
      assert pairs[k] in pairs;
      EdgeLine(Alias(Position(ids, pairs[k].0)), Alias(Position(ids, pairs[k].1))))
  }

  /** The lines of a drawing with these nodes and edges: the header, then nodes, then edges. */
  function LinesOf(ids: seq<string>, pairs: seq<(string, string)>): seq<Line>
    requires forall p :: p in pairs ==> p.0 in ids && p.1 in ids
  {
    [Header] + NodeLines(ids) + EdgeLines(ids, pairs)
  }

  lemma {:induction false} PairsAreNodes(v: RunView)
    ensures forall p :: p in EdgePairs(v) ==> p.0 in NodeListing(v) && p.1 in NodeListing(v)
  {
    forall p | p in EdgePairs(v) ensures p.0 in NodeListing(v) && p.1 in NodeListing(v) {
      assert p in v.edges;
    }
  }

  /** The lines of the drawing, a function of the run's node set and edge set. */
  function Lines(v: RunView): seq<Line> {
    PairsAreNodes(v);
    LinesOf(NodeListing(v), EdgePairs(v))
  }

  function LineText(l: Line): string {
    match l
    case Header => "graph TD"
    case NodeLine(name, id) => "    " + name + "[\"" + id + "\"]"
    case EdgeLine(from, to) => "    " + from + " --> " + to
  }

  /** The text of each line, with its line break. */
  function Texts(ls: seq<Line>): seq<string> {
    seq(|ls|, i requires 0 <= i < |ls| => LineText(ls[i]) + "\n")
  }

  function Concat(ss: seq<string>): string {
    if ss == [] then "" else ss[0] + Concat(ss[1..])
  }

  lemma {:induction false} ConcatAppend(ss: seq<string>, s: string)
    ensures Concat(ss + [s]) == Concat(ss) + s
  {
    if ss == [] {
      assert ss + [s] == [s] && [s][1..] == [];
    } else {
      ConcatAppend(ss[1..], s);
      assert (ss + [s])[1..] == ss[1..] + [s];
    }
  }

  function Text(ls: seq<Line>): string {
    Concat(Texts(ls))
  }

  function EndpointsOf(pairs: seq<(string, string)>): set<string> {
    if pairs == [] then {}
    else EndpointsOf(pairs[..|pairs| - 1]) + {pairs[|pairs| - 1].0} + {pairs[|pairs| - 1].1}
  }

  lemma {:induction false} EndpointsMeaning(pairs: seq<(string, string)>, id: string)
    ensures id in EndpointsOf(pairs) <==> exists p :: p in pairs && (p.0 == id || p.1 == id)
  {
    if pairs == [] {
    } else {
      var n := |pairs| - 1;
      EndpointsMeaning(pairs[..n], id);
      assert pairs == pairs[..n] + [pairs[n]];
    }
  }

  lemma {:induction false} EndpointsOfRun(v: RunView)
    ensures EndpointsOf(EdgePairs(v)) == Endpoints(v)
  {
    forall id ensures id in EndpointsOf(EdgePairs(v)) <==> id in Endpoints(v) { EndpointsMeaning(EdgePairs(v), id); }
  }

  /** The endpoints of the listed edges. */
  method GatherEndpoints(edges: seq<LineageEdge>, ghost pairs: seq<(string, string)>) returns (nodes: set<string>)
    requires |edges| == |pairs| && forall i :: 0 <= i < |edges| ==> PairOf(edges[i]) == pairs[i]
    ensures nodes == EndpointsOf(pairs)
  {
    nodes := {};
    for i := 0 to |edges|
      invariant nodes == EndpointsOf(pairs[..i])
    {
      assert pairs[..i + 1][..i] == pairs[..i] && PairOf(edges[i]) == pairs[i];
      nodes := nodes + {edges[i].upstream} + {edges[i].downstream};
    }
    assert pairs[..|edges|] == pairs;
  }

  /** The endpoints together with the recorded tasks. */
  method GatherNodes(store: LineageStore, run: string, edges: seq<LineageEdge>) returns (nodes: set<string>)
    requires var pairs := EdgePairs(View(store.Contents(), run));
             |edges| == |pairs| && forall i :: 0 <= i < |edges| ==> PairOf(edges[i]) == pairs[i]
    ensures nodes == NodeIds(View(store.Contents(), run))
  {
    ghost var v := View(store.Contents(), run);
    nodes := GatherEndpoints(edges, EdgePairs(v));
    EndpointsOfRun(v);
    var runs := TaskRunsForRun(store, run);
    nodes := AddTaskIds(nodes, runs, TaskIdsSorted(v));
    assert Elements(TaskIdsSorted(v)) == v.rows.Keys;
  }

  method AddTaskIds(start: set<string>, runs: seq<TaskRunRecord>, ghost ids: seq<string>) returns (nodes: set<string>)
    requires |runs| == |ids| && forall i :: 0 <= i < |runs| ==> runs[i].taskId == ids[i]
    ensures nodes == start + Elements(ids)
  {
    nodes := start;
    for i := 0 to |runs|
      invariant nodes == start + Elements(ids[..i])
    {
      assert ids[..i + 1] == ids[..i] + [ids[i]];
      nodes := nodes + {runs[i].taskId};
    }
    assert ids[..|runs|] == ids;
  }

  method AssignAliases(ordered: seq<string>) returns (aliases: map<string, string>)
    requires Distinct(ordered)
    ensures forall i :: 0 <= i < |ordered| ==> ordered[i] in aliases && aliases[ordered[i]] == Alias(i)
  {
    aliases := map[];
    for i := 0 to |ordered|
      invariant forall j :: 0 <= j < i ==> ordered[j] in aliases && aliases[ordered[j]] == Alias(j)
    {
      aliases := aliases[ordered[i] := Alias(i)];
    }
  }

  /** The loops that push one string after another. */
  method Push(start: string, lines: seq<string>, ghost before: seq<string>) returns (out: string)
    requires start == Concat(before)
    ensures out == Concat(before + lines)
  {
    out := start;
    assert before + lines[..0] == before;
    for i := 0 to |lines|
      invariant out == Concat(before + lines[..i])
    {
      ConcatAppend(before + lines[..i], lines[i]);
      assert before + lines[..i + 1] == (before + lines[..i]) + [lines[i]];
      out := out + lines[i];
    }
    assert lines[..|lines|] == lines;
  }

  function NodeText(id: string, aliases: map<string, string>): string
    requires id in aliases
  {
    "    " + aliases[id] + "[\"" + id + "\"]"
  }

  method RenderNodes(ordered: seq<string>, aliases: map<string, string>) returns (out: string)
    requires forall i :: 0 <= i < |ordered| ==> ordered[i] in aliases && aliases[ordered[i]] == Alias(i)
    ensures out == Concat(["graph TD\n"] + Texts(NodeLines(ordered)))
  {
    var lines := seq(|ordered|, i requires 0 <= i < |ordered| && ordered[i] in aliases =>
      NodeText(ordered[i], aliases) + "\n");
    assert lines == Texts(NodeLines(ordered));
    ConcatAppend([], "graph TD\n");
    assert [] + ["graph TD\n"] == ["graph TD\n"];
    out := Push("graph TD\n", lines, ["graph TD\n"]);
  }

  /** The line drawn for a listed edge. */
  function EdgeText(e: LineageEdge, aliases: map<string, string>): string
    requires e.upstream in aliases && e.downstream in aliases
  {
    "    " + aliases[e.upstream] + " --> " + aliases[e.downstream]
  }

  /** The aliases looked up by id are those of the ids' positions. */
  lemma {:induction false} EdgeLinesText(ordered: seq<string>, aliases: map<string, string>,
                                        pairs: seq<(string, string)>, edges: seq<LineageEdge>)
    requires forall i :: 0 <= i < |ordered| ==> ordered[i] in aliases && aliases[ordered[i]] == Alias(i)
    requires forall p :: p in pairs ==> p.0 in ordered && p.1 in ordered
    requires |edges| == |pairs| && forall k :: 0 <= k < |edges| ==> PairOf(edges[k]) == pairs[k]
    ensures forall k :: 0 <= k < |edges| ==>
      && edges[k].upstream in aliases && edges[k].downstream in aliases
      && LineText(EdgeLines(ordered, pairs)[k]) == EdgeText(edges[k], aliases)
  {
    forall k | 0 <= k < |edges|
      ensures edges[k].upstream in aliases && edges[k].downstream in aliases
        && LineText(EdgeLines(ordered, pairs)[k]) == EdgeText(edges[k], aliases)
    {
      assert pairs[k] in pairs && PairOf(edges[k]) == pairs[k];
      var i, j := Position(ordered, pairs[k].0), Position(ordered, pairs[k].1);
      assert ordered[i] == edges[k].upstream && ordered[j] == edges[k].downstream;
    }
  }

  method RenderEdges(start: string, edges: seq<LineageEdge>, aliases: map<string, string>,
                     ghost before: seq<string>, ghost lines: seq<Line>)
    returns (out: string)
    requires start == Concat(before) && |lines| == |edges|
    requires forall k :: 0 <= k < |edges| ==>
      && edges[k].upstream in aliases && edges[k].downstream in aliases
      && LineText(lines[k]) == EdgeText(edges[k], aliases)
    ensures out == Concat(before + Texts(lines))
  {
    var texts := seq(|edges|, k requires
      0 <= k < |edges| && edges[k].upstream in aliases && edges[k].downstream in aliases =>
      EdgeText(edges[k], aliases) + "\n");
    assert texts == Texts(lines);
    out := Push(start, texts, before);
  }

  /** Renders the run: a header, one line per node with its alias, one line per edge. */
  method RenderMermaid(store: LineageStore, run: string) returns (out: string)
    ensures out == Text(Lines(View(store.Contents(), run)))
  {
    ghost var v := View(store.Contents(), run);
    var edges := EdgesForRun(store, run);
    var nodes := GatherNodes(store, run, edges);
    var ordered := SortIds(nodes);
    var aliases := AssignAliases(ordered);
    PairsAreNodes(v);
    out := RenderNodes(ordered, aliases);
    ghost var nodeLines, edgeLines := NodeLines(ordered), EdgeLines(ordered, EdgePairs(v));
    EdgeLinesText(ordered, aliases, EdgePairs(v), edges);
    out := RenderEdges(out, edges, aliases, ["graph TD\n"] + Texts(nodeLines), edgeLines);
    TextsInParts(nodeLines, edgeLines);
  }

  lemma {:induction false} TextsInParts(nodeLines: seq<Line>, edgeLines: seq<Line>)
    ensures Texts([Header] + nodeLines + edgeLines) == ["graph TD\n"] + Texts(nodeLines) + Texts(edgeLines)
  {
    HeaderText();
  }

  lemma {:induction false} HeaderText()
    ensures LineText(Header) + "\n" == "graph TD\n"
  {
  }

  /**
   * The drawing depends only on which ids and which edges the run has, not on when, how often or in
   * what state they were recorded: any two logs that agree on those render the same.
   */
  lemma {:induction false} Canonical(a: Tables, b: Tables, run: string, other: string)
    requires forall t :: (run, t) in a.taskRuns <==> (other, t) in b.taskRuns
    requires forall u, d :: (run, u, d) in a.edges <==> (other, u, d) in b.edges
    ensures Text(Lines(View(a, run))) == Text(Lines(View(b, other)))
  {
    var v, w := View(a, run), View(b, other);
    assert Describes(v, a, run) by { ViewMeaning(a, run); }
    assert Describes(w, b, other) by { ViewMeaning(b, other); }
    SameDrawnSets(a, b, run, other, v, w);
    SameLines(v, w);
  }

  /** The view has the task ids and the edges that the tables hold for the run. */
  ghost predicate Describes(v: RunView, tb: Tables, run: string) {
    && (forall t :: t in v.rows <==> (run, t) in tb.taskRuns)
    && (forall u, d :: (u, d) in v.edges <==> (run, u, d) in tb.edges)
  }

  lemma {:induction false} SameDrawnSets(a: Tables, b: Tables, run: string, other: string, v: RunView, w: RunView)
    requires forall t :: (run, t) in a.taskRuns <==> (other, t) in b.taskRuns
    requires forall u, d :: (run, u, d) in a.edges <==> (other, u, d) in b.edges
    requires Describes(v, a, run) && Describes(w, b, other)
    ensures v.edges == w.edges && v.rows.Keys == w.rows.Keys
  {
    forall e ensures e in v.edges <==> e in w.edges { assert e == (e.0, e.1); }
    assert v.rows.Keys == w.rows.Keys;
  }

  lemma {:induction false} SameLines(v: RunView, w: RunView)
    requires v.edges == w.edges && v.rows.Keys == w.rows.Keys
    ensures Lines(v) == Lines(w)
  {
  }

  // ---------- aliases ----------

  lemma {:induction false} DigitInjective(a: nat, b: nat)
    requires a < 10 && b < 10 && Digit(a) == Digit(b)
    ensures a == b
  {
  }

  lemma {:induction false} DecimalInjective(a: nat, b: nat)
    requires Decimal(a) == Decimal(b)
    ensures a == b
  {
    assert |Decimal(a / 10)| > 0 && |Decimal(b / 10)| > 0;
    var s, t := Decimal(a), Decimal(b);
    assert s[|s| - 1] == Digit(a % 10) && t[|t| - 1] == Digit(b % 10);
    DigitInjective(a % 10, b % 10);
    if a >= 10 {
      assert s[..|s| - 1] == Decimal(a / 10);
      assert t[..|t| - 1] == Decimal(b / 10);
      DecimalInjective(a / 10, b / 10);
    }
  }

  lemma {:induction false} AliasInjective(i: nat, j: nat)
    requires Alias(i) == Alias(j)
    ensures i == j
  {
    assert Alias(i)[1..] == Decimal(i) && Alias(j)[1..] == Decimal(j);
    DecimalInjective(i, j);
  }

  // ---------- what an alias says ----------

  /** The number that a string of digits is read as, from left to right. */
  function ReadDigits(s: string, acc: int): int {
    if s == "" then acc else ReadDigits(s[1..], 10 * acc + (s[0] as int - '0' as int))
  }

  lemma {:induction false} ReadLast(s: string, c: char, acc: int)
    ensures ReadDigits(s + [c], acc) == 10 * ReadDigits(s, acc) + (c as int - '0' as int)
  {
    if s == "" {
      assert [c][1..] == "";
      assert s + [c] == [c];
    } else {
      assert (s + [c])[1..] == s[1..] + [c];
      ReadLast(s[1..], c, 10 * acc + (s[0] as int - '0' as int));
    }
  }

  /** `Decimal` is the decimal numeral: it is read as the number, has digits only, and no leading zero. */
  lemma {:induction false} DecimalIsNumeral(n: nat)
    ensures ReadDigits(Decimal(n), 0) == n
    ensures |Decimal(n)| > 0 && forall i :: 0 <= i < |Decimal(n)| ==> '0' <= Decimal(n)[i] <= '9'
    ensures n > 0 ==> Decimal(n)[0] != '0'
    ensures n == 0 ==> Decimal(n) == "0"
  {
    if n < 10 {
      assert Decimal(n)[1..] == "";
    } else {
      DecimalIsNumeral(n / 10);
      ReadLast(Decimal(n / 10), Digit(n % 10), 0);
    }
  }

  /** The i-th alias is the letter t and the decimal numeral of i. */
  lemma {:induction false} AliasIsNumeral(i: nat)
    ensures |Alias(i)| > 1 && Alias(i)[0] == 't' && ReadDigits(Alias(i)[1..], 0) == i
    ensures forall k :: 1 <= k < |Alias(i)| ==> '0' <= Alias(i)[k] <= '9'
    ensures i > 0 ==> Alias(i)[1] != '0'
    ensures i == 0 ==> Alias(i) == "t0"
  {
    DecimalIsNumeral(i);
    assert Alias(i)[1..] == Decimal(i);
  }

  // ---------- decoding the lines ----------

  /** The table that the node lines declare. */
  function AliasTable(ls: seq<Line>): map<string, string> {
    if ls == [] then map[]
    else
      var before := AliasTable(ls[..|ls| - 1]);
      match ls[|ls| - 1]
      case NodeLine(name, id) => before[name := id]
      case _ => before
  }

  /** The pairs that the edge lines draw, read through a table. */
  function DrawnEdges(table: map<string, string>, ls: seq<Line>): set<(string, string)> {
    set l | l in ls && l.EdgeLine? && l.from in table && l.to in table :: (table[l.from], table[l.to])
  }

  datatype Drawing = Drawing(nodes: set<string>, edges: set<(string, string)>)

  function Decode(ls: seq<Line>): Drawing {
    var table := AliasTable(ls);
    Drawing(table.Values, DrawnEdges(table, ls))
  }

  lemma {:induction false} AliasTableAppend(a: seq<Line>, b: seq<Line>)
    requires forall l :: l in b ==> !l.NodeLine?
    ensures AliasTable(a + b) == AliasTable(a)
  {
    if b == [] {
      assert a + b == a;
    } else {
      var n := |b| - 1;
      assert b[n] in b && forall l :: l in b[..n] ==> l in b;
      AliasTableAppend(a, b[..n]);
      assert (a + b)[..|a + b| - 1] == a + b[..n];
    }
  }

  lemma {:induction false} AliasTableMeaning(ids: seq<string>)
    ensures Reads(AliasTable([Header] + NodeLines(ids)), ids)
  {
    var ls := [Header] + NodeLines(ids);
    if ids == [] {
      assert ls == [Header] && ls[..0] == [];
    } else {
      var n := |ids| - 1;
      assert ls[..|ls| - 1] == [Header] + NodeLines(ids[..n]);
      AliasTableMeaning(ids[..n]);
      OneMoreAlias(AliasTable([Header] + NodeLines(ids[..n])), ids);
    }
  }

  /** The table maps the i-th alias to the i-th id, and holds nothing else. */
  ghost predicate Reads(table: map<string, string>, ids: seq<string>) {
    && (forall i :: 0 <= i < |ids| ==> Alias(i) in table && table[Alias(i)] == ids[i])
    && (forall name :: name in table ==> exists i :: 0 <= i < |ids| && name == Alias(i))
  }

  lemma {:induction false} OneMoreAlias(table: map<string, string>, ids: seq<string>)
    requires ids != [] && Reads(table, ids[..|ids| - 1])
    ensures Reads(table[Alias(|ids| - 1) := ids[|ids| - 1]], ids)
  {
    var n := |ids| - 1;
    forall i | 0 <= i < n ensures Alias(i) != Alias(n) {
      if Alias(i) == Alias(n) { AliasInjective(i, n); }
    }
  }

  lemma {:induction false} DecodeListings(ids: seq<string>, pairs: seq<(string, string)>)
    requires forall p :: p in pairs ==> p.0 in ids && p.1 in ids
    ensures Decode(LinesOf(ids, pairs)) == Drawing(Elements(ids), Elements(pairs))
  {
    var before := [Header] + NodeLines(ids);
    var table := AliasTable(before);
    AliasTableMeaning(ids);
    AliasTableAppend(before, EdgeLines(ids, pairs));
    ValuesAreIds(table, ids);
    EdgesRoundTrip(table, ids, pairs, before);
  }

  lemma {:induction false} ListingsAreSets(v: RunView)
    ensures Elements(NodeListing(v)) == NodeIds(v) && Elements(EdgePairs(v)) == v.edges
  {
  }

  /** Decoding the lines gives back exactly the nodes and the edges of the run. */
  lemma {:induction false} DecodeLines(v: RunView)
    ensures Decode(Lines(v)) == Drawing(NodeIds(v), v.edges)
  {
    PairsAreNodes(v);
    DecodeListings(NodeListing(v), EdgePairs(v));
    ListingsAreSets(v);
  }

  lemma {:induction false} ValuesAreIds(table: map<string, string>, ids: seq<string>)
    requires Reads(table, ids)
    ensures table.Values == Elements(ids)
  {
    forall id | id in ids ensures id in table.Values {
      assert table[Alias(IndexOf(ids, id))] == id;
    }
  }

  lemma {:induction false} EdgesRoundTrip(table: map<string, string>, ids: seq<string>, pairs: seq<(string, string)>,
                                        before: seq<Line>)
    requires Reads(table, ids) && forall p :: p in pairs ==> p.0 in ids && p.1 in ids
    requires forall l :: l in before ==> !l.EdgeLine?
    ensures DrawnEdges(table, before + EdgeLines(ids, pairs)) == Elements(pairs)
  {
    var edgeLines := EdgeLines(ids, pairs);
    forall k | 0 <= k < |pairs|
      ensures var l := edgeLines[k];
              l.EdgeLine? && l.from in table && l.to in table && (table[l.from], table[l.to]) == pairs[k]
    {
      assert pairs[k] in pairs;
      assert ids[Position(ids, pairs[k].0)] == pairs[k].0 && ids[Position(ids, pairs[k].1)] == pairs[k].1;
    }
    forall e | e in pairs ensures e in DrawnEdges(table, before + edgeLines) {
      var l := edgeLines[IndexOf(pairs, e)];
      assert l in before + edgeLines && (table[l.from], table[l.to]) == e;
    }
    forall l | l in before + edgeLines && l.EdgeLine? && l.from in table && l.to in table
      ensures (table[l.from], table[l.to]) in pairs
    {
      var k := IndexOf(edgeLines, l);
      assert (table[l.from], table[l.to]) == pairs[k];
    }
  }
}
