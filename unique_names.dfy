/** The decision both uniqueness rules take for each definition node, and
    what a sequence of such decisions adds up to. A rule owns a table from
    name to the name node that first declared it; the schema bound to the
    context, when there is one, contributes the names it already defines. */
module UniqueNames {
  import opened Ast
  import opened Templates

  /** The known-name table: name to the first declaring name node. */
  type Table = map<string, NodeId>

  /** What a rule reports about one definition node. */
  datatype Finding =
    | ExistsInSchema(name: string, node: NodeId)
    | Duplicate(name: string, first: NodeId, node: NodeId)

  /** One handler call: the new table, what it reports, and what it returns
      to the traversal (`None` for a bare `return;`, `Some(false)` for
      "skip this node's children"). */
  datatype Step = Step(table: Table, finding: Option<Finding>, skip: Option<bool>)

  /** `schema?.getX(name)` is truthy. */
  predicate InSchema(schema: Option<set<string>>, name: string) {
    schema.Some? && name in schema.value
  }

  /** The handler's three outcomes for the definition named by `decl`. */
  function Check(schema: Option<set<string>>, table: Table, decl: NameNode): (s: Step)
    // an entry, once made, is never overwritten
    ensures forall k :: k in table ==> k in s.table && s.table[k] == table[k]
    // a name from the schema is never recorded; any other name is
    ensures s.table.Keys == if InSchema(schema, decl.value) then table.Keys else table.Keys + {decl.value}
    // children are still visited only after a schema collision
    ensures s.skip == (if InSchema(schema, decl.value) then None else Some(false))
    // a report is made exactly when the name is already known, and it blames this node
    ensures s.finding.Some? <==> InSchema(schema, decl.value) || decl.value in table
    ensures s.finding.Some? ==> s.finding.value.name == decl.value && s.finding.value.node == decl.id
    ensures s.finding.Some? && s.finding.value.Duplicate? ==>
      !InSchema(schema, decl.value) && s.finding.value.first == table[decl.value]
    // the finding is the one the reference description gives for a call
    // with no earlier declaration in the document
    ensures s.finding == Expected(schema, table, [], decl)
    // a new name is recorded with the node that declares it
    ensures !InSchema(schema, decl.value) && decl.value !in table ==> s.table == table[decl.value := decl.id]
  {
    if InSchema(schema, decl.value) then
      Step(table, Some(ExistsInSchema(decl.value, decl.id)), None)
    else if decl.value in table then
      Step(table, Some(Duplicate(decl.value, table[decl.value], decl.id)), Some(false))
    else
      Step(table[decl.value := decl.id], None, Some(false))
  }

  /** The table and the per-call findings after the handler has been called
      on each of `decls`, in document order. */
  datatype Trace = Trace(table: Table, findings: seq<Option<Finding>>)

  function Run(schema: Option<set<string>>, table: Table, decls: seq<NameNode>): (r: Trace)
    ensures |r.findings| == |decls|
    decreases |decls|
  {
    if decls == [] then Trace(table, [])
    else
      var s := Check(schema, table, decls[0]);
      var rest := Run(schema, s.table, decls[1..]);
      Trace(rest.table, [s.finding] + rest.findings)
  }

  /** The diagnostics a trace reports: one per call that found something. */
  function Reported(findings: seq<Option<Finding>>): seq<Finding> {
    if findings == [] then []
    else (if findings[0].Some? then [findings[0].value] else []) + Reported(findings[1..])
  }

  /** One more call extends the fold by one step: this is what lets a rule
      object's table be read as the fold over the names it has seen. */
  lemma {:induction false} RunSnoc(schema: Option<set<string>>, table: Table, decls: seq<NameNode>, decl: NameNode)
    ensures var r := Run(schema, table, decls);
            var s := Check(schema, r.table, decl);
            Run(schema, table, decls + [decl]) == Trace(s.table, r.findings + [s.finding])
    decreases |decls|
  {
    if decls == [] {
      assert [] + [decl] == [decl];
    } else {
      var s := Check(schema, table, decls[0]);
      assert (decls + [decl])[0] == decls[0];
      assert (decls + [decl])[1..] == decls[1..] + [decl];
      RunSnoc(schema, s.table, decls[1..], decl);
    }
  }

  lemma {:induction false} ReportedSnoc(findings: seq<Option<Finding>>, f: Option<Finding>)
    ensures Reported(findings + [f]) == Reported(findings) + (if f.Some? then [f.value] else [])
  {
    if findings == [] {
      assert [] + [f] == [f];
    } else {
      var g := findings + [f];
      var head := if findings[0].Some? then [findings[0].value] else [];
      assert g[0] == findings[0];
      assert g[1..] == findings[1..] + [f];
      ReportedSnoc(findings[1..], f);
      assert Reported(g) == head + Reported(g[1..]);
      assert Reported(findings) == head + Reported(findings[1..]);
    }
  }

  // ---------------------------------------------------------------------
  // A reference description of the outcome, without the fold: a name is
  // reported when the schema has it, or when an earlier declaration (in the
  // starting table or earlier in the document) has it; the declaration a
  // duplicate is blamed on is always the first one.

  /** The first declaration of `name` among `decls`. */
  function FirstNamed(decls: seq<NameNode>, name: string): (r: Option<NodeId>)
    ensures r.Some? <==> exists i :: 0 <= i < |decls| && decls[i].value == name
  {
    if decls == [] then None
    else if decls[0].value == name then Some(decls[0].id)
    else
      var r := FirstNamed(decls[1..], name);
      assert forall i :: 1 <= i < |decls| ==> decls[i] == decls[1..][i - 1];
      r
  }

  /** The earliest declaration of `name` before the current one. */
  function Earliest(table: Table, prefix: seq<NameNode>, name: string): Option<NodeId> {
    if name in table then Some(table[name]) else FirstNamed(prefix, name)
  }

  /** What the call on `decl` reports, given the declarations before it. */
  function Expected(schema: Option<set<string>>, table: Table, prefix: seq<NameNode>, decl: NameNode): Option<Finding> {
    if InSchema(schema, decl.value) then Some(ExistsInSchema(decl.value, decl.id))
    else match Earliest(table, prefix, decl.value)
      case None => None
      case Some(first) => Some(Duplicate(decl.value, first, decl.id))
  }

  lemma ExpectedAfterFirstCall(schema: Option<set<string>>, table: Table, decls: seq<NameNode>, i: nat)
    requires 0 < i < |decls|
    ensures Expected(schema, Check(schema, table, decls[0]).table, decls[1..i], decls[i])
         == Expected(schema, table, decls[..i], decls[i])
  {
    assert decls[..i][0] == decls[0];
    assert decls[..i][1..] == decls[1..i];
  }

  /** The fold agrees with the reference description call by call. */
  lemma {:induction false} RunMatchesReference(schema: Option<set<string>>, table: Table, decls: seq<NameNode>)
    ensures forall i :: 0 <= i < |decls| ==>
      Run(schema, table, decls).findings[i] == Expected(schema, table, decls[..i], decls[i])
    decreases |decls|
  {
    if decls != [] {
      var s := Check(schema, table, decls[0]);
      var rest := Run(schema, s.table, decls[1..]);
      var r := Run(schema, table, decls);
      assert r.findings == [s.finding] + rest.findings;
      RunMatchesReference(schema, s.table, decls[1..]);
      forall i | 0 <= i < |decls|
        ensures r.findings[i] == Expected(schema, table, decls[..i], decls[i])
      {
        if i > 0 {
          assert r.findings[i] == rest.findings[i - 1];
          assert decls[1..][..i - 1] == decls[1..i];
          assert decls[1..][i - 1] == decls[i];
          ExpectedAfterFirstCall(schema, table, decls, i);
        }
      }
    }
  }

  /** The final table holds the starting entries unchanged, plus, for every
      name declared in the document and absent from the schema, its first
      declaration. */
  lemma {:induction false} RunTable(schema: Option<set<string>>, table: Table, decls: seq<NameNode>)
    ensures forall name :: name in Run(schema, table, decls).table <==>
      name in table || (!InSchema(schema, name) && FirstNamed(decls, name).Some?)
    ensures forall name :: name in Run(schema, table, decls).table ==>
      Some(Run(schema, table, decls).table[name]) == Earliest(table, decls, name)
    decreases |decls|
  {
    if decls != [] {
      var s := Check(schema, table, decls[0]);
      RunTable(schema, s.table, decls[1..]);
    }
  }

  lemma {:induction false} ReportedAllPresent(findings: seq<Option<Finding>>)
    requires forall i :: 0 <= i < |findings| ==> findings[i].Some?
    ensures |Reported(findings)| == |findings|
    ensures forall i :: 0 <= i < |findings| ==> Reported(findings)[i] == findings[i].value
  {
    if findings != [] {
      ReportedAllPresent(findings[1..]);
    }
  }

  /** A run reports no more diagnostics than it has handler calls. */
  lemma {:induction false} ReportedAtMostOnePerCall(schema: Option<set<string>>, table: Table, decls: seq<NameNode>)
    ensures |Reported(Run(schema, table, decls).findings)| <= |decls|
    decreases |decls|
  {
    if decls != [] {
      var s := Check(schema, table, decls[0]);
      var findings := Run(schema, table, decls).findings;
      assert findings[1..] == Run(schema, s.table, decls[1..]).findings;
      ReportedAtMostOnePerCall(schema, s.table, decls[1..]);
    }
  }

  /** N local declarations of one name that the schema does not have report
      N - 1 duplicates, the k-th naming the first declaration and the
      (k + 1)-th, and the table keeps the first declaration. */
  lemma RepeatedName(schema: Option<set<string>>, table: Table, decls: seq<NameNode>, name: string)
    requires |decls| > 0
    requires forall i :: 0 <= i < |decls| ==> decls[i].value == name
    requires !InSchema(schema, name) && name !in table
    ensures |Reported(Run(schema, table, decls).findings)| == |decls| - 1
    ensures forall k :: 0 <= k < |decls| - 1 ==>
      Reported(Run(schema, table, decls).findings)[k] == Duplicate(name, decls[0].id, decls[k + 1].id)
    ensures Run(schema, table, decls).table == table[name := decls[0].id]
  {
    var r := Run(schema, table, decls);
    RunMatchesReference(schema, table, decls);
    forall i | 0 < i < |decls|
      ensures r.findings[i] == Some(Duplicate(name, decls[0].id, decls[i].id))
    {
      assert decls[..i][0] == decls[0];
    }
    assert r.findings[0] == None;
    assert r.findings == [None] + r.findings[1..];
    ReportedAllPresent(r.findings[1..]);
    RunTable(schema, table, decls);
    assert r.table == table[name := decls[0].id];
  }

  /** Redeclaring a name the schema defines reports "already exists" on every
      declaration, never a duplicate, and leaves the table as it was. */
  lemma SchemaName(schema: Option<set<string>>, table: Table, decls: seq<NameNode>, name: string)
    requires forall i :: 0 <= i < |decls| ==> decls[i].value == name
    requires InSchema(schema, name)
    ensures forall i :: 0 <= i < |decls| ==>
      Run(schema, table, decls).findings[i] == Some(ExistsInSchema(name, decls[i].id))
    ensures Run(schema, table, decls).table == table
  {
    RunMatchesReference(schema, table, decls);
    RunTable(schema, table, decls);
  }

  // ---------------------------------------------------------------------
  // Reporting. Both rules word their two messages as fixed text around the
  // name; only the texts differ.

  /** A rule's wording: "already exists" reads `existsLead + name +
      existsTail`, a duplicate `duplicateLead + name + duplicateTail`. */
  datatype Wording = Wording(existsLead: string, existsTail: string, duplicateLead: string, duplicateTail: string)

  /** The text after the name starts with a character no name contains. */
  predicate Closed(w: Wording) {
    && w.existsTail != [] && !IsNameChar(w.existsTail[0])
    && w.duplicateTail != [] && !IsNameChar(w.duplicateTail[0])
  }

  type ClosedWording = w: Wording | Closed(w) witness Wording("", ".", "", ".")

  function AlreadyExistsMessage(w: Wording, name: string): string {
    w.existsLead + name + w.existsTail
  }

  function DuplicateMessage(w: Wording, name: string): string {
    w.duplicateLead + name + w.duplicateTail
  }

  function AlreadyExistsTemplate(w: Wording): seq<Piece> {
    [Lit(w.existsLead), Hole, Lit(w.existsTail)]
  }

  function DuplicateTemplate(w: Wording): seq<Piece> {
    [Lit(w.duplicateLead), Hole, Lit(w.duplicateTail)]
  }

  /** The diagnostic a finding is reported as: a schema collision blames the
      new name node alone, a duplicate the first and the new one, in that order. */
  function Render(w: Wording, f: Finding): Diagnostic {
    match f
    case ExistsInSchema(name, node) => Diagnostic(AlreadyExistsMessage(w, name), [node])
    case Duplicate(name, first, node) => Diagnostic(DuplicateMessage(w, name), [first, node])
  }

  function RenderAll(w: Wording, fs: seq<Finding>): seq<Diagnostic> {
    seq(|fs|, k requires 0 <= k < |fs| => Render(w, fs[k]))
  }

  /** What one handler call appends to the sink. */
  function Emitted(w: Wording, finding: Option<Finding>): seq<Diagnostic> {
    if finding.Some? then [Render(w, finding.value)] else []
  }

  /** The name nodes of a document's definitions, in document order. */
  function NamesOf<N>(nodes: seq<N>, nameOf: N -> NameNode): (names: seq<NameNode>)
    ensures |names| == |nodes|
    ensures forall i :: 0 <= i < |nodes| ==> names[i] == nameOf(nodes[i])
  {
    if nodes == [] then [] else [nameOf(nodes[0])] + NamesOf(nodes[1..], nameOf)
  }

  /** Everything a fresh rule instance with wording `w` reports over a
      document whose definitions are `nodes`, in document order. */
  function Diagnostics<N>(w: Wording, schema: Option<set<string>>, nodes: seq<N>, nameOf: N -> NameNode): seq<Diagnostic> {
    RenderAll(w, Reported(Run(schema, map[], NamesOf(nodes, nameOf)).findings))
  }

  lemma RenderAllSnoc(w: Wording, fs: seq<Finding>, f: Option<Finding>)
    ensures RenderAll(w, fs + (if f.Some? then [f.value] else [])) == RenderAll(w, fs) + Emitted(w, f)
  {
  }

  /** Each message names what it reports: reading the template back recovers it. */
  lemma MessagesDecode(w: ClosedWording, name: string)
    requires IsName(name)
    ensures Match(AlreadyExistsTemplate(w), AlreadyExistsMessage(w, name)) == Some([name])
    ensures Match(DuplicateTemplate(w), DuplicateMessage(w, name)) == Some([name])
  {
    NameHasNoDelimiter(name, w.existsTail[0]);
    NameHasNoDelimiter(name, w.duplicateTail[0]);
    OneSlot(w.existsLead, w.existsTail, name);
    OneSlot(w.duplicateLead, w.duplicateTail, name);
  }

  /** A reported diagnostic determines the finding it reports. */
  lemma DiagnosticDeterminesFinding(w: ClosedWording, f: Finding, g: Finding)
    requires IsName(f.name) && IsName(g.name)
    requires Render(w, f) == Render(w, g)
    ensures f == g
  {
    MessagesDecode(w, f.name);
    MessagesDecode(w, g.name);
  }
}
