/** The GUID-keyed online trees of internal/xray/process.go: what each panel reports
    about itself and the panels behind it, and what the root makes of it. */
module NodeTrees {
  import opened Text

  type Tree = map<string, seq<string>>

  /** A tree with each list of emails read as a set. */
  function Sets(tree: Tree): map<string, set<string>> {
    map g | g in tree :: Members(tree[g])
  }

  function AllSets(trees: map<int, Tree>): map<int, map<string, set<string>>> {
    map id | id in trees :: Sets(trees[id])
  }

  /** Everything the direct nodes report under one GUID. */
  function EmailsUnder(trees: map<int, map<string, set<string>>>, guid: string): set<string> {
    set id, e | id in trees && guid in trees[id] && e in trees[id][guid] :: e
  }

  function Guids(trees: map<int, map<string, set<string>>>): set<string> {
    set id, g | id in trees && g in trees[id] :: g
  }

  /** What GetMergedNodeTrees stands for: the union per GUID, without the empty GUID
      and without empty sets. */
  function Merged(trees: map<int, map<string, set<string>>>): map<string, set<string>> {
    map g | g in Guids(trees) && g != "" && EmailsUnder(trees, g) != {} :: EmailsUnder(trees, g)
  }

  // ------------------------------------------------------------------ the code

  class Process {
    var nodeOnlineTrees: map<int, Tree>
    var onlineClients: seq<string>

    constructor ()
      ensures nodeOnlineTrees == map[] && onlineClients == []
    {
      nodeOnlineTrees, onlineClients := map[], [];
    }

    method SetNodeOnlineTree(nodeID: int, tree: Tree)
      modifies `nodeOnlineTrees
      ensures nodeOnlineTrees == old(nodeOnlineTrees)[nodeID := tree]
    {
      nodeOnlineTrees := nodeOnlineTrees[nodeID := tree];
    }

    method ClearNodeOnlineClients(nodeID: int)
      modifies `nodeOnlineTrees
      ensures nodeOnlineTrees == old(nodeOnlineTrees) - {nodeID}
    {
      nodeOnlineTrees := nodeOnlineTrees - {nodeID};
    }

    method GetMergedNodeTrees() returns (out: Tree)
      ensures Sets(out) == Merged(AllSets(nodeOnlineTrees))
      ensures forall g :: g in out ==> NoRepeats(out[g])
    {
      if |nodeOnlineTrees| == 0 {
        return map[];
      }
      out := map[];
      var todo := nodeOnlineTrees.Keys;
      ghost var done: map<int, Tree> := map[];
      while todo != {}
        invariant todo <= nodeOnlineTrees.Keys
        invariant done == map id | id in nodeOnlineTrees && id !in todo :: nodeOnlineTrees[id]
        invariant Merging(out, AllSets(done))
        decreases todo
      {
        var id := Pick(todo);
        todo := todo - {id};
        out := MergeTree(out, nodeOnlineTrees[id]);
        MergedMore(done, id, nodeOnlineTrees[id]);
        done := done[id := nodeOnlineTrees[id]];
      }
      assert done == nodeOnlineTrees;
      MergingDone(out, AllSets(done));
    }

    /** Union of the local and all node-online emails, each once. */
    method GetOnlineClients() returns (out: seq<string>)
      requires NoRepeats(onlineClients)
      ensures NoRepeats(out)
      ensures forall e :: e in out <==>
        e in onlineClients
        || exists id, g :: id in nodeOnlineTrees && g in nodeOnlineTrees[id] && e in nodeOnlineTrees[id][g]
    {
      if |nodeOnlineTrees| == 0 {
        return onlineClients;
      }
      out := onlineClients;
      var todo := nodeOnlineTrees.Keys;
      while todo != {}
        invariant todo <= nodeOnlineTrees.Keys && NoRepeats(out)
        invariant forall e :: e in out <==>
          e in onlineClients
          || exists id :: id in nodeOnlineTrees && id !in todo && InTree(nodeOnlineTrees[id], e)
        decreases todo
      {
        var id := Pick(todo);
        todo := todo - {id};
        out := AddTree(out, nodeOnlineTrees[id]);
      }
      forall e
        ensures e in out <==>
          e in onlineClients
          || exists id, g :: id in nodeOnlineTrees && g in nodeOnlineTrees[id] && e in nodeOnlineTrees[id][g]
      {
        if id, g :| id in nodeOnlineTrees && g in nodeOnlineTrees[id] && e in nodeOnlineTrees[id][g] {
          assert InTree(nodeOnlineTrees[id], e);
        }
      }
    }
  }

  predicate InTree(tree: Tree, e: string) {
    exists g :: g in tree && e in tree[g]
  }

  method AddTree(start: seq<string>, tree: Tree) returns (out: seq<string>)
    requires NoRepeats(start)
    ensures NoRepeats(out)
    ensures forall e :: e in out <==> e in start || InTree(tree, e)
  {
    out := start;
    var todo := tree.Keys;
    while todo != {}
      invariant todo <= tree.Keys && NoRepeats(out)
      invariant forall e :: e in out <==> e in start || exists g :: g in tree && g !in todo && e in tree[g]
      decreases todo
    {
      var g := Pick(todo);
      todo := todo - {g};
      out := Add(out, tree[g]);
    }
  }

  /** Appends the emails that are not there yet. */
  method Add(start: seq<string>, emails: seq<string>) returns (out: seq<string>)
    requires NoRepeats(start)
    ensures NoRepeats(out)
    ensures Members(out) == Members(start) + Members(emails)
    ensures forall e :: e in out <==> e in start || e in emails
  {
    out := start;
    for i := 0 to |emails|
      invariant NoRepeats(out) && Members(out) == Members(start) + Members(emails[..i])
    {
      assert emails[..i + 1] == emails[..i] + [emails[i]];
      if emails[i] !in out {
        assert Members(out + [emails[i]]) == Members(out) + {emails[i]};
        out := out + [emails[i]];
      }
    }
    assert emails[..|emails|] == emails;
    assert forall e :: e in out <==> e in Members(out);
    assert forall e :: e in emails <==> e in Members(emails);
    assert forall e :: e in start <==> e in Members(start);
  }

  method MergeTree(start: Tree, tree: Tree) returns (out: Tree)
    requires Clean(start)
    ensures Clean(out)
    ensures forall g, e :: Holds(out, g, e) <==> Holds(start, g, e) || (g != "" && Holds(tree, g, e))
  {
    out := start;
    var todo := tree.Keys;
    while todo != {}
      invariant todo <= tree.Keys && Clean(out)
      invariant forall g, e :: Holds(out, g, e) <==> Holds(start, g, e) || (g != "" && g !in todo && Holds(tree, g, e))
      decreases todo
    {
      var guid := Pick(todo);
      todo := todo - {guid};
      if guid == "" || |tree[guid]| == 0 {
        continue;
      }
      ghost var before := out;
      var emails := Add(if guid in out then out[guid] else [], tree[guid]);
      out := out[guid := emails];
      forall g, e
        ensures Holds(out, g, e) <==> Holds(before, g, e) || (g == guid && Holds(tree, g, e))
      {
      }
      assert tree[guid][0] in emails;
    }
  }

  predicate Holds(tree: Tree, g: string, e: string) {
    g in tree && e in tree[g]
  }

  /** Lists without repeats, none of them empty, none under the empty GUID. */
  predicate Clean(tree: Tree) {
    forall g :: g in tree ==> g != "" && tree[g] != [] && NoRepeats(tree[g])
  }

  ghost predicate Merging(out: Tree, trees: map<int, map<string, set<string>>>) {
    && Clean(out)
    && forall g, e :: Holds(out, g, e) <==> g != "" && e in EmailsUnder(trees, g)
  }

  lemma MergedMore(done: map<int, Tree>, id: int, tree: Tree)
    requires id !in done
    ensures forall g, e ::
      e in EmailsUnder(AllSets(done[id := tree]), g) <==> e in EmailsUnder(AllSets(done), g) || Holds(tree, g, e)
  {
    var trees, more := AllSets(done), AllSets(done[id := tree]);
    forall g, e
      ensures e in EmailsUnder(more, g) <==> e in EmailsUnder(trees, g) || Holds(tree, g, e)
    {
      if e in EmailsUnder(trees, g) {
        var i :| i in trees && g in trees[i] && e in trees[i][g];
        assert i in more && g in more[i] && e in more[i][g];
      }
      if Holds(tree, g, e) {
        assert id in more && g in more[id] && e in more[id][g];
      }
      if e in EmailsUnder(more, g) {
        var i :| i in more && g in more[i] && e in more[i][g];
        assert i == id || (i in trees && g in trees[i] && e in trees[i][g]);
      }
    }
  }

  lemma MergingDone(out: Tree, trees: map<int, map<string, set<string>>>)
    requires Merging(out, trees)
    ensures Sets(out) == Merged(trees)
  {
    forall g ensures g in out <==> g in Merged(trees) {
      if g in out {
        assert Holds(out, g, out[g][0]);
      }
      if g in Merged(trees) {
        var e :| e in EmailsUnder(trees, g);
        assert Holds(out, g, e);
      }
    }
    forall g | g in out ensures Members(out[g]) == EmailsUnder(trees, g) {
      forall e ensures e in Members(out[g]) <==> e in EmailsUnder(trees, g) {
        assert Holds(out, g, e) <==> g != "" && e in EmailsUnder(trees, g);
      }
    }
  }

  // ------------------------------------------------------------ trees of panels

  /** A panel, the emails online on its own core, and the nodes it manages. */
  datatype Panel = Panel(guid: string, local: set<string>, nodes: map<int, Panel>)

  /** What a panel reports to the one above it (GetOnlineClientsByGuid): its merged
      node trees, and its own clients under its own GUID. */
  function Report(p: Panel): map<string, set<string>>
    decreases p, 2
  {
    var m := MergedNodes(p);
    if p.local != {} && p.guid != "" then
      m[p.guid := (if p.guid in m then m[p.guid] else {}) + p.local]
    else m
  }

  function MergedNodes(p: Panel): map<string, set<string>>
    decreases p, 1
  {
    Merged(NodeReports(p))
  }

  function NodeReports(p: Panel): map<int, map<string, set<string>>>
    decreases p, 0
  {
    map id | id in p.nodes :: Report(p.nodes[id])
  }

  /** The email is online on a panel with this GUID, somewhere in the tree. */
  ghost predicate Hosts(p: Panel, g: string, e: string)
    decreases p, 1
  {
    (p.guid == g && e in p.local) || HostsBelow(p, g, e)
  }

  ghost predicate HostsBelow(p: Panel, g: string, e: string)
    decreases p, 0
  {
    exists id :: id in p.nodes && Hosts(p.nodes[id], g, e)
  }

  /** At any depth an email is reported under exactly the GUIDs of the panels that
      host it, and no GUID is reported without emails. */
  lemma {:induction false} ReportIsHosting(p: Panel, g: string, e: string)
    ensures (g in Report(p) && e in Report(p)[g]) <==> g != "" && Hosts(p, g, e)
    ensures (g in MergedNodes(p) && e in MergedNodes(p)[g]) <==> g != "" && HostsBelow(p, g, e)
    ensures g in Report(p) ==> Report(p)[g] != {}
    decreases p
  {
    var reports := NodeReports(p);
    forall id | id in p.nodes
      ensures (g in reports[id] && e in reports[id][g]) <==> g != "" && Hosts(p.nodes[id], g, e)
    {
      ReportIsHosting(p.nodes[id], g, e);
    }
    if g in MergedNodes(p) && e in MergedNodes(p)[g] {
      var id :| id in reports && g in reports[id] && e in reports[id][g];
      assert Hosts(p.nodes[id], g, e);
    }
    if g != "" && HostsBelow(p, g, e) {
      var id :| id in p.nodes && Hosts(p.nodes[id], g, e);
      assert id in reports && g in reports[id] && e in reports[id][g];
      assert e in EmailsUnder(reports, g) && g in Guids(reports);
      assert g in MergedNodes(p) && e in MergedNodes(p)[g];
    }
  }

  function PanelGuids(p: Panel): set<string> {
    {p.guid} + set id, g | id in p.nodes && g in PanelGuids(p.nodes[id]) :: g
  }

  /** Every panel of the tree has a non-empty GUID of its own. */
  ghost predicate DistinctGuids(p: Panel) {
    && p.guid != ""
    && (forall id :: id in p.nodes ==> DistinctGuids(p.nodes[id]) && p.guid !in PanelGuids(p.nodes[id]))
    && (forall i, j :: i in p.nodes && j in p.nodes && i != j ==> PanelGuids(p.nodes[i]) !! PanelGuids(p.nodes[j]))
  }

  /** The panel with this GUID has this local set. */
  ghost predicate LocalAt(p: Panel, g: string, local: set<string>) {
    (p.guid == g && p.local == local) || exists id :: id in p.nodes && LocalAt(p.nodes[id], g, local)
  }

  lemma {:induction false} HostsInGuids(p: Panel, g: string, e: string)
    requires Hosts(p, g, e)
    ensures g in PanelGuids(p)
    decreases p
  {
    if !(p.guid == g && e in p.local) {
      var id :| id in p.nodes && Hosts(p.nodes[id], g, e);
      HostsInGuids(p.nodes[id], g, e);
    }
  }

  lemma {:induction false} LocalInGuids(p: Panel, g: string, local: set<string>)
    requires LocalAt(p, g, local)
    ensures g in PanelGuids(p)
    decreases p
  {
    if !(p.guid == g && p.local == local) {
      var id :| id in p.nodes && LocalAt(p.nodes[id], g, local);
      LocalInGuids(p.nodes[id], g, local);
    }
  }

  lemma {:induction false} HostsIsLocal(p: Panel, g: string, local: set<string>, e: string)
    requires DistinctGuids(p) && LocalAt(p, g, local)
    ensures Hosts(p, g, e) <==> e in local
    decreases p
  {
    if p.guid == g {
      if id :| id in p.nodes && LocalAt(p.nodes[id], g, local) {
        LocalInGuids(p.nodes[id], g, local);
      }
      if id :| id in p.nodes && Hosts(p.nodes[id], g, e) {
        HostsInGuids(p.nodes[id], g, e);
      }
    } else {
      var id :| id in p.nodes && LocalAt(p.nodes[id], g, local);
      LocalInGuids(p.nodes[id], g, local);
      HostsIsLocal(p.nodes[id], g, local, e);
      forall j | j in p.nodes && Hosts(p.nodes[j], g, e) ensures j == id {
        HostsInGuids(p.nodes[j], g, e);
      }
    }
  }

  /** With distinct GUIDs the root's merged map gives every descendant with online
      clients exactly its own set, however deep it is, and nothing else. */
  lemma DescendantsAttributed(root: Panel, id: int, g: string, local: set<string>)
    requires DistinctGuids(root) && id in root.nodes && LocalAt(root.nodes[id], g, local)
    ensures if local == {} then g !in MergedNodes(root)
            else g in MergedNodes(root) && MergedNodes(root)[g] == local
  {
    LocalInGuids(root.nodes[id], g, local);
    assert LocalAt(root, g, local) && g != root.guid;
    forall e
      ensures (g in MergedNodes(root) && e in MergedNodes(root)[g]) <==> g != "" && e in local
    {
      ReportIsHosting(root, g, e);
      HostsIsLocal(root, g, local, e);
    }
    GuidNotEmpty(root.nodes[id], g, local);
  }

  lemma {:induction false} GuidNotEmpty(p: Panel, g: string, local: set<string>)
    requires DistinctGuids(p) && LocalAt(p, g, local)
    ensures g != ""
    decreases p
  {
    if !(p.guid == g && p.local == local) {
      var id :| id in p.nodes && LocalAt(p.nodes[id], g, local);
      GuidNotEmpty(p.nodes[id], g, local);
    }
  }

  lemma ReportedInGuids(p: Panel, g: string)
    requires g in Report(p)
    ensures g in PanelGuids(p)
  {
    ReportIsHosting(p, g, "");
    var e :| e in Report(p)[g];
    ReportIsHosting(p, g, e);
    HostsInGuids(p, g, e);
  }

  /** Clearing a direct node takes away exactly the GUIDs of its branch. */
  lemma ClearRemovesBranch(root: Panel, id: int, g: string)
    requires DistinctGuids(root) && id in root.nodes
    ensures var before, after := Merged(NodeReports(root)), Merged(NodeReports(root) - {id});
      && (g in after <==> g in before && g !in PanelGuids(root.nodes[id]))
      && (g in after ==> after[g] == before[g])
  {
    var trees := NodeReports(root);
    var rest := trees - {id};
    forall i | i in trees && g in trees[i] ensures g in PanelGuids(root.nodes[i]) {
      ReportedInGuids(root.nodes[i], g);
    }
    if g in PanelGuids(root.nodes[id]) {
      assert EmailsUnder(rest, g) == {};
    } else {
      forall e | e in EmailsUnder(trees, g) ensures e in EmailsUnder(rest, g) {
        var i :| i in trees && g in trees[i] && e in trees[i][g];
        assert i in rest && g in rest[i] && e in rest[i][g];
      }
      assert EmailsUnder(rest, g) == EmailsUnder(trees, g);
      if e :| e in EmailsUnder(trees, g) {
        var i :| i in trees && g in trees[i] && e in trees[i][g];
        assert i in rest && g in rest[i];
      }
    }
  }
}
