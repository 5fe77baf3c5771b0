/** From list literals to what is read in memory, end to end: collecting, emitting and linking always succeed. */
module ListImages {
  import opened Wrappers
  import opened Ast
  import opened ListLiterals
  import opened ListLayout
  import opened ListDecoding
  import opened ListLabels

  // ----- when linking succeeds -----

  /** The words of the read-only data can be linked exactly when each of them can be patched. */
  lemma {:induction false} ImageExactly(s: Stream, at: int, labels: map<string, int>, runtime: map<string, int>)
    ensures RodataImage(s, at, labels, runtime).Ok? <==>
            forall e :: e in s && e.segment.RODATA? && Emits(e) ==> Patch(e, labels, runtime).Ok?
    decreases |s|
  {
    hide Patch;
    if s != [] {
      var emits := s[0].segment.RODATA? && Emits(s[0]);
      ImageExactly(s[1..], if emits then at + 4 else at, labels, runtime);
      assert forall e :: e in s <==> e == s[0] || e in s[1..];
    }
  }

  lemma {:induction false} LabelsJoin(a: Stream, b: Stream)
    ensures LabelsIn(a + b) == LabelsIn(a) + LabelsIn(b)
  {
    if a == [] {
      assert a + b == b;
    } else {
      assert (a + b)[1..] == a[1..] + b;
      LabelsJoin(a[1..], b);
    }
  }

  /** The labels defined are those of the stream. */
  lemma {:induction false} DefinedLabels(s: Stream, c: Cursors, labels: map<string, int>)
    requires DefineLabels(s, c, labels).Ok?
    ensures DefineLabels(s, c, labels).value.Keys == labels.Keys + LabelsIn(s)
    decreases |s|
  {
    hide Advance, Cursor;
    if s != [] {
      var next := if s[0].isLabel then labels[s[0].target := Cursor(c, s[0].segment)] else labels;
      assert next.Keys == labels.Keys + if s[0].isLabel then {s[0].target} else {};
      DefinedLabels(s[1..], Advance(c, s[0]), next);
    }
  }

  /** The entry needs no label, or one of these. */
  predicate Resolves(e: Entry, names: set<string>) {
    e.relocation.NoRelocation? || e.target == "" || e.target in names
  }

  predicate AllResolve(s: Stream, names: set<string>) {
    forall e :: e in s && e.segment.RODATA? && Emits(e) ==> Resolves(e, names)
  }

  /** A stream whose labels are fresh and whose words refer to labels of its own or of the runtime can be linked. */
  lemma StreamLinks(s: Stream, c: Cursors, runtime: map<string, int>)
    requires Fresh(s, {}) && AllResolve(s, LabelsIn(s) + runtime.Keys)
    ensures DefineLabels(s, c, map[]).Ok?
    ensures RodataImage(s, c.rodata, DefineLabels(s, c, map[]).value, runtime).Ok?
    ensures DefineLabels(s, c, map[]).value.Keys == LabelsIn(s)
  {
    hide Fresh, LabelsIn, DefineLabels, RodataImage;
    var none: map<string, int> := map[];
    assert none.Keys == {};
    DefinedExactly(s, c, none);
    DefinedLabels(s, c, none);
    var labels := DefineLabels(s, c, none).value;
    assert {} + LabelsIn(s) == LabelsIn(s);
    ImageExactly(s, c.rodata, labels, runtime);
  }

  // ----- collected lists refer to collected lists only -----

  ghost predicate IsDescribed(infos: seq<ListInfo>, ns: seq<NodeInfo>) {
    exists es :: NodesDescribe(infos, ns, es)
  }

  ghost predicate AllDescribed(infos: seq<ListInfo>) {
    forall k :: 0 <= k < |infos| ==> IsDescribed(infos, infos[k].nodes)
  }

  lemma OneMoreDescribed(infos: seq<ListInfo>, info: ListInfo, es: seq<Element>)
    requires AllDescribed(infos) && NodesDescribe(infos, info.nodes, es)
    ensures AllDescribed(infos + [info])
  {
    hide NodesDescribe;
    var more := infos + [info];
    forall k | 0 <= k < |more|
      ensures IsDescribed(more, more[k].nodes)
    {
      if k < |infos| {
        assert IsDescribed(infos, infos[k].nodes);
        var fs :| NodesDescribe(infos, infos[k].nodes, fs);
        NodesDescribeGrows(infos, more, infos[k].nodes, fs);
        assert NodesDescribe(more, more[k].nodes, fs);
      } else {
        NodesDescribeGrows(infos, more, info.nodes, es);
        assert NodesDescribe(more, more[k].nodes, es);
      }
    }
  }

  lemma {:induction false} AddListKeepsDescribed(s: Collection, l: Literal)
    requires Faithful(s) && AllDescribed(s.infos)
    ensures AllDescribed(AddList(s, l).state.infos)
    decreases l, 1
  {
    hide ListKey, HeaderLabel, AddElements, NodesDescribe, Faithful, AllDescribed;
    if ListKey(l) !in s.labels {
      var id := s.nextId;
      var started := s.(nextId := id + 1);
      FaithfulGrows(s, started);
      AddElementsKeepDescribed(started, l.elements, id, 0);
      AddElementsDescribe(started, l.elements, id, 0);
      var r := AddElements(started, l.elements, id, 0);
      OneMoreDescribed(r.state.infos, ListInfo(HeaderLabel(id), r.nodes, |l.elements|), l.elements);
    }
  }

  lemma {:induction false} AddElementsKeepDescribed(s: Collection, es: seq<Element>, id: nat, i: nat)
    requires Faithful(s) && AllDescribed(s.infos)
    ensures AllDescribed(AddElements(s, es, id, i).state.infos)
    decreases es, 0
  {
    hide ListKey, Faithful, AddList, AllDescribed, NodeLabel;
    if es != [] {
      if es[0].ListElement? {
        assert es[0] in es && es[0].list < es[0];
        AddListKeepsDescribed(s, es[0].list);
        AddListDescribes(s, es[0].list);
        AddElementsKeepDescribed(AddList(s, es[0].list).state, es[1..], id, i + 1);
      } else {
        AddElementsKeepDescribed(s, es[1..], id, i + 1);
      }
    }
  }

  /** What a list refers to is among these labels. */
  predicate NodeRefers(n: NodeInfo, names: set<string>) {
    (n.nextLabel == "" || n.nextLabel in names) && (n.isPointer ==> n.pointerLabel in names)
  }

  predicate ListRefers(i: ListInfo, names: set<string>) {
    && (forall n :: n in i.nodes ==> NodeRefers(n, names))
    && (i.nodes != [] ==> i.nodes[0].label_ in names && i.nodes[|i.nodes| - 1].label_ in names)
  }

  lemma {:induction false} NodeLabelsIn(ns: seq<NodeInfo>, j: nat)
    requires j < |ns|
    ensures ns[j].label_ in LabelsIn(EmitNodes(ns))
  {
    LabelsJoin(EmitNode(ns[0]), EmitNodes(ns[1..]));
    if j > 0 {
      hide EmitNode, LabelsIn;
      NodeLabelsIn(ns[1..], j - 1);
    }
  }

  lemma {:induction false} ListLabelsIn(infos: seq<ListInfo>, k: nat)
    requires k < |infos|
    ensures var names := LabelsIn(EmitLists(infos));
            infos[k].header in names && forall n :: n in infos[k].nodes ==> n.label_ in names
    decreases k
  {
    var i := infos[0];
    LabelsJoin(EmitHeader(i), EmitNodes(i.nodes) + EmitLists(infos[1..]));
    LabelsJoin(EmitNodes(i.nodes), EmitLists(infos[1..]));
    assert i.header in LabelsIn(EmitHeader(i));
    hide EmitHeader, EmitNodes, LabelsIn;
    if k > 0 {
      ListLabelsIn(infos[1..], k - 1);
    } else {
      forall n | n in i.nodes
        ensures n.label_ in LabelsIn(EmitNodes(i.nodes))
      {
        var j :| 0 <= j < |i.nodes| && i.nodes[j] == n;
        NodeLabelsIn(i.nodes, j);
      }
    }
  }

  lemma {:induction false} DescribedRefer(infos: seq<ListInfo>, ns: seq<NodeInfo>, es: seq<Element>, names: set<string>, j: nat)
    requires NodesDescribe(infos, ns, es) && j < |ns|
    requires (forall k :: 0 <= k < |infos| ==> infos[k].header in names) && (forall n :: n in ns ==> n.label_ in names)
    ensures NodeRefers(ns[j], names)
    decreases es
  {
    if j > 0 {
      assert forall n :: n in ns[1..] ==> n in ns;
      hide Describes, NodeRefers;
      DescribedRefer(infos, ns[1..], es[1..], names, j - 1);
    } else {
      assert |ns| > 1 ==> ns[1] in ns;
      if es[0].ListElement? {
        assert es[0] in es && es[0].list < es[0];
        HeaderOf(infos, ns[0].pointerLabel, es[0].list);
      }
      hide Describes;
    }
  }

  lemma HeaderOf(infos: seq<ListInfo>, name: string, l: Literal)
    requires Describes(infos, name, l)
    ensures exists k :: 0 <= k < |infos| && infos[k].header == name
  {
  }

  lemma CollectedRefer(infos: seq<ListInfo>, k: nat)
    requires AllDescribed(infos) && k < |infos|
    ensures ListRefers(infos[k], LabelsIn(EmitLists(infos)))
  {
    hide NodesDescribe, EmitLists, LabelsIn, NodeRefers;
    var names, ns := LabelsIn(EmitLists(infos)), infos[k].nodes;
    forall j | 0 <= j < |infos|
      ensures infos[j].header in names && forall n :: n in infos[j].nodes ==> n.label_ in names
    {
      ListLabelsIn(infos, j);
    }
    assert IsDescribed(infos, ns);
    var es :| NodesDescribe(infos, ns, es);
    forall n | n in ns
      ensures NodeRefers(n, names)
    {
      var j :| 0 <= j < |ns| && ns[j] == n;
      DescribedRefer(infos, ns, es, names, j);
    }
  }

  lemma AllResolveJoin(a: Stream, b: Stream, names: set<string>)
    requires AllResolve(a, names) && AllResolve(b, names)
    ensures AllResolve(a + b, names)
  {
    hide Resolves;
  }

  lemma NodeResolves(n: NodeInfo, names: set<string>)
    requires NodeRefers(n, names)
    ensures AllResolve(EmitNode(n), names)
  {
  }

  lemma HeaderResolves(i: ListInfo, names: set<string>)
    requires ListRefers(i, names)
    ensures AllResolve(EmitHeader(i), names)
  {
    hide NodeRefers;
  }

  lemma {:induction false} NodesResolve(ns: seq<NodeInfo>, names: set<string>)
    requires forall n :: n in ns ==> NodeRefers(n, names)
    ensures AllResolve(EmitNodes(ns), names)
  {
    hide NodeRefers, EmitNode, AllResolve;
    if ns != [] {
      NodeResolves(ns[0], names);
      NodesResolve(ns[1..], names);
      AllResolveJoin(EmitNode(ns[0]), EmitNodes(ns[1..]), names);
    } else {
      NothingResolves(names);
    }
  }

  lemma NothingResolves(names: set<string>)
    ensures AllResolve([], names)
  {
  }

  lemma {:induction false} ListsResolve(infos: seq<ListInfo>, names: set<string>)
    requires forall i :: i in infos ==> ListRefers(i, names)
    ensures AllResolve(EmitLists(infos), names)
  {
    hide EmitHeader, EmitNodes, AllResolve;
    if infos != [] {
      var i := infos[0];
      assert ListRefers(i, names);
      HeaderResolves(i, names);
      NodesResolve(i.nodes, names);
      ListsResolve(infos[1..], names) by {
        hide ListRefers;
      }
      AllResolveJoin(EmitNodes(i.nodes), EmitLists(infos[1..]), names);
      AllResolveJoin(EmitHeader(i), EmitNodes(i.nodes) + EmitLists(infos[1..]), names);
    } else {
      NothingResolves(names);
    }
  }

  // ----- a program's list literals -----

  const NO_LISTS := Collection([], map[], 0)

  /** The literals are collected one after another. */
  function Collected(ls: seq<Literal>): Collection {
    if ls == [] then NO_LISTS else AddList(Collected(ls[..|ls| - 1]), ls[|ls| - 1]).state
  }

  /** The label returned for the `i`-th literal. */
  function NameOf(ls: seq<Literal>, i: nat): string
    requires i < |ls|
  {
    AddList(Collected(ls[..i]), ls[i]).name
  }

  lemma {:induction false} CollectedIsSound(ls: seq<Literal>) returns (ids: seq<nat>)
    ensures var s := Collected(ls);
            Faithful(s) && AllDescribed(s.infos) && Numbered(s.infos, ids, s.nextId)
  {
    hide AddList, NodesDescribe;
    if ls == [] {
      ids := [];
    } else {
      hide Faithful, AllDescribed, Numbered;
      var front, l := ls[..|ls| - 1], ls[|ls| - 1];
      var before := CollectedIsSound(front);
      AddListDescribes(Collected(front), l);
      AddListKeepsDescribed(Collected(front), l);
      var more := AddListNumbers(Collected(front), l, before);
      ids := before + more;
    }
  }

  lemma {:induction false} CollectedDescribes(ls: seq<Literal>, i: nat)
    requires i < |ls|
    ensures Describes(Collected(ls).infos, NameOf(ls, i), ls[i])
    decreases |ls|
  {
    hide AddList, Describes, Faithful, AllDescribed, Numbered;
    var front, l := ls[..|ls| - 1], ls[|ls| - 1];
    var ids := CollectedIsSound(front);
    AddListDescribes(Collected(front), l);
    if i < |front| {
      CollectedDescribes(front, i);
      assert front[..i] == ls[..i];
      DescribesGrows(Collected(front).infos, Collected(ls).infos, NameOf(ls, i), ls[i]);
    }
  }

  lemma {:induction false} NumberedAreNamed(infos: seq<ListInfo>, ids: seq<nat>, bound: nat, runtime: map<string, int>)
    requires Numbered(infos, ids, bound) && forall id: nat :: Avoids(runtime.Keys, id)
    ensures Named(infos, runtime)
  {
    forall k | 0 <= k < |infos|
      ensures infos[k].header != "" && infos[k].header !in runtime
      ensures forall i :: 0 <= i < |infos[k].nodes| ==> infos[k].nodes[i].label_ != "" && infos[k].nodes[i].label_ !in runtime
    {
      assert Avoids(runtime.Keys, ids[k]);
      assert forall i :: 0 <= i < |infos[k].nodes| ==> infos[k].nodes[i].label_ == NodeLabel(ids[k], 0 + i);
    }
  }

  /** The stream of a program with its list literals behind everything else. */
  function Program(before: Stream, ls: seq<Literal>): Stream {
    before + EmitLists(Collected(ls).infos)
  }

  function StartOf(s: Stream, codeBase: nat, dataBase: int): Cursors {
    Cursors(codeBase, RodataStart(s, codeBase), dataBase)
  }

  /** The rest of the program can be linked on its own and defines no label of a list. */
  ghost predicate Linkable(before: Stream, runtime: map<string, int>) {
    && Fresh(before, {}) && AllResolve(before, LabelsIn(before) + runtime.Keys)
    && forall id: nat :: Avoids(LabelsIn(before) + runtime.Keys, id)
  }

  lemma ProgramLinks(before: Stream, ls: seq<Literal>, runtime: map<string, int>) returns (ids: seq<nat>)
    requires Linkable(before, runtime)
    ensures var s := Program(before, ls); Fresh(s, {}) && AllResolve(s, LabelsIn(s) + runtime.Keys)
    ensures Numbered(Collected(ls).infos, ids, Collected(ls).nextId)
  {
    hide Collected, Fresh, LabelsIn, AllDescribed, Faithful, Numbered, EmitLists;
    var c := Collected(ls);
    var lists := EmitLists(c.infos);
    ids := CollectedIsSound(ls);
    forall k | 0 <= k < |ids|
      ensures Avoids(LabelsIn(before), ids[k])
    {
      assert Avoids(LabelsIn(before) + runtime.Keys, ids[k]);
    }
    ListsAreFresh(c.infos, ids, c.nextId, LabelsIn(before));
    assert {} + LabelsIn(before) == LabelsIn(before);
    FreshJoin(before, lists, {});
    var names := LabelsIn(before) + LabelsIn(lists) + runtime.Keys;
    forall i | i in c.infos
      ensures ListRefers(i, names)
    {
      var k :| 0 <= k < |c.infos| && c.infos[k] == i;
      CollectedRefer(c.infos, k);
    }
    ListsResolve(c.infos, names);
    MoreResolve(before, LabelsIn(before) + runtime.Keys, names);
    AllResolveJoin(before, lists, names);
  }

  lemma MoreResolve(s: Stream, names: set<string>, more: set<string>)
    requires AllResolve(s, names) && names <= more
    ensures AllResolve(s, more)
  {
  }

  /** Any list literals of any program: linking succeeds, and at the address of the label that collecting a literal
    * returned, the linked words read as that literal and as no other list.
    */
  lemma ListsAreReadBack(before: Stream, ls: seq<Literal>, i: nat, codeBase: nat, dataBase: int, runtime: map<string, int>)
    requires Linkable(before, runtime) && i < |ls|
    requires var s := Program(before, ls); RodataStart(s, codeBase) + 4 * RodataWords(s) < FULL_RANGE
    ensures var s := Program(before, ls);
            var c := StartOf(s, codeBase, dataBase);
            var labels := DefineLabels(s, c, map[]);
            && labels.Ok? && NameOf(ls, i) in labels.value
            && var m := RodataImage(s, c.rodata, labels.value, runtime);
               var a := labels.value[NameOf(ls, i)];
            && m.Ok? && Decodes(m.value, a, ls[i]) && forall k :: Decodes(m.value, a, k) ==> k == ls[i]
  {
    hide Fresh, AllResolve, LabelsIn, DefineLabels, RodataImage, Collected, Numbered, Decodes, Describes, EmitLists, RodataWords, CodeSize, Avoids, AddList;
    var s := Program(before, ls);
    var c := StartOf(s, codeBase, dataBase);
    var ids := ProgramLinks(before, ls, runtime);
    StreamLinks(s, c, runtime);
    var labels := DefineLabels(s, c, map[]).value;
    var m := RodataImage(s, c.rodata, labels, runtime).value;
    var infos := Collected(ls).infos;
    forall id: nat
      ensures Avoids(runtime.Keys, id)
    {
      AvoidsLess(LabelsIn(before) + runtime.Keys, runtime.Keys, id);
    }
    NumberedAreNamed(infos, ids, Collected(ls).nextId, runtime);
    var x := Setting(s, c, labels, runtime, m);
    assert EmitLists(infos) + [] == EmitLists(infos);
    assert Holds(x, before, infos, []);
    CollectedDescribes(ls, i);
    hide Holds, NameOf;
    ListReads(x, before, infos, [], NameOf(ls, i), ls[i]);
    forall k | Decodes(m, labels[NameOf(ls, i)], k)
      ensures k == ls[i]
    {
      DecodesToOne(m, labels[NameOf(ls, i)], k, ls[i]);
    }
  }

  lemma AvoidsLess(a: set<string>, b: set<string>, id: nat)
    requires Avoids(a, id) && b <= a
    ensures Avoids(b, id)
  {
  }
}
