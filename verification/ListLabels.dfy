/** The labels given out for list literals never clash, so defining them never fails. */
module ListLabels {
  import opened Wrappers
  import opened Text
  import opened ListLiterals
  import opened ListLayout

  // ----- labels as texts -----

  lemma PrefixCancels(p: string, x: string, y: string)
    requires p + x == p + y
    ensures x == y
  {
    assert (p + x)[|p|..] == x && (p + y)[|p|..] == y;
  }

  lemma LabelParts(p: string, a: string, x: string)
    ensures p + a + "_" + x == p + (a + ['_'] + x)
  {
  }

  /** What stands between the prefix of a label and its first underscore is the list's number. */
  lemma LabelTail(id: nat, jd: nat, x: string, y: string)
    requires "L_list" + NatText(id) + "_" + x == "L_list" + NatText(jd) + "_" + y
    ensures id == jd && x == y
  {
    NatTextReads(id);
    NatTextReads(jd);
    var p, a, b := "L_list", NatText(id), NatText(jd);
    assert (forall i :: 0 <= i < |a| ==> a[i] != '_') && (forall i :: 0 <= i < |b| ==> b[i] != '_');
    hide NatText, NatValue;
    LabelParts(p, a, x);
    LabelParts(p, b, y);
    PrefixCancels(p, a + ['_'] + x, b + ['_'] + y);
    SplitAtFirst('_', a, b, x, y);
  }

  lemma HeadersDiffer(id: nat, jd: nat)
    ensures HeaderLabel(id) == HeaderLabel(jd) ==> id == jd
  {
    hide NatText;
    if HeaderLabel(id) == HeaderLabel(jd) {
      var p := "L_list";
      assert "_header" == "_" + "header";
      assert HeaderLabel(id) == p + NatText(id) + "_" + "header" && HeaderLabel(jd) == p + NatText(jd) + "_" + "header";
      LabelTail(id, jd, "header", "header");
    }
  }

  lemma NodesDiffer(id: nat, i: nat, jd: nat, j: nat)
    ensures NodeLabel(id, i) == NodeLabel(jd, j) ==> id == jd && i == j
    ensures NodeLabel(id, i) != HeaderLabel(jd)
  {
    NatTextReads(i);
    NatTextReads(j);
    hide NatText, NatValue;
    var p, x, y := "L_list", "node_" + NatText(i), "node_" + NatText(j);
    assert x[0] == 'n' && "header"[0] == 'h';
    assert "_node_" == "_" + "node_" && "_header" == "_" + "header";
    assert NodeLabel(id, i) == p + NatText(id) + "_" + x && NodeLabel(jd, j) == p + NatText(jd) + "_" + y;
    assert HeaderLabel(jd) == p + NatText(jd) + "_" + "header";
    if NodeLabel(id, i) == NodeLabel(jd, j) {
      LabelTail(id, jd, x, y);
      assert x[5..] == NatText(i) && y[5..] == NatText(j);
    }
    if NodeLabel(id, i) == HeaderLabel(jd) {
      LabelTail(id, jd, x, "header");
    }
  }

  // ----- labels of a collection -----

  /** List `k` of the collection was given the number `ids[k]`; the numbers differ and lie below `bound`. */
  ghost predicate Numbered(infos: seq<ListInfo>, ids: seq<nat>, bound: nat) {
    && |ids| == |infos|
    && (forall k :: 0 <= k < |ids| ==> ids[k] < bound)
    && (forall j, k :: 0 <= j < k < |ids| ==> ids[j] != ids[k])
    && (forall k :: 0 <= k < |infos| ==> infos[k].header == HeaderLabel(ids[k]) && NodesNumbered(infos[k].nodes, ids[k], 0))
  }

  ghost predicate NodesNumbered(ns: seq<NodeInfo>, id: nat, i: nat) {
    forall k :: 0 <= k < |ns| ==> ns[k].label_ == NodeLabel(id, i + k)
  }

  /** New lists get new numbers. */
  lemma {:induction false} AddListNumbers(s: Collection, l: Literal, ids: seq<nat>) returns (more: seq<nat>)
    requires Numbered(s.infos, ids, s.nextId)
    ensures var t := AddList(s, l).state;
            Numbered(t.infos, ids + more, t.nextId) && s.nextId <= t.nextId && forall i :: i in more ==> i >= s.nextId
    decreases l, 1
  {
    hide ListKey, HeaderLabel, NodeLabel, AddElements, NodesNumbered;
    assert forall k :: k in ids ==> k < s.nextId;
    if ListKey(l) in s.labels {
      more := [];
      assert ids + [] == ids;
    } else {
      var id := s.nextId;
      var r := AddElements(s.(nextId := id + 1), l.elements, id, 0);
      var inner := AddElementsNumber(s.(nextId := id + 1), l.elements, id, 0, ids);
      more := inner + [id];
      assert ids + more == (ids + inner) + [id];
      AppendNumbered(r.state.infos, ids + inner, r.state.nextId, ListInfo(HeaderLabel(id), r.nodes, |l.elements|), id);
    }
  }

  lemma AppendNumbered(infos: seq<ListInfo>, ids: seq<nat>, bound: nat, i: ListInfo, id: nat)
    requires Numbered(infos, ids, bound) && id !in ids && id < bound
    requires i.header == HeaderLabel(id) && NodesNumbered(i.nodes, id, 0)
    ensures Numbered(infos + [i], ids + [id], bound)
  {
    hide HeaderLabel, NodesNumbered;
  }

  lemma {:induction false} AddElementsNumber(s: Collection, es: seq<Element>, id: nat, i: nat, ids: seq<nat>) returns (more: seq<nat>)
    requires Numbered(s.infos, ids, s.nextId)
    ensures var r := AddElements(s, es, id, i);
            && Numbered(r.state.infos, ids + more, r.state.nextId) && s.nextId <= r.state.nextId
            && (forall i :: i in more ==> i >= s.nextId)
            && NodesNumbered(r.nodes, id, i)
    decreases es, 0
  {
    hide Numbered, AddList, NodeLabel;
    if es == [] {
      more := [];
      assert ids + [] == ids;
    } else {
      var first := [];
      var a := s;
      if es[0].ListElement? {
        assert es[0] in es && es[0].list < es[0];
        first := AddListNumbers(s, es[0].list, ids);
        a := AddList(s, es[0].list).state;
      }
      assert ids + [] == ids;
      var rest := AddElementsNumber(a, es[1..], id, i + 1, ids + first);
      more := first + rest;
      assert ids + more == (ids + first) + rest;
    }
  }

  // ----- defining the labels -----

  function LabelsIn(s: Stream): set<string> {
    if s == [] then {} else (if s[0].isLabel then {s[0].target} else {}) + LabelsIn(s[1..])
  }

  /** No label of the stream is defined twice or among those used already. */
  predicate Fresh(s: Stream, used: set<string>)
    decreases |s|
  {
    s != [] ==>
      && (s[0].isLabel ==> s[0].target !in used)
      && Fresh(s[1..], used + if s[0].isLabel then {s[0].target} else {})
  }

  /** Defining labels fails exactly when one of them is not fresh. */
  lemma {:induction false} DefinedExactly(s: Stream, c: Cursors, labels: map<string, int>)
    ensures DefineLabels(s, c, labels).Ok? <==> Fresh(s, labels.Keys)
    decreases |s|
  {
    hide Advance, Cursor;
    if s != [] && !(s[0].isLabel && s[0].target in labels) {
      var next := if s[0].isLabel then labels[s[0].target := Cursor(c, s[0].segment)] else labels;
      assert next.Keys == labels.Keys + if s[0].isLabel then {s[0].target} else {};
      DefinedExactly(s[1..], Advance(c, s[0]), next);
    }
  }

  lemma {:induction false} FreshJoin(a: Stream, b: Stream, used: set<string>)
    requires Fresh(a, used) && Fresh(b, used + LabelsIn(a))
    ensures Fresh(a + b, used) && LabelsIn(a + b) == LabelsIn(a) + LabelsIn(b)
    decreases |a|
  {
    if a == [] {
      assert a + b == b && used + {} == used;
    } else {
      var now := used + if a[0].isLabel then {a[0].target} else {};
      assert (a + b)[1..] == a[1..] + b;
      assert used + LabelsIn(a) == now + LabelsIn(a[1..]);
      FreshJoin(a[1..], b, now);
    }
  }

  lemma {:induction false} WordsAreFresh(s: Stream, used: set<string>)
    requires forall e :: e in s ==> !e.isLabel
    ensures Fresh(s, used) && LabelsIn(s) == {}
    decreases |s|
  {
    if s != [] {
      assert s[0] in s;
      assert used + {} == used;
      WordsAreFresh(s[1..], used);
    }
  }

  lemma BlockIsFresh(b: Stream, used: set<string>)
    requires b != [] && b[0].isLabel && b[0].target !in used && forall i :: 1 <= i < |b| ==> !b[i].isLabel
    ensures Fresh(b, used) && LabelsIn(b) == {b[0].target}
  {
    WordsAreFresh(b[1..], used + {b[0].target});
  }

  lemma NodeIsFresh(n: NodeInfo, used: set<string>)
    requires n.label_ !in used
    ensures Fresh(EmitNode(n), used) && LabelsIn(EmitNode(n)) == {n.label_}
  {
    hide Fresh, LabelsIn;
    BlockIsFresh(EmitNode(n), used);
  }

  lemma HeaderIsFresh(i: ListInfo, used: set<string>)
    requires i.header !in used
    ensures Fresh(EmitHeader(i), used) && LabelsIn(EmitHeader(i)) == {i.header}
  {
    hide Fresh, LabelsIn;
    BlockIsFresh(EmitHeader(i), used);
  }

  lemma {:induction false} NodesAreFresh(ns: seq<NodeInfo>, id: nat, i: nat, used: set<string>)
    requires NodesNumbered(ns, id, i) && forall j :: j >= i ==> NodeLabel(id, j) !in used
    ensures Fresh(EmitNodes(ns), used)
    ensures forall x :: x in LabelsIn(EmitNodes(ns)) ==> exists j :: 0 <= j && x == NodeLabel(id, j)
    decreases |ns|
  {
    hide EmitNode, NodeLabel;
    if ns != [] {
      var n := ns[0];
      assert n.label_ == NodeLabel(id, i + 0);
      NodeIsFresh(n, used);
      forall j | j >= i + 1
        ensures NodeLabel(id, j) !in used + {n.label_}
      {
        NodesDiffer(id, i, id, j);
      }
      forall k | 0 <= k < |ns[1..]|
        ensures ns[1..][k].label_ == NodeLabel(id, i + 1 + k)
      {
        assert ns[1..][k] == ns[k + 1] && ns[k + 1].label_ == NodeLabel(id, i + (k + 1));
      }
      hide Fresh;
      NodesAreFresh(ns[1..], id, i + 1, used + {n.label_});
      FreshJoin(EmitNode(n), EmitNodes(ns[1..]), used);
    }
  }

  /** No label of list `id` is in the set. */
  ghost predicate Avoids(used: set<string>, id: nat) {
    HeaderLabel(id) !in used && forall j: nat :: NodeLabel(id, j) !in used
  }

  lemma OneListIsFresh(i: ListInfo, id: nat, used: set<string>)
    requires i.header == HeaderLabel(id) && NodesNumbered(i.nodes, id, 0) && Avoids(used, id)
    ensures var s := EmitHeader(i) + EmitNodes(i.nodes);
            && Fresh(s, used)
            && forall jd :: jd != id && Avoids(used, jd) ==> Avoids(used + LabelsIn(s), jd)
  {
    hide EmitHeader, EmitNodes, HeaderLabel, NodeLabel, Fresh;
    HeaderIsFresh(i, used);
    forall j: nat
      ensures NodeLabel(id, j) !in used + {i.header}
    {
      NodesDiffer(id, j, id, 0);
    }
    NodesAreFresh(i.nodes, id, 0, used + {i.header});
    FreshJoin(EmitHeader(i), EmitNodes(i.nodes), used);
    var all := LabelsIn(EmitHeader(i) + EmitNodes(i.nodes));
    assert all == {i.header} + LabelsIn(EmitNodes(i.nodes));
    hide LabelsIn;
    forall jd | jd != id && Avoids(used, jd)
      ensures Avoids(used + all, jd)
    {
      OtherListAvoids(LabelsIn(EmitNodes(i.nodes)), id, jd);
    }
  }

  lemma OtherListAvoids(nodes: set<string>, id: nat, jd: nat)
    requires jd != id && forall x :: x in nodes ==> exists j :: 0 <= j && x == NodeLabel(id, j)
    ensures Avoids({HeaderLabel(id)} + nodes, jd)
  {
    hide HeaderLabel, NodeLabel;
    HeadersDiffer(id, jd);
    forall k: nat
      ensures NodeLabel(jd, k) !in {HeaderLabel(id)} + nodes
    {
      NodesDiffer(jd, k, id, 0);
      if NodeLabel(jd, k) in nodes {
        var j :| 0 <= j && NodeLabel(jd, k) == NodeLabel(id, j);
        NodesDiffer(id, j, jd, k);
      }
    }
    if HeaderLabel(jd) in nodes {
      var j :| 0 <= j && HeaderLabel(jd) == NodeLabel(id, j);
      NodesDiffer(id, j, jd, 0);
    }
  }

  lemma {:induction false} ListsAreFresh(infos: seq<ListInfo>, ids: seq<nat>, bound: nat, used: set<string>)
    requires Numbered(infos, ids, bound) && forall k :: 0 <= k < |ids| ==> Avoids(used, ids[k])
    ensures Fresh(EmitLists(infos), used)
    decreases |infos|
  {
    hide EmitHeader, EmitNodes, HeaderLabel, Avoids, NodesNumbered;
    if infos != [] {
      var s := EmitHeader(infos[0]) + EmitNodes(infos[0].nodes);
      OneListIsFresh(infos[0], ids[0], used);
      ListsAreFresh(infos[1..], ids[1..], bound, used + LabelsIn(s));
      hide Fresh, LabelsIn;
      FreshJoin(s, EmitLists(infos[1..]), used);
      assert EmitLists(infos) == s + EmitLists(infos[1..]);
    }
  }

  /** The labels of collected lists can always be defined together. */
  lemma CollectedListsLink(s: Collection, l: Literal, ids: seq<nat>, c: Cursors)
    requires Numbered(s.infos, ids, s.nextId)
    ensures DefineLabels(EmitLists(AddList(s, l).state.infos), c, map[]).Ok?
  {
    hide Numbered, EmitLists, AddList, DefineLabels, Fresh;
    var more := AddListNumbers(s, l, ids);
    var t := AddList(s, l).state;
    ListsAreFresh(t.infos, ids + more, t.nextId, {}) by {
      assert forall id :: Avoids({}, id);
    }
    var none: map<string, int> := map[];
    assert none.Keys == {};
    DefinedExactly(EmitLists(t.infos), c, none);
  }
}
