/** Collecting list literals: their canonical keys, their nodes, and the sharing of equal lists. */
module ListLiterals {
  import opened Ast
  import opened Text

  datatype Element = IntElement(value: Word) | ListElement(list: Literal)

  datatype Literal = Literal(elements: seq<Element>)

  // ----- keys -----

  function ElementKey(e: Element): string
    decreases e, 0
  {
    match e
    case IntElement(n) => "int(" + IntText(n) + ")"
    case ListElement(l) => ListKey(l)
  }

  function ListKey(l: Literal): string
    decreases l, 1
  {
    "list[" + Members(l.elements, true)
  }

  /** The members of a list with commas between them, and the closing bracket. */
  function Members(es: seq<Element>, first: bool): string
    decreases es, 0
  {
    if es == [] then "]" else (if first then "" else ",") + (ElementKey(es[0]) + Members(es[1..], false))
  }

  lemma IntKeysMatch(m: int, n: int, x: string, y: string)
    requires "int(" + IntText(m) + ")" + x == "int(" + IntText(n) + ")" + y
    ensures m == n && x == y
  {
    var a, b := "int(" + IntText(m), "int(" + IntText(n);
    assert forall i :: 0 <= i < |a| ==> a[i] != ')';
    assert forall i :: 0 <= i < |b| ==> b[i] != ')';
    hide IntText;
    SplitAtFirst(')', a, b, x, y);
    assert IntText(m) == a[4..] && IntText(n) == b[4..];
    IntTextInjective(m, n);
  }

  /** No element's key is the beginning of another's. */
  lemma {:induction false} ElementKeysMatch(a: Element, b: Element, x: string, y: string)
    requires ElementKey(a) + x == ElementKey(b) + y
    ensures a == b && x == y
    decreases a, 0
  {
    ElementStart(a, x);
    ElementStart(b, y);
    hide IntText;
    if a.IntElement? {
      IntKeysMatch(a.value, b.value, x, y);
    } else {
      var s, t := Members(a.list.elements, true) + x, Members(b.list.elements, true) + y;
      assert ElementKey(a) + x == "list[" + s && ElementKey(b) + y == "list[" + t;
      assert s == ("list[" + s)[5..] && t == ("list[" + t)[5..];
      MembersMatch(a.list.elements, b.list.elements, true, x, y);
    }
  }

  lemma ElementStart(a: Element, x: string)
    ensures ElementKey(a) != [] && (ElementKey(a) + x)[0] == if a.IntElement? then 'i' else 'l'
  {
  }

  lemma MembersStart(es: seq<Element>, first: bool, x: string)
    ensures Members(es, first) != []
    ensures var c := (Members(es, first) + x)[0];
            c == if es == [] then ']' else if !first then ',' else if es[0].IntElement? then 'i' else 'l'
  {
    hide ElementKey;
    if es != [] {
      ElementStart(es[0], Members(es[1..], false) + x);
      assert first ==> Members(es, first) + x == ElementKey(es[0]) + (Members(es[1..], false) + x);
    }
  }

  lemma {:induction false} MembersMatch(es: seq<Element>, fs: seq<Element>, first: bool, x: string, y: string)
    requires Members(es, first) + x == Members(fs, first) + y
    ensures es == fs && x == y
    decreases es, 1
  {
    hide ElementKey;
    MembersStart(es, first, x);
    MembersStart(fs, first, y);
    if es == [] {
      assert x == ("]" + x)[1..] && y == ("]" + y)[1..];
    } else {
      var p := if first then "" else ",";
      var s := ElementKey(es[0]) + (Members(es[1..], false) + x);
      var t := ElementKey(fs[0]) + (Members(fs[1..], false) + y);
      assert Members(es, first) + x == p + s && Members(fs, first) + y == p + t;
      assert s == (p + s)[|p|..] && t == (p + t)[|p|..];
      ElementKeysMatch(es[0], fs[0], Members(es[1..], false) + x, Members(fs[1..], false) + y);
      MembersMatch(es[1..], fs[1..], false, x, y);
      assert es == [es[0]] + es[1..] && fs == [fs[0]] + fs[1..];
    }
  }

  /** Different lists have different keys. */
  lemma KeysAreInjective(a: Literal, b: Literal)
    requires ListKey(a) == ListKey(b)
    ensures a == b
  {
    ElementKeysMatch(ListElement(a), ListElement(b), "", "");
  }

  // ----- collecting -----

  datatype NodeInfo = NodeInfo(label_: string, nextLabel: string, typeTag: int, bits: int, isPointer: bool, pointerLabel: string)

  datatype ListInfo = ListInfo(header: string, nodes: seq<NodeInfo>, length: nat)

  /** The lists collected so far, the labels of the keys seen, and the next list number. */
  datatype Collection = Collection(infos: seq<ListInfo>, labels: map<string, string>, nextId: nat)

  datatype Added = Added(state: Collection, name: string)

  datatype AddedNodes = AddedNodes(state: Collection, nodes: seq<NodeInfo>)

  const ATOM_INT := 1
  const ATOM_LIST_POINTER := 4

  function HeaderLabel(id: nat): string {
    "L_list" + NatText(id) + "_header"
  }

  function NodeLabel(id: nat, i: nat): string {
    "L_list" + NatText(id) + "_node_" + NatText(i)
  }

  /** A word as an unsigned 64-bit number. */
  function Bits(n: Word): int {
    n % FULL_RANGE
  }

  /** An equal list collected before is shared; otherwise the lists inside it are collected first. */
  function AddList(s: Collection, l: Literal): Added
    decreases l, 1
  {
    var k := ListKey(l);
    if k in s.labels then Added(s, s.labels[k])
    else
      var r := AddElements(s.(nextId := s.nextId + 1), l.elements, s.nextId, 0);
      var h := HeaderLabel(s.nextId);
      var info := ListInfo(h, r.nodes, |l.elements|);
      Added(r.state.(infos := r.state.infos + [info], labels := r.state.labels[k := h]), h)
  }

  /** The nodes of list `id` from number `i` on. */
  function AddElements(s: Collection, es: seq<Element>, id: nat, i: nat): AddedNodes
    decreases es, 0
  {
    if es == [] then AddedNodes(s, [])
    else
      var next := if |es| > 1 then NodeLabel(id, i + 1) else "";
      match es[0] {
        case IntElement(n) =>
          var r := AddElements(s, es[1..], id, i + 1);
          AddedNodes(r.state, [NodeInfo(NodeLabel(id, i), next, ATOM_INT, Bits(n), false, "")] + r.nodes)
        case ListElement(l) =>
          assert es[0] in es && l < es[0];
          var a := AddList(s, l);
          var r := AddElements(a.state, es[1..], id, i + 1);
          AddedNodes(r.state, [NodeInfo(NodeLabel(id, i), next, ATOM_LIST_POINTER, 0, true, a.name)] + r.nodes)
      }
  }

  // ----- what the collection says about a list -----

  /** The list with header `name` has been collected as `l`. */
  ghost predicate Describes(infos: seq<ListInfo>, name: string, l: Literal)
    decreases l, 1
  {
    exists k :: 0 <= k < |infos| && infos[k].header == name && infos[k].length == |l.elements|
                && NodesDescribe(infos, infos[k].nodes, l.elements)
  }

  /** Each node holds its element and names the next node. */
  ghost predicate NodesDescribe(infos: seq<ListInfo>, nodes: seq<NodeInfo>, es: seq<Element>)
    decreases es, 0
  {
    if es == [] then nodes == []
    else
      && nodes != []
      && nodes[0].label_ != ""
      && nodes[0].nextLabel == (if |nodes| > 1 then nodes[1].label_ else "")
      && (match es[0]
          case IntElement(n) => !nodes[0].isPointer && nodes[0].typeTag == ATOM_INT && nodes[0].bits == Bits(n)
          case ListElement(l) =>
            assert es[0] in es && l < es[0];
            nodes[0].isPointer && nodes[0].typeTag == ATOM_LIST_POINTER && Describes(infos, nodes[0].pointerLabel, l))
      && NodesDescribe(infos, nodes[1..], es[1..])
  }

  lemma {:induction false} DescribesGrows(a: seq<ListInfo>, b: seq<ListInfo>, name: string, l: Literal)
    requires Describes(a, name, l) && a <= b
    ensures Describes(b, name, l)
    decreases l, 1
  {
    var k :| 0 <= k < |a| && a[k].header == name && a[k].length == |l.elements| && NodesDescribe(a, a[k].nodes, l.elements);
    NodesDescribeGrows(a, b, a[k].nodes, l.elements);
    assert b[k] == a[k];
  }

  lemma {:induction false} NodesDescribeGrows(a: seq<ListInfo>, b: seq<ListInfo>, nodes: seq<NodeInfo>, es: seq<Element>)
    requires NodesDescribe(a, nodes, es) && a <= b
    ensures NodesDescribe(b, nodes, es)
    decreases es, 0
  {
    hide Describes;
    if es != [] {
      if es[0].ListElement? {
        assert es[0] in es && es[0].list < es[0];
        DescribesGrows(a, b, nodes[0].pointerLabel, es[0].list);
      }
      NodesDescribeGrows(a, b, nodes[1..], es[1..]);
    }
  }

  /** Every key seen leads to a list that has that key. */
  ghost predicate Faithful(s: Collection) {
    forall k :: k in s.labels ==> exists l :: ListKey(l) == k && Describes(s.infos, s.labels[k], l)
  }

  lemma FaithfulGrows(s: Collection, t: Collection)
    requires Faithful(s) && s.infos <= t.infos && s.labels == t.labels
    ensures Faithful(t)
  {
    hide ListKey, Describes;
    forall k | k in t.labels
      ensures exists l :: ListKey(l) == k && Describes(t.infos, t.labels[k], l)
    {
      var l :| ListKey(l) == k && Describes(s.infos, s.labels[k], l);
      DescribesGrows(s.infos, t.infos, s.labels[k], l);
    }
  }

  /** The label returned for a list leads to that list, shared or not. */
  lemma {:induction false} AddListDescribes(s: Collection, l: Literal)
    requires Faithful(s)
    ensures var r := AddList(s, l);
            Faithful(r.state) && s.infos <= r.state.infos && Describes(r.state.infos, r.name, l)
    decreases l, 1
  {
    hide ListKey, HeaderLabel, AddElements, Describes, NodesDescribe, Faithful;
    var k := ListKey(l);
    if k in s.labels {
      SharedListDescribes(s, l);
    } else {
      var id := s.nextId;
      var started := s.(nextId := id + 1);
      FaithfulGrows(s, started);
      AddElementsDescribe(started, l.elements, id, 0);
      var r := AddElements(started, l.elements, id, 0);
      NewListDescribes(r.state, ListInfo(HeaderLabel(id), r.nodes, |l.elements|), l);
    }
  }

  lemma SharedListDescribes(s: Collection, l: Literal)
    requires Faithful(s) && ListKey(l) in s.labels
    ensures Describes(s.infos, s.labels[ListKey(l)], l)
  {
    hide ListKey, Describes;
    var k := ListKey(l);
    var m :| ListKey(m) == k && Describes(s.infos, s.labels[k], m);
    KeysAreInjective(l, m);
  }

  lemma NewListDescribes(s: Collection, info: ListInfo, l: Literal)
    requires Faithful(s) && NodesDescribe(s.infos, info.nodes, l.elements) && info.length == |l.elements|
    ensures var t := s.(infos := s.infos + [info], labels := s.labels[ListKey(l) := info.header]);
            Faithful(t) && Describes(t.infos, info.header, l)
  {
    var infos := s.infos + [info];
    NodesDescribeGrows(s.infos, infos, info.nodes, l.elements);
    assert infos[|s.infos|] == info;
    FaithfulGrows(s, s.(infos := infos));
    assert Describes(infos, info.header, l);
    hide ListKey, Describes;
  }

  lemma {:induction false} AddElementsDescribe(s: Collection, es: seq<Element>, id: nat, i: nat)
    requires Faithful(s)
    ensures var r := AddElements(s, es, id, i);
            && Faithful(r.state) && s.infos <= r.state.infos
            && NodesDescribe(r.state.infos, r.nodes, es)
            && |r.nodes| == |es| && (es != [] ==> r.nodes[0].label_ == NodeLabel(id, i))
    decreases es, 0
  {
    hide ListKey, Faithful, AddList, NatText, Describes;
    if es != [] {
      var a := if es[0].ListElement? then AddList(s, es[0].list) else Added(s, "");
      if es[0].ListElement? {
        assert es[0] in es && es[0].list < es[0];
        AddListDescribes(s, es[0].list);
      }
      AddElementsDescribe(a.state, es[1..], id, i + 1);
      var r := AddElements(s, es, id, i);
      if es[0].ListElement? {
        DescribesGrows(a.state.infos, r.state.infos, a.name, es[0].list);
      }
      assert r.nodes[1..] == AddElements(a.state, es[1..], id, i + 1).nodes;
    }
  }
}
