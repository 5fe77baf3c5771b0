/** The data generator and the linker as they work on list literals. */
module ListGenerator {
  import opened Wrappers
  import opened Text
  import opened ListLiterals
  import opened ListLayout
  import opened PeepholePatterns

  class DataGenerator {
    var listLiterals: seq<ListInfo>
    var labelOfKey: map<string, string>
    var nextListId: nat
    var stream: Stream

    constructor ()
      ensures State() == Collection([], map[], 0) && stream == []
    {
      listLiterals, labelOfKey, nextListId, stream := [], map[], 0, [];
    }

    function State(): Collection
      reads this
    {
      Collection(listLiterals, labelOfKey, nextListId)
    }

    static method GenerateElementKey(e: Element) returns (key: string)
      ensures key == ElementKey(e)
      decreases e, 0
    {
      hide IntText, ListKey;
      match e
      case IntElement(n) => key := "int(" + IntText(n) + ")";
      case ListElement(m) => key := GenerateListKey(m);
    }

    static method GenerateListKey(l: Literal) returns (key: string)
      ensures key == ListKey(l)
      decreases l, 1
    {
      hide ElementKey, Members;
      key := "list[";
      var i, first := 0, true;
      assert l.elements[0..] == l.elements;
      while i < |l.elements|
        invariant i <= |l.elements|
        invariant key + Members(l.elements[i..], first) == ListKey(l)
      {
        MembersStep(key, l.elements, i, first);
        assert l.elements[i] in l.elements && l.elements[i] < l;
        if !first {
          key := key + ",";
        }
        first := false;
        var text := GenerateElementKey(l.elements[i]);
        key := key + text;
        i := i + 1;
      }
      MembersEnd(l.elements, first);
      key := key + "]";
    }

    /** The node for one element; a list inside is added first. */
    method MakeNode(e: Element, id: nat, i: nat, next: string) returns (node: NodeInfo)
      modifies this
      ensures stream == old(stream)
      ensures match e {
                case IntElement(n) =>
                  State() == old(State()) && node == NodeInfo(NodeLabel(id, i), next, ATOM_INT, Bits(n), false, "")
                case ListElement(m) =>
                  var r := AddList(old(State()), m);
                  State() == r.state && node == NodeInfo(NodeLabel(id, i), next, ATOM_LIST_POINTER, 0, true, r.name)
              }
      decreases e, 0
    {
      hide AddList, NodeLabel;
      match e {
        case IntElement(n) =>
          node := NodeInfo(NodeLabel(id, i), next, ATOM_INT, Bits(n), false, "");
        case ListElement(m) =>
          var p := AddListLiteral(m);
          node := NodeInfo(NodeLabel(id, i), next, ATOM_LIST_POINTER, 0, true, p);
      }
    }

    method AddListLiteral(l: Literal) returns (name: string)
      modifies this
      ensures var r := AddList(old(State()), l); State() == r.state && name == r.name
      ensures stream == old(stream)
      decreases l, 1
    {
      hide ListKey, HeaderLabel, NodeLabel, AddElements;
      var key := GenerateListKey(l);
      if key in labelOfKey {
        return labelOfKey[key];
      }
      var id := nextListId;
      nextListId := nextListId + 1;
      name := HeaderLabel(id);
      ghost var start := State();
      assert start == old(State()).(nextId := id + 1);
      var nodes, i := [], 0;
      assert l.elements[0..] == l.elements;
      ghost var r := AddElements(start, l.elements, id, 0);
      while i < |l.elements|
        invariant i <= |l.elements| && stream == old(stream)
        invariant var q := AddElements(State(), l.elements[i..], id, i); r.state == q.state && r.nodes == nodes + q.nodes
      {
        assert l.elements[i] in l.elements && l.elements[i] < l;
        AddElementsStep(State(), l.elements, id, i, nodes);
        var next := if i + 1 < |l.elements| then NodeLabel(id, i + 1) else "";
        var node := MakeNode(l.elements[i], id, i, next);
        nodes := nodes + [node];
        i := i + 1;
      }
      AddElementsEnd(State(), l.elements, id, nodes);
      labelOfKey := labelOfKey[key := name];
      listLiterals := listLiterals + [ListInfo(name, nodes, |l.elements|)];
    }

    method Add(e: Entry)
      modifies this`stream
      ensures stream == old(stream) + [e]
    {
      stream := stream + [e];
    }

    method AddData64(v: int)
      modifies this`stream
      ensures stream == old(stream) + Data64(v)
    {
      Add(Data32(v % HALF_WORD));
      Add(Data32(v / HALF_WORD));
    }

    method EmitAbsolutePointer(name: string)
      modifies this`stream
      ensures stream == old(stream) + Pointer(name)
    {
      Add(Entry(RODATA, false, true, true, name, 0, AbsoluteLow));
      Add(Entry(RODATA, false, true, true, name, 0, AbsoluteHigh));
    }

    method EmitListHeader(i: ListInfo)
      modifies this`stream
      ensures stream == old(stream) + EmitHeader(i)
    {
      Add(LabelDefinition(i.header));
      Add(Data32(0));
      Add(Data32(0));
      if i.nodes != [] {
        EmitAbsolutePointer(i.nodes[|i.nodes| - 1].label_);
        EmitAbsolutePointer(i.nodes[0].label_);
      } else {
        AddData64(0);
        AddData64(0);
      }
      AddData64(i.length);
    }

    method EmitListNode(n: NodeInfo)
      modifies this`stream
      ensures stream == old(stream) + EmitNode(n)
    {
      Add(LabelDefinition(n.label_));
      Add(Data32(n.typeTag));
      Add(Data32(0));
      if n.isPointer {
        EmitAbsolutePointer(n.pointerLabel);
      } else {
        AddData64(n.bits);
      }
      if n.nextLabel != "" {
        EmitAbsolutePointer(n.nextLabel);
      } else {
        AddData64(0);
      }
    }

    method EmitListNodes(ns: seq<NodeInfo>)
      modifies this`stream
      ensures stream == old(stream) + EmitNodes(ns)
    {
      hide EmitNode;
      var i := 0;
      while i < |ns|
        invariant i <= |ns| && old(stream) + EmitNodes(ns) == stream + EmitNodes(ns[i..])
      {
        ghost var before := stream;
        EmitListNode(ns[i]);
        assert ns[i..][1..] == ns[i + 1..];
        assert before + (EmitNode(ns[i]) + EmitNodes(ns[i + 1..])) == stream + EmitNodes(ns[i + 1..]);
        i := i + 1;
      }
    }

    /** The list part of the read-only data section. */
    method GenerateLists()
      modifies this`stream
      ensures stream == old(stream) + EmitLists(listLiterals)
    {
      hide EmitHeader, EmitNodes;
      var i := 0;
      while i < |listLiterals|
        invariant i <= |listLiterals|
        invariant old(stream) + EmitLists(listLiterals) == stream + EmitLists(listLiterals[i..])
      {
        ghost var before, info := stream, listLiterals[i];
        EmitListHeader(listLiterals[i]);
        EmitListNodes(listLiterals[i].nodes);
        assert listLiterals[i..][1..] == listLiterals[i + 1..];
        assert before + (EmitHeader(info) + (EmitNodes(info.nodes) + EmitLists(listLiterals[i + 1..])))
            == stream + EmitLists(listLiterals[i + 1..]);
        i := i + 1;
      }
    }
  }

  lemma MembersStep(key: string, es: seq<Element>, i: nat, first: bool)
    requires i < |es|
    ensures key + Members(es[i..], first) == key + (if first then "" else ",") + ElementKey(es[i]) + Members(es[i + 1..], false)
  {
    hide ElementKey;
    assert es[i..][1..] == es[i + 1..];
  }

  lemma MembersEnd(es: seq<Element>, first: bool)
    ensures Members(es[|es|..], first) == "]"
  {
  }

  /** One turn of the loop over the elements of list `id`. */
  lemma AddElementsStep(s: Collection, es: seq<Element>, id: nat, i: nat, nodes: seq<NodeInfo>)
    requires i < |es|
    ensures var e, next := es[i], if i + 1 < |es| then NodeLabel(id, i + 1) else "";
            var t := if e.ListElement? then AddList(s, e.list).state else s;
            var node := if e.IntElement? then NodeInfo(NodeLabel(id, i), next, ATOM_INT, Bits(e.value), false, "")
                        else NodeInfo(NodeLabel(id, i), next, ATOM_LIST_POINTER, 0, true, AddList(s, e.list).name);
            var q, r := AddElements(s, es[i..], id, i), AddElements(t, es[i + 1..], id, i + 1);
            q.state == r.state && nodes + q.nodes == nodes + [node] + r.nodes
  {
    hide AddList, NodeLabel;
    assert es[i..][1..] == es[i + 1..];
  }

  lemma AddElementsEnd(s: Collection, es: seq<Element>, id: nat, nodes: seq<NodeInfo>)
    ensures var q := AddElements(s, es[|es|..], id, |es|); q.state == s && nodes + q.nodes == nodes
  {
  }

  // ----- the linker -----

  lemma {:induction false} ImageKeys(s: Stream, at: int, labels: map<string, int>, runtime: map<string, int>)
    requires RodataImage(s, at, labels, runtime).Ok?
    ensures forall a :: a in RodataImage(s, at, labels, runtime).value ==> a >= at
    decreases |s|
  {
    hide Patch;
    if s != [] {
      ImageKeys(s[1..], if s[0].segment.RODATA? && Emits(s[0]) then at + 4 else at, labels, runtime);
    }
  }

  class Linker {
    const stream: Stream
    const runtime: map<string, int>
    var labels: map<string, int>
    var image: map<int, int>

    constructor (stream: Stream, runtime: map<string, int>)
      ensures this.stream == stream && this.runtime == runtime && labels == map[] && image == map[]
    {
      this.stream, this.runtime := stream, runtime;
      labels, image := map[], map[];
    }

    method MeasureCode() returns (size: nat)
      ensures size == CodeSize(stream)
    {
      size := 0;
      var i := 0;
      while i < |stream|
        invariant i <= |stream| && size + CodeSize(stream[i..]) == CodeSize(stream)
      {
        assert stream[i..][1..] == stream[i + 1..];
        if stream[i].segment.CODE? && !stream[i].isLabel {
          size := size + 4;
        }
        i := i + 1;
      }
    }

    /** First pass: an address for every label; false when one is defined twice. */
    method AssignAddresses(start: Cursors) returns (ok: bool)
      requires labels == map[]
      modifies this`labels
      ensures var r := DefineLabels(stream, start, map[]); if r.Ok? then ok && labels == r.value else !ok
    {
      var c, i := start, 0;
      while i < |stream|
        invariant i <= |stream| && DefineLabels(stream[i..], c, labels) == DefineLabels(stream, start, map[])
      {
        var e := stream[i];
        assert stream[i..][1..] == stream[i + 1..];
        if e.isLabel {
          if e.target in labels {
            return false;
          }
          labels := labels[e.target := Cursor(c, e.segment)];
        }
        c := Advance(c, e);
        i := i + 1;
      }
      ok := true;
    }

    /** Second pass: the final words of the read-only data; false when a label is undefined. */
    method PerformRelocations(at: int) returns (ok: bool)
      requires image == map[]
      modifies this`image
      ensures var r := RodataImage(stream, at, labels, runtime); if r.Ok? then ok && image == r.value else !ok
    {
      hide Patch;
      var cursor, i := at, 0;
      while i < |stream|
        invariant i <= |stream|
        invariant var r, q := RodataImage(stream, at, labels, runtime), RodataImage(stream[i..], cursor, labels, runtime);
                  r.Ok? == q.Ok? && (q.Ok? ==> r.value == image + q.value)
        invariant forall a :: a in image ==> a < cursor
      {
        var e := stream[i];
        assert stream[i..][1..] == stream[i + 1..];
        if e.segment.RODATA? && Emits(e) {
          var v := Patch(e, labels, runtime);
          if v.Err? {
            return false;
          }
          ghost var rest := RodataImage(stream[i + 1..], cursor + 4, labels, runtime);
          if rest.Ok? {
            ImageKeys(stream[i + 1..], cursor + 4, labels, runtime);
            assert image + rest.value[cursor := v.value] == image[cursor := v.value] + rest.value;
          }
          image := image[cursor := v.value];
          cursor := cursor + 4;
        }
        i := i + 1;
      }
      ok := true;
    }

    method Process(codeBase: nat, dataBase: int) returns (ok: bool)
      requires labels == map[] && image == map[]
      modifies this
      ensures ok ==> Linked(stream, Cursors(codeBase, RodataStart(stream, codeBase), dataBase), labels, runtime, image)
      ensures !ok ==> var c := Cursors(codeBase, RodataStart(stream, codeBase), dataBase);
                      var r := DefineLabels(stream, c, map[]);
                      r.Err? || RodataImage(stream, c.rodata, r.value, runtime).Err?
    {
      hide DefineLabels, RodataImage;
      var size := MeasureCode();
      var start := (codeBase + size + GAP + (PAGE - 1)) / PAGE * PAGE;
      ok := AssignAddresses(Cursors(codeBase, start, dataBase));
      if ok {
        ok := PerformRelocations(start);
      }
    }
  }
}
