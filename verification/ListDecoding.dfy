/** A reader that follows the pointers of the linked words finds exactly the list literal that was collected. */
module ListDecoding {
  import opened Ast
  import opened ListLiterals
  import opened ListLayout

  // ----- reading -----

  function WordAt(m: map<int, int>, a: int): int {
    if a in m then m[a] else 0
  }

  function QuadAt(m: map<int, int>, a: int): int {
    WordAt(m, a) + 0x1_0000_0000 * WordAt(m, a + 4)
  }

  /** The nodes from address `a` on hold the elements in order, integers with tag 1 and lists with tag 4; the last node is
    * at `tail`.
    */
  ghost predicate Chain(m: map<int, int>, a: int, tail: int, es: seq<Element>)
    decreases es, 0
  {
    if es == [] then a == 0
    else
      && a != 0
      && (|es| == 1 ==> a == tail)
      && WordAt(m, a + 4) == 0
      && (match es[0]
          case IntElement(n) => WordAt(m, a) == 1 && QuadAt(m, a + 8) == if n < 0 then n + 0x1_0000_0000_0000_0000 else n
          case ListElement(l) =>
            assert es[0] in es && l < es[0];
            WordAt(m, a) == 4 && Decodes(m, QuadAt(m, a + 8), l))
      && Chain(m, QuadAt(m, a + 16), tail, es[1..])
  }

  /** The header at address `a` and what it leads to read as the list `l`. */
  ghost predicate Decodes(m: map<int, int>, a: int, l: Literal)
    decreases l, 1
  {
    && WordAt(m, a) == 0 && WordAt(m, a + 4) == 0
    && QuadAt(m, a + 24) == |l.elements|
    && Chain(m, QuadAt(m, a + 16), QuadAt(m, a + 8), l.elements)
    && (l.elements == [] ==> QuadAt(m, a + 8) == 0)
  }

  lemma BitsInjective(a: Word, b: Word)
    requires Bits(a) == Bits(b)
    ensures a == b
  {
  }

  /** The words determine the list: at one address at most one list can be read. */
  lemma {:induction false} DecodesToOne(m: map<int, int>, a: int, k: Literal, l: Literal)
    requires Decodes(m, a, k) && Decodes(m, a, l)
    ensures k == l
    decreases k, 1
  {
    ChainsToOne(m, QuadAt(m, a + 16), QuadAt(m, a + 8), k.elements, l.elements);
  }

  lemma {:induction false} ChainsToOne(m: map<int, int>, a: int, tail: int, es: seq<Element>, fs: seq<Element>)
    requires Chain(m, a, tail, es) && Chain(m, a, tail, fs)
    ensures es == fs
    decreases es, 0
  {
    if es != [] {
      hide Decodes;
      if es[0].IntElement? {
        BitsInjective(es[0].value, fs[0].value);
      } else {
        assert es[0] in es && es[0].list < es[0];
        DecodesToOne(m, QuadAt(m, a + 8), es[0].list, fs[0].list);
      }
      ChainsToOne(m, QuadAt(m, a + 16), tail, es[1..], fs[1..]);
      assert es == [es[0]] + es[1..] && fs == [fs[0]] + fs[1..];
    }
  }

  // ----- the linked stream -----

  datatype Setting = Setting(stream: Stream, c: Cursors, labels: map<string, int>, runtime: map<string, int>, m: map<int, int>)

  /** Linking has succeeded, and all addresses fit into 64 bits. */
  ghost predicate Ready(x: Setting) {
    && Linked(x.stream, x.c, x.labels, x.runtime, x.m)
    && 0 < x.c.rodata && x.c.rodata + 4 * RodataWords(x.stream) < FULL_RANGE
  }

  /** A label of the read-only data, not hidden by a runtime function. */
  predicate Known(x: Setting, name: string) {
    name != "" && name !in x.runtime && name in x.labels && 0 < x.labels[name] < FULL_RANGE
  }

  lemma DataReads(x: Setting, a: int, v: int)
    requires WordIs(x.m, a, Data32(v), x.labels, x.runtime)
    ensures WordAt(x.m, a) == v
  {
  }

  lemma QuadReads(x: Setting, a: int, v: int)
    requires WordIs(x.m, a, Data64(v)[0], x.labels, x.runtime) && WordIs(x.m, a + 4, Data64(v)[1], x.labels, x.runtime)
    ensures QuadAt(x.m, a) == v
  {
  }

  lemma PointerReads(x: Setting, a: int, name: string)
    requires Known(x, name)
    requires WordIs(x.m, a, Pointer(name)[0], x.labels, x.runtime) && WordIs(x.m, a + 4, Pointer(name)[1], x.labels, x.runtime)
    ensures QuadAt(x.m, a) == x.labels[name]
  {
  }

  lemma BlockIsKnown(x: Setting, p: Stream, b: Stream, q: Stream)
    requires Ready(x) && x.stream == p + (b + q) && IsBlock(b) && b[0].target !in x.runtime && b[0].target != ""
    ensures Known(x, b[0].target)
    ensures forall i :: 1 <= i < |b| ==> WordIs(x.m, x.labels[b[0].target] + 4 * (i - 1), b[i], x.labels, x.runtime)
  {
    BlockImage(p, b, q, x.c, x.labels, x.runtime, x.m);
    RodataWordsAdd(p, b + q);
  }

  /** The address a name stands for; none for the empty name. */
  function AddressOf(x: Setting, name: string): int {
    if name in x.labels && name != "" then x.labels[name] else 0
  }

  /** What is read at a node: its tag, its value, and the address of the next node. */
  lemma NodeReads(x: Setting, p: Stream, n: NodeInfo, q: Stream)
    requires Ready(x) && x.stream == p + (EmitNode(n) + q) && n.label_ != "" && n.label_ !in x.runtime
    requires n.nextLabel != "" ==> Known(x, n.nextLabel)
    requires n.isPointer ==> Known(x, n.pointerLabel)
    ensures Known(x, n.label_)
    ensures var a := x.labels[n.label_];
            && WordAt(x.m, a) == n.typeTag && WordAt(x.m, a + 4) == 0
            && QuadAt(x.m, a + 8) == (if n.isPointer then x.labels[n.pointerLabel] else n.bits)
            && QuadAt(x.m, a + 16) == AddressOf(x, n.nextLabel)
  {
    var b := EmitNode(n);
    assert |b| == 7 && IsBlock(b);
    BlockIsKnown(x, p, b, q);
    var a := x.labels[n.label_];
    assert b[1] == Data32(n.typeTag) && b[2] == Data32(0);
    DataReads(x, a, n.typeTag);
    DataReads(x, a + 4, 0);
    hide WordIs;
    if n.isPointer {
      assert b[3] == Pointer(n.pointerLabel)[0] && b[4] == Pointer(n.pointerLabel)[1];
      PointerReads(x, a + 8, n.pointerLabel);
    } else {
      assert b[3] == Data64(n.bits)[0] && b[4] == Data64(n.bits)[1];
      QuadReads(x, a + 8, n.bits);
    }
    if n.nextLabel != "" {
      assert b[5] == Pointer(n.nextLabel)[0] && b[6] == Pointer(n.nextLabel)[1];
      PointerReads(x, a + 16, n.nextLabel);
    } else {
      assert b[5] == Data64(0)[0] && b[6] == Data64(0)[1];
      QuadReads(x, a + 16, 0);
    }
  }

  /** What is read at a header. */
  lemma HeaderReads(x: Setting, p: Stream, i: ListInfo, q: Stream)
    requires Ready(x) && x.stream == p + (EmitHeader(i) + q) && i.header != "" && i.header !in x.runtime
    requires i.nodes != [] ==> Known(x, i.nodes[0].label_) && Known(x, i.nodes[|i.nodes| - 1].label_)
    ensures Known(x, i.header)
    ensures var a := x.labels[i.header];
            && WordAt(x.m, a) == 0 && WordAt(x.m, a + 4) == 0 && QuadAt(x.m, a + 24) == i.length
            && QuadAt(x.m, a + 16) == (if i.nodes == [] then 0 else x.labels[i.nodes[0].label_])
            && QuadAt(x.m, a + 8) == (if i.nodes == [] then 0 else x.labels[i.nodes[|i.nodes| - 1].label_])
  {
    var b := EmitHeader(i);
    assert |b| == 9 && IsBlock(b);
    BlockIsKnown(x, p, b, q);
    var a := x.labels[i.header];
    assert b[1] == Data32(0) && b[2] == Data32(0);
    DataReads(x, a, 0);
    DataReads(x, a + 4, 0);
    hide WordIs;
    assert b[7] == Data64(i.length)[0] && b[8] == Data64(i.length)[1];
    QuadReads(x, a + 24, i.length);
    if i.nodes == [] {
      assert b[3] == Data64(0)[0] && b[4] == Data64(0)[1] && b[5] == Data64(0)[0] && b[6] == Data64(0)[1];
      QuadReads(x, a + 8, 0);
      QuadReads(x, a + 16, 0);
    } else {
      var last, first := i.nodes[|i.nodes| - 1].label_, i.nodes[0].label_;
      assert b[3] == Pointer(last)[0] && b[4] == Pointer(last)[1];
      assert b[5] == Pointer(first)[0] && b[6] == Pointer(first)[1];
      PointerReads(x, a + 8, last);
      PointerReads(x, a + 16, first);
    }
  }

  // ----- all lists of a collection -----

  /** No label of the collection is empty or the name of a runtime function. */
  ghost predicate Named(infos: seq<ListInfo>, runtime: map<string, int>) {
    forall k :: 0 <= k < |infos| ==>
      && infos[k].header != "" && infos[k].header !in runtime
      && forall i :: 0 <= i < |infos[k].nodes| ==> infos[k].nodes[i].label_ != "" && infos[k].nodes[i].label_ !in runtime
  }

  lemma {:induction false} HeaderPlace(infos: seq<ListInfo>, k: nat) returns (p: Stream, q: Stream)
    requires k < |infos|
    ensures EmitLists(infos) == p + (EmitHeader(infos[k]) + (EmitNodes(infos[k].nodes) + q))
    decreases k
  {
    hide EmitHeader, EmitNodes;
    var first := EmitHeader(infos[0]) + EmitNodes(infos[0].nodes);
    if k == 0 {
      p, q := [], EmitLists(infos[1..]);
      assert EmitLists(infos) == [] + (EmitHeader(infos[0]) + (EmitNodes(infos[0].nodes) + q));
    } else {
      var r, t := HeaderPlace(infos[1..], k - 1);
      p, q := first + r, t;
      assert EmitLists(infos) == first + EmitLists(infos[1..]);
    }
  }

  lemma {:induction false} NodePlace(ns: seq<NodeInfo>, i: nat) returns (p: Stream, q: Stream)
    requires i < |ns|
    ensures EmitNodes(ns) == p + (EmitNode(ns[i]) + q)
    decreases i
  {
    hide EmitNode;
    if i == 0 {
      p, q := [], EmitNodes(ns[1..]);
      assert EmitNodes(ns) == [] + (EmitNode(ns[0]) + q);
    } else {
      var r, t := NodePlace(ns[1..], i - 1);
      p, q := EmitNode(ns[0]) + r, t;
      assert EmitNodes(ns) == EmitNode(ns[0]) + (r + (EmitNode(ns[i]) + t));
    }
  }

  /** The stream with the collection's lists somewhere in it. */
  ghost predicate Holds(x: Setting, before: Stream, infos: seq<ListInfo>, after: Stream) {
    Ready(x) && x.stream == before + (EmitLists(infos) + after) && Named(infos, x.runtime)
  }

  lemma HeaderInStream(x: Setting, before: Stream, infos: seq<ListInfo>, after: Stream, k: nat) returns (p: Stream, q: Stream)
    requires Holds(x, before, infos, after) && k < |infos|
    ensures x.stream == p + (EmitHeader(infos[k]) + q)
    ensures Known(x, infos[k].header)
  {
    hide Ready, EmitLists, EmitNodes;
    var r, t := HeaderPlace(infos, k);
    p, q := before + r, EmitNodes(infos[k].nodes) + t + after;
    assert x.stream == p + (EmitHeader(infos[k]) + q);
    HeaderBlock(infos[k]);
    BlockIsKnown(x, p, EmitHeader(infos[k]), q);
  }

  lemma HeaderBlock(i: ListInfo)
    ensures IsBlock(EmitHeader(i)) && EmitHeader(i)[0].target == i.header
  {
  }

  lemma NodeBlock(n: NodeInfo)
    ensures IsBlock(EmitNode(n)) && EmitNode(n)[0].target == n.label_
  {
  }

  lemma NodeInStream(x: Setting, before: Stream, infos: seq<ListInfo>, after: Stream, k: nat, i: nat) returns (p: Stream, q: Stream)
    requires Holds(x, before, infos, after) && k < |infos| && i < |infos[k].nodes|
    ensures x.stream == p + (EmitNode(infos[k].nodes[i]) + q)
    ensures Known(x, infos[k].nodes[i].label_)
  {
    hide Ready, EmitLists, EmitNodes, EmitNode;
    var r, t := HeaderPlace(infos, k);
    var u, v := NodePlace(infos[k].nodes, i);
    var n, h := infos[k].nodes[i], EmitHeader(infos[k]);
    p, q := before + r + h + u, v + t + after;
    hide EmitHeader;
    assert x.stream == before + ((r + (h + ((u + (EmitNode(n) + v)) + t))) + after);
    assert x.stream == p + (EmitNode(n) + q);
    NodeBlock(n);
    BlockIsKnown(x, p, EmitNode(n), q);
  }

  /** A list of the collection reads back at the address its header was linked to. */
  lemma {:induction false} ListReads(x: Setting, before: Stream, infos: seq<ListInfo>, after: Stream, name: string, l: Literal)
    requires Holds(x, before, infos, after) && Describes(infos, name, l)
    ensures Known(x, name) && Decodes(x.m, x.labels[name], l)
    decreases l, 1
  {
    hide Holds, NodesDescribe, Ready, EmitHeader, Chain;
    var k :| 0 <= k < |infos| && infos[k].header == name && infos[k].length == |l.elements|
             && NodesDescribe(infos, infos[k].nodes, l.elements);
    var nodes := infos[k].nodes;
    var p, q := HeaderInStream(x, before, infos, after, k);
    NodesMatch(infos, nodes, l.elements);
    if nodes != [] {
      var r, s := NodeInStream(x, before, infos, after, k, 0);
      var t, u := NodeInStream(x, before, infos, after, k, |nodes| - 1);
    }
    assert nodes[0..] == nodes;
    NodesRead(x, before, infos, after, k, 0, l.elements);
    HoldsIsReady(x, before, infos, after, k);
    HeaderReads(x, p, infos[k], q);
  }

  lemma HoldsIsReady(x: Setting, before: Stream, infos: seq<ListInfo>, after: Stream, k: nat)
    requires Holds(x, before, infos, after) && k < |infos|
    ensures Ready(x) && infos[k].header != "" && infos[k].header !in x.runtime
  {
    hide Ready;
  }

  lemma {:induction false} NodesMatch(infos: seq<ListInfo>, nodes: seq<NodeInfo>, es: seq<Element>)
    requires NodesDescribe(infos, nodes, es)
    ensures |nodes| == |es|
    decreases es
  {
    hide Describes;
    if es != [] {
      NodesMatch(infos, nodes[1..], es[1..]);
    }
  }

  /** The nodes of list `k` from number `i` on read as a chain. */
  lemma {:induction false} NodesRead(x: Setting, before: Stream, infos: seq<ListInfo>, after: Stream, k: nat, i: nat, es: seq<Element>)
    requires Holds(x, before, infos, after) && k < |infos| && i <= |infos[k].nodes|
    requires NodesDescribe(infos, infos[k].nodes[i..], es)
    ensures var nodes := infos[k].nodes;
            && (i < |nodes| ==> Known(x, nodes[i].label_) && Known(x, nodes[|nodes| - 1].label_))
            && Chain(x.m, if i < |nodes| then x.labels[nodes[i].label_] else 0,
                     if i < |nodes| then x.labels[nodes[|nodes| - 1].label_] else 0, es)
    decreases es, 0
  {
    hide Holds, Ready, EmitNode, Decodes, Describes;
    var nodes := infos[k].nodes;
    NodesMatch(infos, nodes[i..], es);
    if i < |nodes| {
      var n := nodes[i];
      assert nodes[i..][0] == n && nodes[i..][1..] == nodes[i + 1..];
      var p, q := NodeInStream(x, before, infos, after, k, i);
      var r, s := NodeInStream(x, before, infos, after, k, |nodes| - 1);
      if es[0].ListElement? {
        assert es[0] in es && es[0].list < es[0];
        ListReads(x, before, infos, after, n.pointerLabel, es[0].list);
      }
      NodesRead(x, before, infos, after, k, i + 1, es[1..]);
      assert i + 1 < |nodes| ==> nodes[i..][1] == nodes[i + 1];
      HoldsIsReady(x, before, infos, after, k);
      KnownNode(x, n.label_);
      NodeReads(x, p, n, q);
    }
  }

  lemma KnownNode(x: Setting, name: string)
    requires Known(x, name)
    ensures name != "" && name !in x.runtime
  {
  }

  /** List literals survive collection, sharing, emission and linking: at the address of the label that `AddList`
    * returned, the linked words read as the literal and as no other list.
    */
  lemma LiteralsSurviveLinking(s: Collection, l: Literal, x: Setting, before: Stream, after: Stream)
    requires Faithful(s)
    requires Holds(x, before, AddList(s, l).state.infos, after)
    ensures var name := AddList(s, l).name;
            && name in x.labels && Decodes(x.m, x.labels[name], l)
            && forall k :: Decodes(x.m, x.labels[name], k) ==> k == l
  {
    hide Holds, Decodes, Describes, AddList, Faithful;
    AddListDescribes(s, l);
    var r := AddList(s, l);
    ListReads(x, before, r.state.infos, after, r.name, l);
    forall k | Decodes(x.m, x.labels[r.name], k)
      ensures k == l
    {
      DecodesToOne(x.m, x.labels[r.name], k, l);
    }
  }
}
