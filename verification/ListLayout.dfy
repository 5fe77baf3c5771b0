/** Emitting list literals into the instruction stream, linking, and what a reader of the linked words finds. */
module ListLayout {
  import opened Wrappers
  import opened ListLiterals
  import opened PeepholePatterns

  const HALF_WORD: int := 0x1_0000_0000
  const PAGE := 4096
  const GAP := 16384

  // ----- the stream -----

  datatype Relocation = NoRelocation | AbsoluteLow | AbsoluteHigh

  datatype Entry = Entry(
    segment: Segment,
    isLabel: bool,
    isData: bool,
    hasText: bool,
    target: string,
    encoding: int,
    relocation: Relocation)

  type Stream = seq<Entry>

  function LabelDefinition(name: string): Entry {
    Entry(RODATA, true, false, false, name, 0, NoRelocation)
  }

  function Data32(v: int): Entry {
    Entry(RODATA, false, true, true, "", v, NoRelocation)
  }

  function Data64(v: int): Stream {
    [Data32(v % HALF_WORD), Data32(v / HALF_WORD)]
  }

  function Pointer(name: string): Stream {
    [Entry(RODATA, false, true, true, name, 0, AbsoluteLow), Entry(RODATA, false, true, true, name, 0, AbsoluteHigh)]
  }

  function PointerOrNull(name: string): Stream {
    if name != "" then Pointer(name) else Data64(0)
  }

  function EmitNode(n: NodeInfo): Stream {
    [LabelDefinition(n.label_), Data32(n.typeTag), Data32(0)]
      + ((if n.isPointer then Pointer(n.pointerLabel) else Data64(n.bits)) + PointerOrNull(n.nextLabel))
  }

  function EmitNodes(ns: seq<NodeInfo>): Stream {
    if ns == [] then [] else EmitNode(ns[0]) + EmitNodes(ns[1..])
  }

  /** Type, padding, tail, head, length. */
  function EmitHeader(i: ListInfo): Stream {
    var tail := if i.nodes == [] then Data64(0) else Pointer(i.nodes[|i.nodes| - 1].label_);
    var head := if i.nodes == [] then Data64(0) else Pointer(i.nodes[0].label_);
    [LabelDefinition(i.header), Data32(0), Data32(0)] + (tail + (head + Data64(i.length)))
  }

  function EmitLists(infos: seq<ListInfo>): Stream {
    if infos == [] then [] else EmitHeader(infos[0]) + (EmitNodes(infos[0].nodes) + EmitLists(infos[1..]))
  }

  // ----- linking -----

  datatype Cursors = Cursors(code: int, rodata: int, data: int)

  predicate Emits(e: Entry) {
    e.hasText || e.isData
  }

  function Cursor(c: Cursors, s: Segment): int {
    match s
    case CODE => c.code
    case RODATA => c.rodata
    case DATA => c.data
  }

  function Advance(c: Cursors, e: Entry): Cursors {
    if !Emits(e) then c
    else match e.segment {
      case CODE => c.(code := c.code + 4)
      case RODATA => c.(rodata := c.rodata + 4)
      case DATA => c.(data := c.data + 4)
    }
  }

  /** The bytes of code, as the first pass counts them. */
  function CodeSize(s: Stream): nat {
    if s == [] then 0 else (if s[0].segment.CODE? && !s[0].isLabel then 4 else 0) + CodeSize(s[1..])
  }

  /** Behind the code and a gap, on a page boundary. */
  function RodataStart(s: Stream, codeBase: nat): int {
    (codeBase + CodeSize(s) + GAP + (PAGE - 1)) / PAGE * PAGE
  }

  /** Defines every label at its segment's cursor; a label defined twice is an error. */
  function DefineLabels(s: Stream, c: Cursors, labels: map<string, int>): Result<map<string, int>>
    decreases |s|
  {
    if s == [] then Ok(labels)
    else if s[0].isLabel && s[0].target in labels then Err
    else DefineLabels(s[1..], Advance(c, s[0]),
                      if s[0].isLabel then labels[s[0].target := Cursor(c, s[0].segment)] else labels)
  }

  /** The address a relocation refers to: runtime functions come first. */
  function Target(labels: map<string, int>, runtime: map<string, int>, name: string): Result<int> {
    if name in runtime then Ok(runtime[name])
    else if name in labels then Ok(labels[name])
    else Err
  }

  /** The final 32 bits of an entry. */
  function Patch(e: Entry, labels: map<string, int>, runtime: map<string, int>): Result<int> {
    if e.relocation.NoRelocation? || e.target == "" then Ok(e.encoding)
    else
      var t := Target(labels, runtime, e.target);
      if t.Err? then Err
      else Ok(if e.relocation.AbsoluteLow? then t.value % HALF_WORD else t.value / HALF_WORD % HALF_WORD)
  }

  /** The linked words of the read-only data by address; an undefined label is an error. */
  function RodataImage(s: Stream, at: int, labels: map<string, int>, runtime: map<string, int>): Result<map<int, int>>
    decreases |s|
  {
    if s == [] then Ok(map[])
    else if !s[0].segment.RODATA? || !Emits(s[0]) then RodataImage(s[1..], at, labels, runtime)
    else
      var v, rest := Patch(s[0], labels, runtime), RodataImage(s[1..], at + 4, labels, runtime);
      if v.Err? || rest.Err? then Err else Ok(rest.value[at := v.value])
  }

  // ----- code and read-only data do not overlap -----

  function CodeEnd(s: Stream, at: int): int
    decreases |s|
  {
    if s == [] then at else CodeEnd(s[1..], if s[0].segment.CODE? && Emits(s[0]) then at + 4 else at)
  }

  lemma {:induction false} CodeEndsInTime(s: Stream, at: int)
    requires forall e :: e in s && e.isLabel ==> !Emits(e)
    ensures CodeEnd(s, at) <= at + CodeSize(s)
    decreases |s|
  {
    if s != [] {
      CodeEndsInTime(s[1..], if s[0].segment.CODE? && Emits(s[0]) then at + 4 else at);
      assert s[0] in s;
    }
  }

  /** When every other entry of the code emits something, the end is counted exactly. */
  lemma {:induction false} CodeEndsExactly(s: Stream, at: int)
    requires forall e :: e in s && e.segment.CODE? ==> (e.isLabel <==> !Emits(e))
    ensures CodeEnd(s, at) == at + CodeSize(s)
    decreases |s|
  {
    if s != [] {
      CodeEndsExactly(s[1..], if s[0].segment.CODE? && Emits(s[0]) then at + 4 else at);
      assert s[0] in s;
    }
  }

  /** The two words of a pointer make up the address of the runtime function of that name, else that of the label; the error
    * exactly when there is neither.
    */
  lemma PointerTarget(name: string, labels: map<string, int>, runtime: map<string, int>)
    requires name != ""
    ensures var low, high := Patch(Pointer(name)[0], labels, runtime), Patch(Pointer(name)[1], labels, runtime);
            && (low.Ok? <==> name in runtime || name in labels) && (high.Ok? <==> low.Ok?)
            && (low.Ok? ==>
                  var a := if name in runtime then runtime[name] else labels[name];
                  && 0 <= low.value < 0x1_0000_0000 && 0 <= high.value < 0x1_0000_0000
                  && (low.value + 0x1_0000_0000 * high.value - a) % 0x1_0000_0000_0000_0000 == 0)
  {
    var e := Pointer(name)[0];
    if name in runtime {
      Halves(runtime[name]);
    } else if name in labels {
      Halves(labels[name]);
    }
  }

  lemma Halves(a: int)
    ensures var low, high := a % HALF_WORD, a / HALF_WORD % HALF_WORD;
            (low + 0x1_0000_0000 * high - a) % 0x1_0000_0000_0000_0000 == 0
  {
  }

  /** When label definitions emit nothing, the read-only data starts on a page boundary, more than the gap behind the
    * last instruction.
    */
  lemma SegmentsAreApart(s: Stream, codeBase: nat)
    requires forall e :: e in s && e.isLabel ==> !Emits(e)
    ensures CodeEnd(s, codeBase) + 16384 <= RodataStart(s, codeBase) && RodataStart(s, codeBase) % 4096 == 0
    ensures RodataStart(s, codeBase) < codeBase + CodeSize(s) + 16384 + 4096
  {
    CodeEndsInTime(s, codeBase);
  }

  // ----- where things end up -----

  function RodataWords(s: Stream): nat {
    if s == [] then 0 else (if s[0].segment.RODATA? && Emits(s[0]) then 1 else 0) + RodataWords(s[1..])
  }

  lemma {:induction false} RodataWordsAdd(a: Stream, b: Stream)
    ensures RodataWords(a + b) == RodataWords(a) + RodataWords(b)
  {
    if a == [] {
      assert a + b == b;
    } else {
      assert (a + b)[1..] == a[1..] + b;
      RodataWordsAdd(a[1..], b);
    }
  }

  lemma {:induction false} LabelsStay(s: Stream, c: Cursors, labels: map<string, int>, name: string)
    requires DefineLabels(s, c, labels).Ok? && name in labels
    ensures name in DefineLabels(s, c, labels).value && DefineLabels(s, c, labels).value[name] == labels[name]
    decreases |s|
  {
    hide Advance, Cursor;
    if s != [] {
      LabelsStay(s[1..], Advance(c, s[0]),
                 if s[0].isLabel then labels[s[0].target := Cursor(c, s[0].segment)] else labels, name);
    }
  }

  /** A label of the read-only data gets the address of the next word. */
  lemma {:induction false} LabelAddress(p: Stream, e: Entry, q: Stream, c: Cursors, labels: map<string, int>)
    requires DefineLabels(p + ([e] + q), c, labels).Ok? && e.isLabel && e.segment.RODATA?
    ensures var r := DefineLabels(p + ([e] + q), c, labels).value;
            e.target in r && r[e.target] == c.rodata + 4 * RodataWords(p)
    decreases |p|
  {
    var s := p + ([e] + q);
    if p == [] {
      assert s[0] == e && s[1..] == q;
      LabelsStay(q, Advance(c, e), labels[e.target := c.rodata], e.target);
    } else {
      assert s[1..] == p[1..] + ([e] + q);
      LabelAddress(p[1..], e, q, Advance(c, p[0]),
                   if p[0].isLabel then labels[p[0].target := Cursor(c, p[0].segment)] else labels);
    }
  }

  function WordsIn(g: Segment, s: Stream): nat {
    if s == [] then 0 else (if s[0].segment == g && Emits(s[0]) then 1 else 0) + WordsIn(g, s[1..])
  }

  /** A label of any segment gets the address behind the words of its segment that come before it. */
  lemma {:induction false} SegmentLabelAddress(p: Stream, e: Entry, q: Stream, c: Cursors, labels: map<string, int>)
    requires DefineLabels(p + ([e] + q), c, labels).Ok? && e.isLabel
    ensures var r := DefineLabels(p + ([e] + q), c, labels).value;
            && e.target in r
            && r[e.target] == (if e.segment.CODE? then c.code else if e.segment.RODATA? then c.rodata else c.data)
                              + 4 * WordsIn(e.segment, p)
    decreases |p|
  {
    var s := p + ([e] + q);
    if p == [] {
      assert s[0] == e && s[1..] == q;
      LabelsStay(q, Advance(c, e), labels[e.target := Cursor(c, e.segment)], e.target);
    } else {
      assert s[1..] == p[1..] + ([e] + q);
      SegmentLabelAddress(p[1..], e, q, Advance(c, p[0]),
                          if p[0].isLabel then labels[p[0].target := Cursor(c, p[0].segment)] else labels);
    }
  }

  /** A word of the read-only data ends up behind the words before it. */
  lemma {:induction false} WordAddress(p: Stream, e: Entry, q: Stream, at: int, labels: map<string, int>, runtime: map<string, int>)
    requires RodataImage(p + ([e] + q), at, labels, runtime).Ok? && e.segment.RODATA? && Emits(e)
    ensures var m, a := RodataImage(p + ([e] + q), at, labels, runtime).value, at + 4 * RodataWords(p);
            a in m && Patch(e, labels, runtime) == Ok(m[a])
    decreases |p|
  {
    hide Patch;
    var s := p + ([e] + q);
    if p == [] {
      assert s[0] == e && s[1..] == q;
    } else {
      assert s[1..] == p[1..] + ([e] + q);
      WordAddress(p[1..], e, q, if p[0].segment.RODATA? && Emits(p[0]) then at + 4 else at, labels, runtime);
    }
  }

  /** A label definition followed by words. */
  predicate IsBlock(b: Stream) {
    && b != [] && b[0].isLabel && b[0].segment.RODATA? && !Emits(b[0])
    && forall i :: 1 <= i < |b| ==> b[i].segment.RODATA? && Emits(b[i])
  }

  lemma {:induction false} BlockPrefixWords(b: Stream, n: nat)
    requires IsBlock(b) && 1 <= n <= |b|
    ensures RodataWords(b[..n]) == n - 1
  {
    if n == 1 {
      assert b[..1][1..] == [];
    } else {
      BlockPrefixWords(b, n - 1);
      assert b[..n] == b[..n - 1] + [b[n - 1]];
      RodataWordsAdd(b[..n - 1], [b[n - 1]]);
      assert [b[n - 1]][1..] == [];
    }
  }

  /** A linked stream: its labels, and its read-only words. */
  ghost predicate Linked(s: Stream, c: Cursors, labels: map<string, int>, runtime: map<string, int>, m: map<int, int>) {
    DefineLabels(s, c, map[]) == Ok(labels) && RodataImage(s, c.rodata, labels, runtime) == Ok(m)
  }

  /** The word at address `a` is what entry `e` was linked to. */
  ghost predicate WordIs(m: map<int, int>, a: int, e: Entry, labels: map<string, int>, runtime: map<string, int>) {
    a in m && Patch(e, labels, runtime) == Ok(m[a])
  }

  /** The words of a block lie one after another from the address of its label. */
  lemma BlockImage(p: Stream, b: Stream, q: Stream, c: Cursors, labels: map<string, int>, runtime: map<string, int>, m: map<int, int>)
    requires Linked(p + (b + q), c, labels, runtime, m) && IsBlock(b)
    ensures b[0].target in labels && labels[b[0].target] == c.rodata + 4 * RodataWords(p)
    ensures forall i :: 1 <= i < |b| ==> WordIs(m, labels[b[0].target] + 4 * (i - 1), b[i], labels, runtime)
  {
    assert b + q == [b[0]] + (b[1..] + q);
    LabelAddress(p, b[0], b[1..] + q, c, map[]);
    forall i | 1 <= i < |b|
      ensures WordIs(m, labels[b[0].target] + 4 * (i - 1), b[i], labels, runtime)
    {
      BlockWord(p, b, q, i, c, labels, runtime, m);
    }
  }

  lemma BlockWord(p: Stream, b: Stream, q: Stream, i: nat, c: Cursors, labels: map<string, int>, runtime: map<string, int>, m: map<int, int>)
    requires RodataImage(p + (b + q), c.rodata, labels, runtime) == Ok(m) && IsBlock(b) && 1 <= i < |b|
    ensures WordIs(m, c.rodata + 4 * RodataWords(p) + 4 * (i - 1), b[i], labels, runtime)
  {
    hide Patch, RodataImage, RodataWords;
    var pre := p + b[..i];
    var post := b[i + 1..] + q;
    assert p + (b + q) == pre + ([b[i]] + post);
    WordAddress(pre, b[i], post, c.rodata, labels, runtime);
    RodataWordsAdd(p, b[..i]);
    BlockPrefixWords(b, i);
  }
}
