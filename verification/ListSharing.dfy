/** Equal list literals share one label, and different ones never do. */
module ListSharing {
  import opened Ast
  import opened ListLiterals
  import opened ListLabels
  import opened ListImages

  /** A label of a list whose number is at least `lo` and below `hi`. */
  ghost predicate HeaderWithin(name: string, lo: nat, hi: nat) {
    exists id: nat :: lo <= id < hi && name == HeaderLabel(id)
  }

  /** Different keys have different labels, of lists numbered so far. */
  ghost predicate OneEach(s: Collection) {
    && (forall k :: k in s.labels ==> HeaderWithin(s.labels[k], 0, s.nextId))
    && (forall j, k :: j in s.labels && k in s.labels && j != k ==> s.labels[j] != s.labels[k])
  }

  /** Labels stay, and those that are new belong to new lists. */
  ghost predicate Grown(s: Collection, t: Collection) {
    && s.nextId <= t.nextId
    && (forall k :: k in s.labels ==> k in t.labels && t.labels[k] == s.labels[k])
    && (forall k :: k in t.labels && k !in s.labels ==> HeaderWithin(t.labels[k], s.nextId, t.nextId))
  }

  lemma WiderWithin(name: string, lo: nat, hi: nat, low: nat, high: nat)
    requires HeaderWithin(name, lo, hi) && low <= lo && hi <= high
    ensures HeaderWithin(name, low, high)
  {
    var id: nat :| lo <= id < hi && name == HeaderLabel(id);
    assert low <= id < high;
  }

  lemma GrownTrans(s: Collection, t: Collection, u: Collection)
    requires Grown(s, t) && Grown(t, u)
    ensures Grown(s, u)
  {
    hide HeaderWithin;
    forall k | k in u.labels && k !in s.labels
      ensures HeaderWithin(u.labels[k], s.nextId, u.nextId)
    {
      if k in t.labels {
        WiderWithin(u.labels[k], s.nextId, t.nextId, s.nextId, u.nextId);
      } else {
        WiderWithin(u.labels[k], t.nextId, u.nextId, s.nextId, u.nextId);
      }
    }
  }

  lemma GrownSelf(s: Collection)
    ensures Grown(s, s)
  {
  }

  /** Nothing in `t` has the label of the list that was started between `s` and `t`. */
  lemma StartedLabelIsFree(s: Collection, t: Collection, k: string)
    requires OneEach(s) && Grown(s.(nextId := s.nextId + 1), t) && k in t.labels
    ensures t.labels[k] != HeaderLabel(s.nextId)
  {
    hide HeaderLabel;
    var id: nat :| id < t.nextId && id != s.nextId && t.labels[k] == HeaderLabel(id) by {
      if k in s.labels {
        assert HeaderWithin(t.labels[k], 0, s.nextId);
      } else {
        assert HeaderWithin(t.labels[k], s.nextId + 1, t.nextId);
      }
    }
    HeadersDiffer(id, s.nextId);
  }

  lemma RegisteredIsOneEach(s: Collection, t: Collection, k: string, infos: seq<ListInfo>)
    requires OneEach(s) && k !in s.labels && OneEach(t) && Grown(s.(nextId := s.nextId + 1), t)
    ensures var u := t.(infos := infos, labels := t.labels[k := HeaderLabel(s.nextId)]); OneEach(u) && Grown(s, u)
  {
    hide HeaderLabel;
    var h := HeaderLabel(s.nextId);
    var u := t.(infos := infos, labels := t.labels[k := h]);
    assert HeaderWithin(h, s.nextId, t.nextId) && HeaderWithin(h, 0, t.nextId);
    hide HeaderWithin;
    forall j | j in t.labels
      ensures t.labels[j] != h
    {
      StartedLabelIsFree(s, t, j);
    }
    forall j | j in u.labels && j !in s.labels
      ensures HeaderWithin(u.labels[j], s.nextId, u.nextId)
    {
      if j != k {
        WiderWithin(t.labels[j], s.nextId + 1, t.nextId, s.nextId, u.nextId);
      }
    }
  }

  /** Collecting a list keeps one label for each. */
  lemma {:induction false} AddListKeepsOneEach(s: Collection, l: Literal)
    requires OneEach(s)
    ensures var r := AddList(s, l);
            && OneEach(r.state) && Grown(s, r.state)
            && ListKey(l) in r.state.labels && r.state.labels[ListKey(l)] == r.name
    decreases l, 1
  {
    hide ListKey, HeaderLabel, AddElements, OneEach, Grown;
    var k := ListKey(l);
    if k in s.labels {
      GrownSelf(s);
    } else {
      var started := s.(nextId := s.nextId + 1);
      assert OneEach(started) by { StartingKeeps(s); }
      AddElementsKeepOneEach(started, l.elements, s.nextId, 0);
      var r := AddElements(started, l.elements, s.nextId, 0);
      RegisteredIsOneEach(s, r.state, k, AddList(s, l).state.infos);
    }
  }

  lemma StartingKeeps(s: Collection)
    requires OneEach(s)
    ensures OneEach(s.(nextId := s.nextId + 1))
  {
    hide HeaderWithin;
    forall k | k in s.labels
      ensures HeaderWithin(s.labels[k], 0, s.nextId + 1)
    {
      WiderWithin(s.labels[k], 0, s.nextId, 0, s.nextId + 1);
    }
  }

  lemma {:induction false} AddElementsKeepOneEach(s: Collection, es: seq<Element>, id: nat, i: nat)
    requires OneEach(s)
    ensures OneEach(AddElements(s, es, id, i).state) && Grown(s, AddElements(s, es, id, i).state)
    decreases es, 0
  {
    hide AddList, NodeLabel, OneEach, Grown;
    if es == [] {
      GrownSelf(s);
    } else if es[0].IntElement? {
      AddElementsKeepOneEach(s, es[1..], id, i + 1);
    } else {
      assert es[0] in es && es[0].list < es[0];
      var a := AddList(s, es[0].list).state;
      AddListKeepsOneEach(s, es[0].list);
      AddElementsKeepOneEach(a, es[1..], id, i + 1);
      GrownTrans(s, a, AddElements(a, es[1..], id, i + 1).state);
    }
  }

  // ----- a program's list literals -----

  lemma {:induction false} CollectedOneEach(ls: seq<Literal>, i: nat)
    requires i < |ls|
    ensures OneEach(Collected(ls))
    ensures ListKey(ls[i]) in Collected(ls).labels && Collected(ls).labels[ListKey(ls[i])] == NameOf(ls, i)
    decreases |ls|
  {
    hide AddList, ListKey, OneEach, Grown;
    var front, l := ls[..|ls| - 1], ls[|ls| - 1];
    if |front| > 0 {
      CollectedOneEach(front, if i < |front| then i else 0);
    } else {
      NoListsOneEach();
    }
    AddListKeepsOneEach(Collected(front), l);
    if i < |front| {
      assert front[..i] == ls[..i];
      GrownKeeps(Collected(front), Collected(ls), ListKey(ls[i]));
    }
  }

  lemma NoListsOneEach()
    ensures OneEach(NO_LISTS)
  {
  }

  lemma GrownKeeps(s: Collection, t: Collection, k: string)
    requires Grown(s, t) && k in s.labels
    ensures k in t.labels && t.labels[k] == s.labels[k]
  {
  }

  /** Two literals of a program have the same label exactly when they are the same list. */
  lemma EqualListsShare(ls: seq<Literal>, i: nat, j: nat)
    requires i < |ls| && j < |ls|
    ensures NameOf(ls, i) == NameOf(ls, j) <==> ls[i] == ls[j]
  {
    hide ListKey, NameOf, Collected;
    CollectedOneEach(ls, i);
    CollectedOneEach(ls, j);
    if NameOf(ls, i) == NameOf(ls, j) {
      KeysAreInjective(ls[i], ls[j]);
    }
  }

  /** Collecting a list again adds nothing. */
  lemma SecondTimeAddsNothing(s: Collection, l: Literal)
    requires OneEach(s)
    ensures var r := AddList(s, l); AddList(r.state, l) == r
  {
    hide ListKey, OneEach, Grown;
    AddListKeepsOneEach(s, l);
  }
}
