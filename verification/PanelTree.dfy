/** The tree the panel chain encodes: the flat list of every reachable state is
    the preorder traversal of who opened what. */
module PanelTree {
  import opened Outcomes
  import opened PanelChain

  /** First child below, next sibling beside. */
  datatype Forest = Nothing | Grow(panel: PanelRef, below: Forest, beside: Forest)

  function Flatten(f: Forest): seq<PanelRef> {
    match f
    case Nothing => []
    case Grow(p, below, beside) => [p] + Flatten(below) + Flatten(beside)
  }

  /** Every panel's `from` is the panel it hangs under. */
  ghost predicate Links(f: Forest, from: Option<Key>) {
    match f
    case Nothing => true
    case Grow(p, below, beside) => p.from == from && Links(below, Some(p.key)) && Links(beside, from)
  }

  ghost function TreeKeys(f: Forest): set<Key> {
    match f
    case Nothing => {}
    case Grow(p, below, beside) => {p.key} + TreeKeys(below) + TreeKeys(beside)
  }

  ghost predicate DistinctKeys(f: Forest) {
    match f
    case Nothing => true
    case Grow(p, below, beside) =>
      && p.key !in TreeKeys(below) && p.key !in TreeKeys(beside) && TreeKeys(below) !! TreeKeys(beside)
      && DistinctKeys(below) && DistinctKeys(beside)
  }

  /** The list shows one tree: the root, then everything under it, in preorder. */
  ghost predicate Shows(panels: seq<PanelRef>, f: Forest) {
    f.Grow? && f.beside.Nothing? && panels == Flatten(f) && Links(f, None) && DistinctKeys(f)
  }

  lemma KeysConcat(a: seq<PanelRef>, b: seq<PanelRef>)
    ensures Keys(a + b) == Keys(a) + Keys(b)
  {
  }

  lemma {:induction false} FlattenKeys(f: Forest)
    ensures Keys(Flatten(f)) == TreeKeys(f)
  {
    if f.Grow? {
      FlattenKeys(f.below);
      FlattenKeys(f.beside);
      KeysConcat([f.panel], Flatten(f.below));
      KeysConcat([f.panel] + Flatten(f.below), Flatten(f.beside));
    }
  }

  ghost predicate Unique(panels: seq<PanelRef>) {
    forall i, j :: 0 <= i < j < |panels| ==> panels[i].key != panels[j].key
  }

  lemma UniqueConcat(a: seq<PanelRef>, b: seq<PanelRef>)
    requires Unique(a) && Unique(b) && Keys(a) !! Keys(b)
    ensures Unique(a + b)
  {
    forall i, j | 0 <= i < |a| && 0 <= j < |b| ensures a[i].key != b[j].key {
      assert a[i] in a && b[j] in b;
      assert a[i].key in Keys(a) && b[j].key in Keys(b);
    }
  }

  lemma {:induction false} FlattenIsUnique(f: Forest)
    requires DistinctKeys(f)
    ensures Unique(Flatten(f))
  {
    if f.Grow? {
      FlattenIsUnique(f.below);
      FlattenIsUnique(f.beside);
      FlattenKeys(f.below);
      FlattenKeys(f.beside);
      UniqueConcat([f.panel], Flatten(f.below));
      KeysConcat([f.panel], Flatten(f.below));
      UniqueConcat([f.panel] + Flatten(f.below), Flatten(f.beside));
    }
  }

  // ---- Opening: insert as first child ---------------------------------------------

  function Insert(f: Forest, at: Key, panel: PanelRef): Forest {
    match f
    case Nothing => Nothing
    case Grow(p, below, beside) =>
      if p.key == at then Grow(p, Grow(panel, Nothing, below), beside)
      else Grow(p, Insert(below, at, panel), Insert(beside, at, panel))
  }

  function InsertAfter(panels: seq<PanelRef>, at: Key, panel: PanelRef): seq<PanelRef> {
    var i := PositionOf(panels, at);
    if i == |panels| then panels else panels[..i + 1] + [panel] + panels[i + 1..]
  }

  lemma {:induction false} PositionInConcat(a: seq<PanelRef>, b: seq<PanelRef>, key: Key)
    ensures PositionOf(a + b, key) == (if key in Keys(a) then PositionOf(a, key) else |a| + PositionOf(b, key))
    ensures key in Keys(a) <==> PositionOf(a, key) < |a|
  {
    if a == [] {
      assert a + b == b;
    } else {
      assert (a + b)[1..] == a[1..] + b;
      PositionInConcat(a[1..], b, key);
      KeysConcat([a[0]], a[1..]);
      assert a == [a[0]] + a[1..];
    }
  }

  lemma InsertInFirst(a: seq<PanelRef>, b: seq<PanelRef>, at: Key, panel: PanelRef)
    requires at in Keys(a)
    ensures InsertAfter(a + b, at, panel) == InsertAfter(a, at, panel) + b
  {
    PositionInConcat(a, b, at);
    var i := PositionOf(a, at);
    assert (a + b)[..i + 1] == a[..i + 1];
    assert (a + b)[i + 1..] == a[i + 1..] + b;
  }

  lemma SliceConcat(a: seq<PanelRef>, b: seq<PanelRef>, n: nat)
    requires n <= |b|
    ensures (a + b)[..|a| + n] == a + b[..n] && (a + b)[|a| + n..] == b[n..]
  {
  }

  lemma InsertInSecond(a: seq<PanelRef>, b: seq<PanelRef>, at: Key, panel: PanelRef)
    requires at !in Keys(a)
    ensures InsertAfter(a + b, at, panel) == a + InsertAfter(b, at, panel)
  {
    PositionInConcat(a, b, at);
    var i := PositionOf(b, at);
    if i < |b| {
      SliceConcat(a, b, i + 1);
      assert a + b[..i + 1] + [panel] + b[i + 1..] == a + (b[..i + 1] + [panel] + b[i + 1..]);
    }
  }

  lemma {:induction false} AbsentInsertsNothing(f: Forest, at: Key, panel: PanelRef)
    requires at !in TreeKeys(f)
    ensures Insert(f, at, panel) == f
  {
    if f.Grow? {
      AbsentInsertsNothing(f.below, at, panel);
      AbsentInsertsNothing(f.beside, at, panel);
    }
  }

  /** Inserting in the tree is inserting right after the source in the list. */
  lemma {:induction false} InsertIsInsertAfter(f: Forest, at: Key, panel: PanelRef)
    requires DistinctKeys(f)
    ensures Flatten(Insert(f, at, panel)) == InsertAfter(Flatten(f), at, panel)
  {
    if f.Grow? {
      var p, b, r := [f.panel], Flatten(f.below), Flatten(f.beside);
      FlattenKeys(f.below);
      assert Flatten(f) == p + (b + r);
      if f.panel.key == at {
        InsertInFirst(p, b + r, at, panel);
        InsertAtHead(f, panel);
      } else {
        InsertInSecond(p, b + r, at, panel);
        InsertIsInsertAfter(f.below, at, panel);
        InsertIsInsertAfter(f.beside, at, panel);
        if at in TreeKeys(f.below) {
          InsertInFirst(b, r, at, panel);
          AbsentInsertsNothing(f.beside, at, panel);
        } else {
          InsertInSecond(b, r, at, panel);
          AbsentInsertsNothing(f.below, at, panel);
        }
        FlattenInsertDeeper(f, at, panel);
      }
    }
  }

  lemma FlattenInsertDeeper(f: Forest, at: Key, panel: PanelRef)
    requires f.Grow? && f.panel.key != at
    ensures Flatten(Insert(f, at, panel)) ==
            [f.panel] + (Flatten(Insert(f.below, at, panel)) + Flatten(Insert(f.beside, at, panel)))
  {
  }

  lemma InsertAtHead(f: Forest, panel: PanelRef)
    requires f.Grow?
    ensures Flatten(Insert(f, f.panel.key, panel)) ==
            InsertAfter([f.panel], f.panel.key, panel) + (Flatten(f.below) + Flatten(f.beside))
  {
    var p, b, r := [f.panel], Flatten(f.below), Flatten(f.beside);
    assert Flatten(Grow(panel, Nothing, f.below)) == [panel] + b;
    assert InsertAfter(p, f.panel.key, panel) == p + [panel];
    assert p + ([panel] + b) + r == p + [panel] + (b + r);
  }

  lemma {:induction false} InsertKeepsLinks(f: Forest, from: Option<Key>, at: Key, panel: PanelRef)
    requires Links(f, from) && panel.from == Some(at)
    ensures Links(Insert(f, at, panel), from)
  {
    if f.Grow? && f.panel.key != at {
      InsertKeepsLinks(f.below, Some(f.panel.key), at, panel);
      InsertKeepsLinks(f.beside, from, at, panel);
    }
  }

  lemma {:induction false} InsertKeepsDistinct(f: Forest, at: Key, panel: PanelRef)
    requires DistinctKeys(f) && panel.key !in TreeKeys(f)
    ensures DistinctKeys(Insert(f, at, panel))
    ensures TreeKeys(Insert(f, at, panel)) == TreeKeys(f) + (if at in TreeKeys(f) then {panel.key} else {})
  {
    if f.Grow? {
      if f.panel.key != at {
        InsertKeepsDistinct(f.below, at, panel);
        InsertKeepsDistinct(f.beside, at, panel);
      } else {
        assert TreeKeys(Grow(panel, Nothing, f.below)) == {panel.key} + TreeKeys(f.below);
      }
      var added := if at in TreeKeys(f) then {panel.key} else {};
      assert TreeKeys(Insert(f, at, panel)) == TreeKeys(f) + added;
    }
  }

  // ---- Closing: prune one subtree ---------------------------------------------------

  function Prune(f: Forest, key: Key): Forest {
    match f
    case Nothing => Nothing
    case Grow(p, below, beside) =>
      if p.key == key then beside else Grow(p, Prune(below, key), Prune(beside, key))
  }

  /** The keys of everything opened from `key`, however deep. */
  ghost function Under(f: Forest, key: Key): set<Key> {
    match f
    case Nothing => {}
    case Grow(p, below, beside) =>
      if p.key == key then TreeKeys(below) else Under(below, key) + Under(beside, key)
  }

  lemma {:induction false} PruneKeepsLinks(f: Forest, from: Option<Key>, key: Key)
    requires Links(f, from)
    ensures Links(Prune(f, key), from)
  {
    if f.Grow? && f.panel.key != key {
      PruneKeepsLinks(f.below, Some(f.panel.key), key);
      PruneKeepsLinks(f.beside, from, key);
    }
  }

  lemma {:induction false} UnderIsWithin(f: Forest, key: Key)
    ensures Under(f, key) <= TreeKeys(f)
    ensures key !in TreeKeys(f) ==> Prune(f, key) == f && Under(f, key) == {}
  {
    if f.Grow? {
      UnderIsWithin(f.below, key);
      UnderIsWithin(f.beside, key);
    }
  }

  lemma {:induction false} PruneKeepsDistinct(f: Forest, key: Key)
    requires DistinctKeys(f)
    ensures DistinctKeys(Prune(f, key))
    ensures TreeKeys(Prune(f, key)) == TreeKeys(f) - {key} - Under(f, key)
    ensures key !in Under(f, key)
  {
    if f.Grow? {
      UnderIsWithin(f.below, key);
      UnderIsWithin(f.beside, key);
      if f.panel.key != key {
        PruneKeepsDistinct(f.below, key);
        PruneKeepsDistinct(f.beside, key);
      }
    }
  }

  lemma Around(p: seq<PanelRef>, before: seq<PanelRef>, block: seq<PanelRef>, after: seq<PanelRef>, r: seq<PanelRef>)
    ensures p + (before + block + after) + r == (p + before) + block + (after + r)
    ensures p + (before + after) + r == (p + before) + (after + r)
  {
  }

  lemma AroundLast(p: seq<PanelRef>, before: seq<PanelRef>, block: seq<PanelRef>, after: seq<PanelRef>)
    ensures p + (before + block + after) == (p + before) + block + after
    ensures p + (before + after) == (p + before) + after
  {
  }

  /** The panels of a branch: the start and everything under it. */
  function Block(f: Forest, key: Key): seq<PanelRef> {
    match f
    case Nothing => []
    case Grow(p, below, beside) =>
      if p.key == key then [p] + Flatten(below) else Block(below, key) + Block(beside, key)
  }

  lemma {:induction false} BlockKeys(f: Forest, key: Key)
    requires DistinctKeys(f)
    ensures key !in TreeKeys(f) ==> Block(f, key) == []
    ensures key in TreeKeys(f) ==>
              Block(f, key) != [] && Block(f, key)[0].key == key && Keys(Block(f, key)) == {key} + Under(f, key)
  {
    if f.Grow? {
      BlockKeys(f.below, key);
      BlockKeys(f.beside, key);
      UnderIsWithin(f.below, key);
      UnderIsWithin(f.beside, key);
      if f.panel.key == key {
        FlattenKeys(f.below);
        KeysConcat([f.panel], Flatten(f.below));
        assert Keys([f.panel]) == {key};
      } else if key in TreeKeys(f.below) {
        assert Block(f, key) == Block(f.below, key) && Under(f, key) == Under(f.below, key);
      } else if key in TreeKeys(f.beside) {
        assert Block(f, key) == Block(f.beside, key) && Under(f, key) == Under(f.beside, key);
      }
    }
  }

  /** A branch is one contiguous block of the list, and pruning cuts just it. */
  lemma {:induction false} BranchIsBlock(f: Forest, key: Key) returns (before: seq<PanelRef>, after: seq<PanelRef>)
    requires DistinctKeys(f) && key in TreeKeys(f)
    ensures Flatten(f) == before + Block(f, key) + after
    ensures Flatten(Prune(f, key)) == before + after
  {
    var p, b, r := [f.panel], Flatten(f.below), Flatten(f.beside);
    if f.panel.key == key {
      before, after := [], r;
      assert Flatten(f) == [] + Block(f, key) + r && [] + r == r;
    } else if key in TreeKeys(f.below) {
      before, after := BranchIsBlock(f.below, key);
      assert Block(f, key) == Block(f.below, key) by {
        BlockKeys(f.beside, key);
      }
      assert Flatten(Prune(f, key)) == p + (before + after) + r by {
        UnderIsWithin(f.beside, key);
      }
      Around(p, before, Block(f, key), after, r);
      before, after := p + before, after + r;
    } else {
      before, after := BranchIsBlock(f.beside, key);
      assert Block(f, key) == Block(f.beside, key) by {
        BlockKeys(f.below, key);
      }
      assert Flatten(Prune(f, key)) == p + b + (before + after) by {
        UnderIsWithin(f.below, key);
      }
      AroundLast(p + b, before, Block(f, key), after);
      before := p + b + before;
    }
  }

  // ---- The fixpoint finds exactly the subtree ------------------------------------------

  lemma {:induction false} PassConcat(a: seq<PanelRef>, b: seq<PanelRef>, branch: set<Key>)
    ensures Pass(a + b, branch) == Pass(b, Pass(a, branch))
  {
    if a == [] {
      assert a + b == b;
    } else {
      assert (a + b)[1..] == a[1..] + b;
      PassConcat(a[1..], b, if Joins(a[0], branch) then branch + {a[0].key} else branch);
    }
  }

  /** One pass over a tree is a pass over each of its parts. */
  lemma PassParts(f: Forest, branch: set<Key>)
    requires f.Grow?
    ensures Pass(Flatten(f), branch) ==
            Pass(Flatten(f.beside), Pass(Flatten(f.below),
              if Joins(f.panel, branch) then branch + {f.panel.key} else branch))
  {
    PassConcat([f.panel], Flatten(f.below), branch);
    PassConcat([f.panel] + Flatten(f.below), Flatten(f.beside), branch);
    assert [f.panel][1..] == [];
  }

  /** A pass over trees hanging under a member takes all of them in. */
  lemma {:induction false} PassTakesAll(f: Forest, from: Key, branch: set<Key>)
    requires Links(f, Some(from)) && from in branch
    ensures Pass(Flatten(f), branch) == branch + TreeKeys(f)
  {
    if f.Grow? {
      PassParts(f, branch);
      var next := branch + {f.panel.key};
      assert (if Joins(f.panel, branch) then next else branch) == next;
      PassTakesAll(f.below, f.panel.key, next);
      PassTakesAll(f.beside, from, next + TreeKeys(f.below));
      assert next + TreeKeys(f.below) + TreeKeys(f.beside) == branch + TreeKeys(f);
    } else {
      assert branch + {} == branch;
    }
  }

  lemma OnlyTheStart(branch: set<Key>, keys: set<Key>, start: Key, key: Key)
    requires branch * keys <= {start} && key in keys && key != start
    ensures key !in branch
  {
    assert key !in branch * keys;
  }

  /** A pass over trees that do not hang under a member takes in what hangs
      under `key`, and nothing else. */
  lemma {:induction false} PassTakesBranch(f: Forest, from: Option<Key>, key: Key, branch: set<Key>)
    requires Links(f, from) && DistinctKeys(f)
    requires key in branch && (from.Some? ==> from.value !in branch && from.value !in TreeKeys(f))
    requires branch * TreeKeys(f) <= {key}
    ensures Pass(Flatten(f), branch) == branch + Under(f, key)
  {
    if f.Grow? {
      PassParts(f, branch);
      UnderIsWithin(f.below, key);
      UnderIsWithin(f.beside, key);
      if f.panel.key == key {
        PassTakesAll(f.below, key, branch);
        PassTakesBranch(f.beside, from, key, branch + TreeKeys(f.below));
        assert branch + TreeKeys(f.below) + Under(f.beside, key) == branch + Under(f, key);
      } else {
        OnlyTheStart(branch, TreeKeys(f), key, f.panel.key);
        PassTakesBranch(f.below, Some(f.panel.key), key, branch);
        PassTakesBranch(f.beside, from, key, branch + Under(f.below, key));
        assert branch + Under(f.below, key) + Under(f.beside, key) == branch + Under(f, key);
      }
    } else {
      assert branch + {} == branch;
    }
  }

  /** The part of a branch that lies in the forest is the start and its subtree. */
  ghost predicate HoldsBranch(f: Forest, key: Key, branch: set<Key>) {
    branch * TreeKeys(f) == if key in TreeKeys(f) then {key} + Under(f, key) else {}
  }

  lemma HoldsBranchBelow(f: Forest, key: Key, branch: set<Key>)
    requires f.Grow? && DistinctKeys(f) && f.panel.key != key && HoldsBranch(f, key, branch)
    ensures HoldsBranch(f.below, key, branch) && HoldsBranch(f.beside, key, branch) && f.panel.key !in branch
  {
    UnderIsWithin(f.below, key);
    UnderIsWithin(f.beside, key);
    assert f.panel.key in branch ==> f.panel.key in branch * TreeKeys(f);
    assert branch * TreeKeys(f.below) == (branch * TreeKeys(f)) * TreeKeys(f.below);
    assert branch * TreeKeys(f.beside) == (branch * TreeKeys(f)) * TreeKeys(f.beside);
  }

  lemma HoldsBranchHere(f: Forest, branch: set<Key>)
    requires f.Grow? && DistinctKeys(f) && HoldsBranch(f, f.panel.key, branch)
    ensures f.panel.key in branch && TreeKeys(f.below) <= branch && HoldsBranch(f.beside, f.panel.key, branch)
  {
    assert branch * TreeKeys(f) == {f.panel.key} + TreeKeys(f.below);
    assert forall k :: k in {f.panel.key} + TreeKeys(f.below) ==> k in branch * TreeKeys(f);
    assert branch * TreeKeys(f.beside) == (branch * TreeKeys(f)) * TreeKeys(f.beside);
  }

  /** Nothing joins what the first pass found: the second pass adds nothing. */
  lemma {:induction false} SubtreeIsClosed(f: Forest, from: Option<Key>, key: Key, branch: set<Key>)
    requires Links(f, from) && DistinctKeys(f) && HoldsBranch(f, key, branch)
    requires from.Some? ==> from.value !in branch
    ensures Pass(Flatten(f), branch) == branch
  {
    if f.Grow? {
      PassParts(f, branch);
      if f.panel.key == key {
        HoldsBranchHere(f, branch);
        PassTakesAll(f.below, key, branch);
        assert branch + TreeKeys(f.below) == branch;
      } else {
        HoldsBranchBelow(f, key, branch);
        SubtreeIsClosed(f.below, Some(f.panel.key), key, branch);
      }
      SubtreeIsClosed(f.beside, from, key, branch);
    }
  }

  /** In a list that shows a tree the first pass finds the whole branch, the
      second finds nothing more, and the branch is exactly the subtree. */
  lemma BranchIsSubtree(panels: seq<PanelRef>, f: Forest, key: Key)
    requires Shows(panels, f)
    ensures Pass(panels, {key}) == {key} + Under(f, key)
    ensures Pass(panels, Pass(panels, {key})) == Pass(panels, {key})
    ensures BranchOf(panels, key) == {key} + Under(f, key)
  {
    PassTakesBranch(f, None, key, {key});
    UnderIsWithin(f, key);
    var branch := {key} + Under(f, key);
    assert branch * TreeKeys(f) == if key in TreeKeys(f) then branch else {};
    SubtreeIsClosed(f, None, key, branch);
    assert Fixpoint(panels, branch) == branch;
  }
}
