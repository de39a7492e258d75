/** Every reachable state of the panel chain: the list shows a tree, Escape
    unwinds the opens one by one, and the focus stays on an open panel. */
module PanelRuns {
  import opened Outcomes
  import opened Lists
  import opened PanelChain
  import opened PanelTree

  /** Each key follows the panel it was opened from, which is the root or stands
      earlier in the list; no key is repeated and none is the root's. */
  ghost predicate SourcesFirst(order: seq<Key>, panels: seq<PanelRef>, root: Key) {
    order == [] ||
    var key, front := order[|order| - 1], order[..|order| - 1];
    && SourcesFirst(front, panels, root)
    && key != root && key !in front
    && forall p :: p in panels && p.key == key ==> p.from.Some? && (p.from.value == root || p.from.value in front)
  }

  ghost function OrderKeys(order: seq<Key>): set<Key> {
    set k | k in order
  }

  ghost predicate Resources(panels: seq<PanelRef>) {
    forall p :: p in panels ==> p.key == PanelKey(p.kind, p.id)
  }

  ghost predicate ChainInv(state: ChainState, f: Forest) {
    && Shows(state.panels, f)
    && Resources(state.panels)
    && SourcesFirst(state.openOrder, state.panels, f.panel.key)
    && OrderKeys(state.openOrder) == TreeKeys(f) - {f.panel.key}
    && (state.focus.Some? ==> state.focus.value.key in TreeKeys(f))
  }

  /** What each action does to the tree. */
  function TreeAfter(state: ChainState, f: Forest, action: ChainAction): Forest
    requires f.Grow?
  {
    match action
    case Open(kind, id, from) =>
      var key := PanelKey(kind, id);
      if PositionOf(state.panels, key) < |state.panels| then f
      else Insert(f, from, PanelRef(key, kind, id, Some(from)))
    case Close(key) => if key == f.panel.key then f else Prune(f, key)
    case CloseLast => if state.openOrder == [] then f else Prune(f, state.openOrder[|state.openOrder| - 1])
  }

  lemma IsOpen(panels: seq<PanelRef>, f: Forest, key: Key)
    requires Shows(panels, f)
    ensures PositionOf(panels, key) < |panels| <==> key in TreeKeys(f)
  {
    FlattenKeys(f);
    PositionInConcat(panels, [], key);
  }

  // ---- Open ------------------------------------------------------------------------

  lemma {:induction false} MorePanelsKeepOrder(order: seq<Key>, panels: seq<PanelRef>, more: seq<PanelRef>, root: Key)
    requires SourcesFirst(order, panels, root)
    requires forall p :: p in more && p.key in order ==> p in panels
    ensures SourcesFirst(order, more, root)
  {
    if order != [] {
      MorePanelsKeepOrder(order[..|order| - 1], panels, more, root);
      assert order[|order| - 1] in order;
    }
  }

  lemma InsertAfterMembers(panels: seq<PanelRef>, at: Key, panel: PanelRef)
    requires PositionOf(panels, at) < |panels|
    ensures forall p :: p in InsertAfter(panels, at, panel) <==> p in panels || p == panel
  {
    var i := PositionOf(panels, at);
    assert panels == panels[..i + 1] + panels[i + 1..];
  }

  lemma KeyOfMember(f: Forest, p: PanelRef)
    requires p in Flatten(f)
    ensures p.key in TreeKeys(f)
  {
    FlattenKeys(f);
    assert p.key in Keys(Flatten(f));
  }

  lemma OrderGrows(order: seq<Key>, panels: seq<PanelRef>, root: Key, key: Key)
    requires SourcesFirst(order, panels, root) && key != root && key !in order
    requires forall p :: p in panels && p.key == key ==> p.from.Some? && (p.from.value == root || p.from.value in order)
    ensures SourcesFirst(order + [key], panels, root)
    ensures OrderKeys(order + [key]) == OrderKeys(order) + {key}
  {
    assert (order + [key])[..|order|] == order;
  }

  lemma FreshOpenKeepsOrder(state: ChainState, f: Forest, panel: PanelRef, from: Key)
    requires ChainInv(state, f) && panel.key !in TreeKeys(f) && from in TreeKeys(f) && panel.from == Some(from)
    ensures SourcesFirst(state.openOrder + [panel.key], InsertAfter(state.panels, from, panel), f.panel.key)
    ensures OrderKeys(state.openOrder + [panel.key]) == OrderKeys(state.openOrder) + {panel.key}
  {
    var order, after := state.openOrder, InsertAfter(state.panels, from, panel);
    IsOpen(state.panels, f, from);
    InsertAfterMembers(state.panels, from, panel);
    KeyNotInOrder(state, f, panel.key);
    MorePanelsKeepOrder(order, state.panels, after, f.panel.key);
    forall p | p in state.panels ensures p.key != panel.key {
      KeyOfMember(f, p);
    }
    assert from != f.panel.key ==> from in OrderKeys(order);
    OrderGrows(order, after, f.panel.key, panel.key);
  }

  lemma FreshOpenKeepsTree(state: ChainState, f: Forest, panel: PanelRef, from: Key)
    requires ChainInv(state, f) && panel.key !in TreeKeys(f) && from in TreeKeys(f) && panel.from == Some(from)
    ensures Shows(InsertAfter(state.panels, from, panel), Insert(f, from, panel))
    ensures TreeKeys(Insert(f, from, panel)) == TreeKeys(f) + {panel.key}
    ensures Insert(f, from, panel).panel == f.panel
  {
    InsertIsInsertAfter(f, from, panel);
    InsertKeepsLinks(f, None, from, panel);
    InsertKeepsDistinct(f, from, panel);
  }

  lemma FreshOpenKeepsInv(state: ChainState, f: Forest, panel: PanelRef, from: Key, focus: Focus)
    requires ChainInv(state, f) && panel.key !in TreeKeys(f) && from in TreeKeys(f) && panel.from == Some(from)
    requires panel.key == PanelKey(panel.kind, panel.id) && focus.key == panel.key
    ensures ChainInv(ChainState(InsertAfter(state.panels, from, panel), state.openOrder + [panel.key], Some(focus)),
                     Insert(f, from, panel))
  {
    FreshOpenKeepsTree(state, f, panel, from);
    FreshOpenKeepsOrder(state, f, panel, from);
    assert Resources(InsertAfter(state.panels, from, panel)) by {
      IsOpen(state.panels, f, from);
      InsertAfterMembers(state.panels, from, panel);
    }
  }

  lemma OpenKeepsInv(state: ChainState, f: Forest, kind: PanelKind, id: string, from: Key)
    requires ChainInv(state, f)
    ensures ChainInv(AfterOpen(state, kind, id, from), TreeAfter(state, f, Open(kind, id, from)))
  {
    hide PanelKey;
    var key := PanelKey(kind, id);
    var panel := PanelRef(key, kind, id, Some(from));
    var next := AfterOpen(state, kind, id, from);
    IsOpen(state.panels, f, key);
    IsOpen(state.panels, f, from);
    if key in TreeKeys(f) {
    } else if from in TreeKeys(f) {
      FreshOpenKeepsInv(state, f, panel, from, next.focus.value);
      assert next.panels == InsertAfter(state.panels, from, panel);
    } else {
      AbsentInsertsNothing(f, from, panel);
    }
  }

  lemma KeyNotInOrder(state: ChainState, f: Forest, key: Key)
    requires ChainInv(state, f) && key !in TreeKeys(f)
    ensures key !in state.openOrder
  {
    assert key !in OrderKeys(state.openOrder);
  }

  // ---- Close -----------------------------------------------------------------------

  lemma KeysOutsideStay(part: seq<PanelRef>, branch: set<Key>)
    requires Keys(part) !! branch
    ensures Filter(Outside(branch), part) == part
  {
    forall p | p in part ensures Outside(branch)(p) {
      assert p.key in Keys(part);
    }
    FilterAll(Outside(branch), part);
  }

  lemma KeysInsideGo(part: seq<PanelRef>, branch: set<Key>)
    requires Keys(part) <= branch
    ensures Filter(Outside(branch), part) == []
  {
    FilterMembers(Outside(branch), part);
    forall i | 0 <= i < |part| ensures !Outside(branch)(part[i]) {
      assert part[i] in part && part[i].key in Keys(part);
    }
  }

  lemma UniqueSplit(a: seq<PanelRef>, b: seq<PanelRef>)
    requires Unique(a + b)
    ensures Keys(a) !! Keys(b)
  {
    forall p, q | p in a && q in b ensures p.key != q.key {
      var i :| 0 <= i < |a| && a[i] == p;
      var j :| 0 <= j < |b| && b[j] == q;
      assert (a + b)[i] == p && (a + b)[|a| + j] == q;
    }
  }

  lemma BlockStandsApart(before: seq<PanelRef>, block: seq<PanelRef>, after: seq<PanelRef>)
    requires Unique(before + block + after)
    ensures Keys(before) !! Keys(block) && Keys(block) !! Keys(after)
  {
    assert before + (block + after) == before + block + after;
    UniqueSplit(before, block + after);
    UniqueSplit(before + block, after);
    KeysConcat(block, after);
    KeysConcat(before, block);
  }

  lemma FilterCutsBlock(before: seq<PanelRef>, block: seq<PanelRef>, after: seq<PanelRef>, branch: set<Key>)
    requires Keys(before) !! branch && Keys(block) == branch && Keys(after) !! branch
    ensures Filter(Outside(branch), before + block + after) == before + after
  {
    FilterConcat(Outside(branch), before + block, after);
    FilterConcat(Outside(branch), before, block);
    KeysOutsideStay(before, branch);
    KeysInsideGo(block, branch);
    KeysOutsideStay(after, branch);
    assert before + [] == before;
  }

  /** Filtering the branch out of the list is pruning the tree. */
  lemma FilterIsPrune(panels: seq<PanelRef>, f: Forest, key: Key)
    requires Shows(panels, f)
    ensures Filter(Outside(BranchOf(panels, key)), panels) == Flatten(Prune(f, key))
  {
    BranchIsSubtree(panels, f, key);
    if key in TreeKeys(f) {
      var before, after := BranchIsBlock(f, key);
      BlockKeys(f, key);
      FlattenIsUnique(f);
      BlockStandsApart(before, Block(f, key), after);
      FilterCutsBlock(before, Block(f, key), after, BranchOf(panels, key));
    } else {
      FlattenKeys(f);
      UnderIsWithin(f, key);
      KeysOutsideStay(panels, BranchOf(panels, key));
    }
  }

  /** A filtered open order still puts sources first. */
  lemma {:induction false} FilterKeepsOrder(order: seq<Key>, panels: seq<PanelRef>, less: seq<PanelRef>, root: Key,
          branch: set<Key>)
    requires SourcesFirst(order, panels, root) && Closed(panels, branch)
    requires forall p :: p in less ==> p in panels
    ensures SourcesFirst(Filter(OutsideKey(branch), order), less, root)
  {
    if order != [] {
      var front, key := order[..|order| - 1], order[|order| - 1];
      assert order == front + [key];
      FilterConcat(OutsideKey(branch), front, [key]);
      FilterKeepsOrder(front, panels, less, root, branch);
      var kept := Filter(OutsideKey(branch), front);
      FilterMembers(OutsideKey(branch), front);
      if key !in branch {
        assert Filter(OutsideKey(branch), order) == kept + [key];
        assert (kept + [key])[..|kept|] == kept;
        forall p | p in less && p.key == key ensures p.from.Some? && (p.from.value == root || p.from.value in kept) {
          assert !Joins(p, branch);
        }
      } else {
        assert Filter(OutsideKey(branch), order) == kept;
      }
    }
  }

  /** The source of a panel is outside the panel's own branch. */
  lemma {:induction false} SourceIsOutside(f: Forest, from: Option<Key>, p: PanelRef)
    requires Links(f, from) && DistinctKeys(f) && p in Flatten(f)
    requires from.Some? ==> from.value !in TreeKeys(f)
    ensures p.from.Some? ==> p.from.value != p.key && p.from.value !in Under(f, p.key)
    ensures p.from != from ==> p.from.Some? && p.from.value in TreeKeys(f)
  {
    UnderIsWithin(f.below, p.key);
    UnderIsWithin(f.beside, p.key);
    UnderIsWithin(f, p.key);
    FlattenKeys(f.below);
    FlattenKeys(f.beside);
    if p != f.panel {
      if p in Flatten(f.below) {
        assert p.key in Keys(Flatten(f.below));
        SourceIsOutside(f.below, Some(f.panel.key), p);
      } else {
        assert p in Flatten(f.beside);
        assert p.key in Keys(Flatten(f.beside));
        SourceIsOutside(f.beside, from, p);
      }
    }
  }

  /** The panel a close looks up, and where it came from. */
  lemma SourceOfClosed(state: ChainState, f: Forest, key: Key)
    requires ChainInv(state, f) && key in TreeKeys(f) && key != f.panel.key
    ensures var at := PositionOf(state.panels, key);
            && at < |state.panels|
            && state.panels[at].from.Some?
            && state.panels[at].from.value in TreeKeys(f) - {key} - Under(f, key)
            && state.panels[at].from.value != ""
  {
    IsOpen(state.panels, f, key);
    var p := state.panels[PositionOf(state.panels, key)];
    SourceIsOutside(f, None, p);
    FlattenKeys(f);
    OnlyRootHasNoSource(f, None, p);
    assert p.from.value in Keys(state.panels);
    var q :| q in state.panels && q.key == p.from.value;
    PanelKeyIsInjective(q.kind, q.id, q.kind, q.id);
  }

  lemma {:induction false} OnlyRootHasNoSource(f: Forest, from: Option<Key>, p: PanelRef)
    requires Links(f, from) && p in Flatten(f) && (from.Some? || (f.Grow? && f.beside.Nothing?))
    ensures p.from.None? ==> f.Grow? && from.None? && p == f.panel
  {
    if p != f.panel {
      if p in Flatten(f.below) {
        OnlyRootHasNoSource(f.below, Some(f.panel.key), p);
      } else {
        assert p in Flatten(f.beside);
        OnlyRootHasNoSource(f.beside, from, p);
      }
    }
  }

  lemma CloseKeepsOrder(state: ChainState, f: Forest, key: Key)
    requires ChainInv(state, f)
    ensures var branch := BranchOf(state.panels, key);
            var panels, order := Filter(Outside(branch), state.panels), Filter(OutsideKey(branch), state.openOrder);
            && SourcesFirst(order, panels, f.panel.key)
            && OrderKeys(order) == OrderKeys(state.openOrder) - branch
            && Resources(panels)
  {
    var branch := BranchOf(state.panels, key);
    BranchIsLeast(state.panels, key);
    FilterMembers(Outside(branch), state.panels);
    FilterMembers(OutsideKey(branch), state.openOrder);
    FilterKeepsOrder(state.openOrder, state.panels, Filter(Outside(branch), state.panels), f.panel.key, branch);
  }

  lemma CloseKeepsTree(state: ChainState, f: Forest, key: Key)
    requires ChainInv(state, f) && key != f.panel.key
    ensures Shows(Filter(Outside(BranchOf(state.panels, key)), state.panels), Prune(f, key))
    ensures TreeKeys(Prune(f, key)) == TreeKeys(f) - BranchOf(state.panels, key)
    ensures Prune(f, key).panel == f.panel && f.panel.key !in BranchOf(state.panels, key)
  {
    FilterIsPrune(state.panels, f, key);
    BranchIsSubtree(state.panels, f, key);
    PruneKeepsLinks(f, None, key);
    PruneKeepsDistinct(f, key);
    UnderIsWithin(f.below, key);
  }

  lemma CloseKeepsFocus(state: ChainState, f: Forest, key: Key)
    requires ChainInv(state, f) && key != f.panel.key && state.focus.Some?
    ensures var focus := AfterClose(state, key).focus;
            && focus.Some? && state.focus.value.seqNo <= focus.value.seqNo
            && focus.value.key in TreeKeys(f) - BranchOf(state.panels, key)
  {
    assert state.panels[0] == f.panel;
    BranchIsSubtree(state.panels, f, key);
    UnderIsWithin(f, key);
    if state.focus.value.key in BranchOf(state.panels, key) {
      SourceOfClosed(state, f, key);
    }
  }

  lemma CloseKeepsInv(state: ChainState, f: Forest, key: Key)
    requires ChainInv(state, f)
    ensures ChainInv(AfterClose(state, key), TreeAfter(state, f, Close(key)))
    ensures state.focus.Some? ==>
              AfterClose(state, key).focus.Some? && state.focus.value.seqNo <= AfterClose(state, key).focus.value.seqNo
  {
    assert state.panels[0] == f.panel;
    if key != f.panel.key {
      CloseKeepsTree(state, f, key);
      CloseKeepsOrder(state, f, key);
      if state.focus.Some? {
        CloseKeepsFocus(state, f, key);
      }
    }
  }

  // ---- Escape ----------------------------------------------------------------------

  /** Nothing was opened from the panel opened last. */
  lemma {:induction false} NothingOpenedFromLater(order: seq<Key>, panels: seq<PanelRef>, root: Key, later: Key,
          p: PanelRef)
    requires SourcesFirst(order, panels, root) && later !in order && later != root
    requires p in panels && p.key in order
    ensures p.from != Some(later)
  {
    var front := order[..|order| - 1];
    if p.key in front {
      NothingOpenedFromLater(front, panels, root, later, p);
    } else {
      assert p.key == order[|order| - 1];
    }
  }

  lemma LastIsLeaf(state: ChainState, f: Forest)
    requires ChainInv(state, f) && state.openOrder != []
    ensures var last := state.openOrder[|state.openOrder| - 1];
            && last in TreeKeys(f) && last != f.panel.key && last != ""
            && BranchOf(state.panels, last) == {last} && Under(f, last) == {}
  {
    var n := |state.openOrder| - 1;
    var last, front := state.openOrder[n], state.openOrder[..n];
    assert last in OrderKeys(state.openOrder);
    forall p | p in state.panels ensures !Joins(p, {last}) {
      LastIsNoSource(state, f, p);
    }
    PassGrows(state.panels, {last});
    BranchIsSubtree(state.panels, f, last);
    PruneKeepsDistinct(f, last);
    assert Under(f, last) <= {last};
    FlattenKeys(f);
    var q :| q in state.panels && q.key == last;
    PanelKeyIsInjective(q.kind, q.id, q.kind, q.id);
  }

  lemma LastIsNoSource(state: ChainState, f: Forest, p: PanelRef)
    requires ChainInv(state, f) && state.openOrder != [] && p in state.panels
    ensures p.from == Some(state.openOrder[|state.openOrder| - 1]) ==> p.key == state.openOrder[|state.openOrder| - 1]
  {
    var n := |state.openOrder| - 1;
    var last, front := state.openOrder[n], state.openOrder[..n];
    assert SourcesFirst(front, state.panels, f.panel.key) && last !in front && last != f.panel.key;
    hide SourcesFirst, OrderKeys, DistinctKeys, Links;
    KeyOfMember(f, p);
    InFrontOrLast(state.openOrder, p.key);
    if p.key in front {
      NothingOpenedFromLater(front, state.panels, f.panel.key, last, p);
    } else if p.key != last {
      RootHasNoSource(f, p);
    }
  }

  lemma InFrontOrLast(order: seq<Key>, key: Key)
    requires order != []
    ensures key in OrderKeys(order) <==> key in order[..|order| - 1] || key == order[|order| - 1]
  {
    assert order == order[..|order| - 1] + [order[|order| - 1]];
  }

  lemma RootHasNoSource(f: Forest, p: PanelRef)
    requires f.Grow? && Links(f, None) && DistinctKeys(f) && p in Flatten(f) && p.key == f.panel.key
    ensures p == f.panel && p.from.None?
  {
    if p in Flatten(f.below) {
      KeyOfMember(f.below, p);
    } else if p in Flatten(f.beside) {
      KeyOfMember(f.beside, p);
    }
  }

  lemma StepKeepsInv(state: ChainState, f: Forest, action: ChainAction)
    requires ChainInv(state, f)
    ensures ChainInv(ChainReducer(state, action), TreeAfter(state, f, action))
    ensures state.focus.Some? ==>
              && ChainReducer(state, action).focus.Some?
              && state.focus.value.seqNo <= ChainReducer(state, action).focus.value.seqNo
  {
    match action
    case Open(kind, id, from) => OpenKeepsInv(state, f, kind, id, from);
    case Close(key) => CloseKeepsInv(state, f, key);
    case CloseLast =>
      if state.openOrder != [] {
        LastIsLeaf(state, f);
        CloseKeepsInv(state, f, state.openOrder[|state.openOrder| - 1]);
      }
  }

  // ---- What each action shows ------------------------------------------------------

  /** The key of the panel that `key` hangs under in the tree. */
  ghost function Parent(f: Forest, above: Option<Key>, key: Key): Option<Key> {
    match f
    case Nothing => None
    case Grow(p, below, beside) =>
      if p.key == key then above
      else if key in TreeKeys(below) then Parent(below, Some(p.key), key)
      else Parent(beside, above, key)
  }

  lemma {:induction false} SourceIsParent(f: Forest, above: Option<Key>, p: PanelRef)
    requires Links(f, above) && DistinctKeys(f) && p in Flatten(f)
    ensures p.from == Parent(f, above, p.key)
  {
    FlattenKeys(f.below);
    FlattenKeys(f.beside);
    if p != f.panel {
      if p in Flatten(f.below) {
        assert p.key in Keys(Flatten(f.below));
        SourceIsParent(f.below, Some(f.panel.key), p);
      } else {
        assert p in Flatten(f.beside);
        assert p.key in Keys(Flatten(f.beside));
        SourceIsParent(f.beside, above, p);
      }
    }
  }

  /** Where a close of `key` leaves the focus. */
  ghost predicate MovesFocus(f: Forest, s: ChainState, t: ChainState, key: Key)
    requires f.Grow?
  {
    if key == f.panel.key || key !in TreeKeys(f) then t == s
    else
      Parent(f, None, key).Some?
      && t.focus ==
         if s.focus.Some? && s.focus.value.key in {key} + Under(f, key)
         then Some(Focus(Parent(f, None, key).value, s.focus.value.seqNo + 1))
         else s.focus
  }

  /** A close whose branch has the focus hands it to the panel the closed one hangs
      under and counts one up; any other close leaves the focus, and a close of the
      root or of a panel that is not open leaves everything. */
  lemma CloseFocuses(state: ChainState, f: Forest, key: Key)
    requires ChainInv(state, f)
    ensures MovesFocus(f, state, ChainReducer(state, Close(key)), key)
  {
    assert state.panels[0] == f.panel;
    BranchIsSubtree(state.panels, f, key);
    if key !in TreeKeys(f) {
      UnderIsWithin(f, key);
      FilterIsPrune(state.panels, f, key);
      KeyNotInOrder(state, f, key);
      FilterAll(OutsideKey({key}), state.openOrder);
    } else if key != f.panel.key {
      SourceOfClosed(state, f, key);
      SourceIsParent(f, None, state.panels[PositionOf(state.panels, key)]);
    }
  }

  /** An open of a resource that is not there puts it right behind the panel it was
      opened from, and last in the open order; one that is there, or from a panel
      that is not, changes neither. The key it asks for gets the focus, one up. */
  lemma OpenShows(state: ChainState, f: Forest, kind: PanelKind, id: string, from: Key)
    requires ChainInv(state, f)
    ensures var key := PanelKey(kind, id);
            var next := ChainReducer(state, Open(kind, id, from));
            var seqNo := if state.focus.Some? then state.focus.value.seqNo + 1 else 1;
            if key in TreeKeys(f) then next == ChainState(state.panels, state.openOrder, Some(Focus(key, seqNo)))
            else if from !in TreeKeys(f) then next == state
            else
              && next.focus == Some(Focus(key, seqNo)) && next.openOrder == state.openOrder + [key]
              && exists i :: 0 <= i < |state.panels| && state.panels[i].key == from
                   && next.panels
                      == state.panels[..i + 1] + [PanelRef(key, kind, id, Some(from))] + state.panels[i + 1..]
  {
    hide PanelKey;
    IsOpen(state.panels, f, PanelKey(kind, id));
    IsOpen(state.panels, f, from);
  }

  // ---- Runs --------------------------------------------------------------------------

  function Run(state: ChainState, actions: seq<ChainAction>): ChainState
    decreases |actions|
  {
    if actions == [] then state else Run(ChainReducer(state, actions[0]), actions[1..])
  }

  ghost function TreeRun(state: ChainState, f: Forest, actions: seq<ChainAction>): Forest
    requires ChainInv(state, f)
    decreases |actions|
  {
    if actions == [] then f
    else
      StepKeepsInv(state, f, actions[0]);
      TreeRun(ChainReducer(state, actions[0]), TreeAfter(state, f, actions[0]), actions[1..])
  }

  lemma {:induction false} RunKeepsInv(state: ChainState, f: Forest, actions: seq<ChainAction>)
    requires ChainInv(state, f)
    ensures ChainInv(Run(state, actions), TreeRun(state, f, actions))
    ensures state.focus.Some? ==>
              Run(state, actions).focus.Some? && state.focus.value.seqNo <= Run(state, actions).focus.value.seqNo
    decreases |actions|
  {
    if actions != [] {
      StepKeepsInv(state, f, actions[0]);
      RunKeepsInv(ChainReducer(state, actions[0]), TreeAfter(state, f, actions[0]), actions[1..]);
    }
  }

  lemma InitialInv(kind: PanelKind, id: string)
    ensures ChainInv(InitialChain(kind, id), Grow(InitialChain(kind, id).panels[0], Nothing, Nothing))
  {
    var f := Grow(InitialChain(kind, id).panels[0], Nothing, Nothing);
    assert Flatten(f) == [f.panel];
    assert Links(Nothing, Some(f.panel.key)) && Links(Nothing, None) && DistinctKeys(Nothing);
    assert TreeKeys(Nothing) == {} && TreeKeys(f) == {f.panel.key};
  }

  lemma TreeKeepsRoot(state: ChainState, f: Forest, action: ChainAction)
    requires ChainInv(state, f)
    ensures TreeAfter(state, f, action).Grow? && TreeAfter(state, f, action).panel == f.panel
  {
    if action.CloseLast? && state.openOrder != [] {
      LastIsLeaf(state, f);
    }
  }

  lemma {:induction false} RunKeepsRoot(state: ChainState, f: Forest, actions: seq<ChainAction>)
    requires ChainInv(state, f)
    ensures TreeRun(state, f, actions).Grow? && TreeRun(state, f, actions).panel == f.panel
    decreases |actions|
  {
    if actions != [] {
      StepKeepsInv(state, f, actions[0]);
      TreeKeepsRoot(state, f, actions[0]);
      RunKeepsRoot(ChainReducer(state, actions[0]), TreeAfter(state, f, actions[0]), actions[1..]);
    }
  }

  /** Any sequence of actions from the root card leaves a list that is the
      preorder of a tree with that card as its root and first panel, and the open
      order, the keys and the focus match it. */
  lemma ReachableShowsTree(kind: PanelKind, id: string, actions: seq<ChainAction>) returns (f: Forest)
    ensures ChainInv(Run(InitialChain(kind, id), actions), f)
    ensures f.panel == PanelRef(PanelKey(kind, id), kind, id, None)
    ensures Run(InitialChain(kind, id), actions).panels[0] == f.panel
  {
    InitialInv(kind, id);
    var root := Grow(InitialChain(kind, id).panels[0], Nothing, Nothing);
    RunKeepsInv(InitialChain(kind, id), root, actions);
    RunKeepsRoot(InitialChain(kind, id), root, actions);
    f := TreeRun(InitialChain(kind, id), root, actions);
  }

  /** Once some panel has the focus, some open panel always has it. */
  lemma FocusStaysOnAPanel(kind: PanelKind, id: string, before: seq<ChainAction>, after: seq<ChainAction>)
    requires Run(InitialChain(kind, id), before).focus.Some?
    ensures var first := Run(InitialChain(kind, id), before); var s := Run(first, after);
            && s.focus.Some?
            && PositionOf(s.panels, s.focus.value.key) < |s.panels|
            && first.focus.value.seqNo <= s.focus.value.seqNo
  {
    var f := ReachableShowsTree(kind, id, before);
    var first := Run(InitialChain(kind, id), before);
    RunKeepsInv(first, f, after);
    IsOpen(Run(first, after).panels, TreeRun(first, f, after), Run(first, after).focus.value.key);
  }

  /** In every reachable state: the focus after an open is the key it asked for, and
      after a close that takes the focused panel the panel the closed one was opened
      from, each time one up; a close elsewhere leaves it, and Escape is a close. */
  lemma FocusFollows(kind: PanelKind, id: string, actions: seq<ChainAction>, action: ChainAction) returns (f: Forest)
    ensures var s := Run(InitialChain(kind, id), actions); var t := ChainReducer(s, action);
            && Shows(s.panels, f)
            && match action
               case Open(k, i, from) =>
                 if PanelKey(k, i) in TreeKeys(f) || from in TreeKeys(f)
                 then t.focus == Some(Focus(PanelKey(k, i), if s.focus.Some? then s.focus.value.seqNo + 1 else 1))
                 else t == s
               case Close(key) => MovesFocus(f, s, t, key)
               case CloseLast =>
                 if s.openOrder == [] then t == s else MovesFocus(f, s, t, s.openOrder[|s.openOrder| - 1])
  {
    f := ReachableShowsTree(kind, id, actions);
    var s := Run(InitialChain(kind, id), actions);
    match action {
      case Open(k, i, from) => OpenShows(s, f, k, i, from);
      case Close(key) => CloseFocuses(s, f, key);
      case CloseLast =>
        if s.openOrder != [] {
          LastIsLeaf(s, f);
          CloseFocuses(s, f, s.openOrder[|s.openOrder| - 1]);
        }
    }
  }

  /** In preorder each source stands strictly left of what it opened. */
  lemma {:induction false} SourceStandsLeft(f: Forest, from: Option<Key>, j: nat) returns (i: nat)
    requires Links(f, from) && j < |Flatten(f)| && Flatten(f)[j].from != from
    ensures i < j && Flatten(f)[j].from == Some(Flatten(f)[i].key)
  {
    var b, r := Flatten(f.below), Flatten(f.beside);
    if j <= |b| {
      if b[j - 1].from == Some(f.panel.key) {
        i := 0;
      } else {
        i := SourceStandsLeft(f.below, Some(f.panel.key), j - 1);
        i := i + 1;
      }
    } else {
      i := SourceStandsLeft(f.beside, from, j - 1 - |b|);
      i := i + 1 + |b|;
    }
  }

  lemma HeadOfConcat(before: seq<PanelRef>, block: seq<PanelRef>, after: seq<PanelRef>)
    requires block != []
    ensures before == [] ==> (before + block + after)[0] == block[0]
  {
  }

  /** A close takes out one contiguous block: the panel and all opened from it. */
  lemma CloseCutsOneBlock(state: ChainState, f: Forest, key: Key) returns (i: nat, j: nat)
    requires ChainInv(state, f) && key in TreeKeys(f) && key != f.panel.key
    ensures 0 < i < j <= |state.panels| && state.panels[i].key == key
    ensures Keys(state.panels[i..j]) == BranchOf(state.panels, key)
    ensures AfterClose(state, key).panels == state.panels[..i] + state.panels[j..]
  {
    var before, after := BranchIsBlock(f, key);
    var block := Block(f, key);
    BlockKeys(f, key);
    BranchIsSubtree(state.panels, f, key);
    FilterIsPrune(state.panels, f, key);
    i, j := |before|, |before| + |block|;
    assert state.panels == before + block + after;
    assert state.panels[0] == f.panel;
    HeadOfConcat(before, block, after);
    assert state.panels[..i] == before && state.panels[i..j] == block && state.panels[j..] == after;
    assert state.panels[i] == block[0];
  }

  // ---- Escape unwinds the opens ------------------------------------------------------

  lemma {:induction false} OrderIsDistinct(order: seq<Key>, panels: seq<PanelRef>, root: Key)
    requires SourcesFirst(order, panels, root)
    ensures |OrderKeys(order)| == |order| && root !in order
  {
    if order != [] {
      var n := |order| - 1;
      OrderIsDistinct(order[..n], panels, root);
      assert order == order[..n] + [order[n]];
      assert OrderKeys(order) == OrderKeys(order[..n]) + {order[n]};
    }
  }

  lemma {:induction false} UniqueSize(panels: seq<PanelRef>)
    requires Unique(panels)
    ensures |Keys(panels)| == |panels|
  {
    if panels != [] {
      UniqueSize(panels[1..]);
      assert panels == [panels[0]] + panels[1..];
      KeysConcat([panels[0]], panels[1..]);
      assert panels[0].key !in Keys(panels[1..]);
      assert Keys([panels[0]]) == {panels[0].key};
    }
  }

  lemma PanelsAreKeys(panels: seq<PanelRef>, f: Forest)
    requires Shows(panels, f)
    ensures |panels| == |TreeKeys(f)|
  {
    FlattenIsUnique(f);
    UniqueSize(panels);
    FlattenKeys(f);
  }

  lemma OneMoreKey(keys: set<Key>, rest: set<Key>, key: Key)
    requires key in keys && rest == keys - {key}
    ensures |keys| == |rest| + 1
  {
    assert keys == rest + {key};
  }

  /** One more panel than opens to unwind. */
  lemma PanelsAndOrder(state: ChainState, f: Forest)
    requires ChainInv(state, f)
    ensures |state.panels| == |state.openOrder| + 1
  {
    OrderIsDistinct(state.openOrder, state.panels, f.panel.key);
    PanelsAreKeys(state.panels, f);
    OneMoreKey(TreeKeys(f), OrderKeys(state.openOrder), f.panel.key);
  }

  lemma FilterDropsLast(front: seq<Key>, last: Key)
    requires last !in front
    ensures Filter(OutsideKey({last}), front + [last]) == front
  {
    FilterConcat(OutsideKey({last}), front, [last]);
    FilterAll(OutsideKey({last}), front);
    assert front + [] == front;
  }

  /** Escape is a filter that drops the key opened last. */
  lemma EscapeShape(state: ChainState, f: Forest)
    requires ChainInv(state, f) && state.openOrder != []
    ensures var n := |state.openOrder| - 1; var s := ChainReducer(state, CloseLast);
            && s.openOrder == state.openOrder[..n]
            && s.panels == Filter(Outside({state.openOrder[n]}), state.panels)
  {
    var n := |state.openOrder| - 1;
    LastIsLeaf(state, f);
    assert state.panels[0] == f.panel;
    assert state.openOrder == state.openOrder[..n] + [state.openOrder[n]];
    FilterDropsLast(state.openOrder[..n], state.openOrder[n]);
  }

  /** Escape closes exactly one panel, the one opened last. */
  lemma EscapeClosesOne(state: ChainState, f: Forest)
    requires ChainInv(state, f) && state.openOrder != []
    ensures var n := |state.openOrder| - 1; var s := ChainReducer(state, CloseLast);
            && s.openOrder == state.openOrder[..n]
            && s.panels == Filter(Outside({state.openOrder[n]}), state.panels)
            && |s.panels| == |state.panels| - 1
  {
    EscapeShape(state, f);
    StepKeepsInv(state, f, CloseLast);
    PanelsAndOrder(state, f);
    PanelsAndOrder(ChainReducer(state, CloseLast), TreeAfter(state, f, CloseLast));
  }

  ghost predicate FreshOpen(state: ChainState, key: Key, from: Key) {
    PositionOf(state.panels, key) == |state.panels| && PositionOf(state.panels, from) < |state.panels|
  }

  lemma FilterUndoesOpen(state: ChainState, f: Forest, kind: PanelKind, id: string, from: Key)
    requires Shows(state.panels, f) && FreshOpen(state, PanelKey(kind, id), from)
    ensures Filter(Outside({PanelKey(kind, id)}), AfterOpen(state, kind, id, from).panels) == state.panels
  {
    var key := PanelKey(kind, id);
    var at := PositionOf(state.panels, from);
    IsOpen(state.panels, f, key);
    FlattenKeys(f);
    assert state.panels == state.panels[..at + 1] + state.panels[at + 1..];
    FilterUndoesInsert(state.panels[..at + 1], PanelRef(key, kind, id, Some(from)), state.panels[at + 1..]);
  }

  /** Escape right after a fresh open brings back panels and open order. */
  lemma EscapeUndoesOpen(state: ChainState, f: Forest, kind: PanelKind, id: string, from: Key)
    requires ChainInv(state, f) && FreshOpen(state, PanelKey(kind, id), from)
    ensures var s := ChainReducer(AfterOpen(state, kind, id, from), CloseLast);
            s.panels == state.panels && s.openOrder == state.openOrder
  {
    OpenKeepsInv(state, f, kind, id, from);
    FilterUndoesOpen(state, f, kind, id, from);
    assert AfterOpen(state, kind, id, from).openOrder == state.openOrder + [PanelKey(kind, id)];
    EscapeShape(AfterOpen(state, kind, id, from), TreeAfter(state, f, Open(kind, id, from)));
  }

  lemma FilterUndoesInsert(a: seq<PanelRef>, panel: PanelRef, b: seq<PanelRef>)
    requires panel.key !in Keys(a + b)
    ensures Filter(Outside({panel.key}), a + [panel] + b) == a + b
  {
    KeysConcat(a, b);
    assert Keys([panel]) == {panel.key};
    FilterCutsBlock(a, [panel], b, {panel.key});
  }

  function Escapes(n: nat): seq<ChainAction> {
    seq(n, _ => CloseLast)
  }

  /** Pressing Escape once per open panel leaves the root card alone. */
  lemma {:induction false} EscapesReachTheRoot(state: ChainState, f: Forest)
    requires ChainInv(state, f)
    ensures Run(state, Escapes(|state.openOrder|)).panels == [f.panel]
    ensures Run(state, Escapes(|state.openOrder|)).openOrder == []
    decreases |state.openOrder|
  {
    if state.openOrder == [] {
      PanelsAndOrder(state, f);
      assert state.panels == [f.panel];
    } else {
      var n := |state.openOrder|;
      EscapeClosesOne(state, f);
      StepKeepsInv(state, f, CloseLast);
      LastIsLeaf(state, f);
      assert TreeAfter(state, f, CloseLast).panel == f.panel;
      EscapesReachTheRoot(ChainReducer(state, CloseLast), TreeAfter(state, f, CloseLast));
      assert Escapes(n)[0] == CloseLast && Escapes(n)[1..] == Escapes(n - 1);
    }
  }
}
