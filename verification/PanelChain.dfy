/** The panel chain reducer of apps/web/lib/panel-chain.ts. */
module PanelChain {
  import opened Outcomes
  import opened Lists

  datatype PanelKind = Memory | Card | Entity

  type Key = string

  datatype PanelRef = PanelRef(key: Key, kind: PanelKind, id: string, from: Option<Key>)

  datatype Focus = Focus(key: Key, seqNo: nat)

  datatype ChainState = ChainState(panels: seq<PanelRef>, openOrder: seq<Key>, focus: Option<Focus>)

  datatype ChainAction =
    | Open(kind: PanelKind, id: string, from: Key)
    | Close(key: Key)
    | CloseLast

  function KindName(kind: PanelKind): string {
    match kind
    case Memory => "memory"
    case Card => "card"
    case Entity => "entity"
  }

  function PanelKey(kind: PanelKind, id: string): Key {
    KindName(kind) + ":" + id
  }

  /** The names the links of the page carry. */
  lemma PanelKeyIs(id: string)
    ensures PanelKey(Memory, id) == "memory:" + id && PanelKey(Card, id) == "card:" + id
    ensures PanelKey(Entity, id) == "entity:" + id
  {
    assert "memory" + ":" == "memory:" && "card" + ":" == "card:" && "entity" + ":" == "entity:";
  }

  /** The key is the resource: no two resources share one, and none is empty. */
  lemma PanelKeyIsInjective(kind: PanelKind, id: string, kind': PanelKind, id': string)
    ensures PanelKey(kind, id) != ""
    ensures PanelKey(kind, id) == PanelKey(kind', id') ==> kind == kind' && id == id'
  {
    var a, b := PanelKey(kind, id), PanelKey(kind', id');
    assert a[|KindName(kind)|..] == ":" + id && b[|KindName(kind')|..] == ":" + id';
    if a == b {
      assert a[0] == KindName(kind)[0] && b[0] == KindName(kind')[0];
      assert kind == kind';
      assert (":" + id)[1..] == id && (":" + id')[1..] == id';
    }
  }

  function InitialChain(kind: PanelKind, id: string): ChainState {
    ChainState([PanelRef(PanelKey(kind, id), kind, id, None)], [], None)
  }

  // ---- The branch of a panel -------------------------------------------------

  predicate Joins(panel: PanelRef, branch: set<Key>) {
    panel.from.Some? && panel.from.value in branch && panel.key !in branch
  }

  /** One pass of the `for` loop; a panel joins as soon as its source is in. */
  function Pass(panels: seq<PanelRef>, branch: set<Key>): set<Key> {
    if panels == [] then branch
    else Pass(panels[1..], if Joins(panels[0], branch) then branch + {panels[0].key} else branch)
  }

  ghost function Keys(panels: seq<PanelRef>): set<Key> {
    set p | p in panels :: p.key
  }

  ghost predicate Closed(panels: seq<PanelRef>, branch: set<Key>) {
    forall p :: p in panels ==> !Joins(p, branch)
  }

  lemma {:induction false} PassGrows(panels: seq<PanelRef>, branch: set<Key>)
    ensures branch <= Pass(panels, branch) <= branch + Keys(panels)
    ensures Pass(panels, branch) == branch <==> Closed(panels, branch)
  {
    if panels != [] {
      var next := if Joins(panels[0], branch) then branch + {panels[0].key} else branch;
      PassGrows(panels[1..], next);
      assert panels[0].key in Keys(panels) && Keys(panels[1..]) <= Keys(panels);
      assert Closed(panels, branch) <==> !Joins(panels[0], branch) && Closed(panels[1..], branch);
    }
  }

  lemma {:induction false} PassStaysBelow(panels: seq<PanelRef>, branch: set<Key>, closed: set<Key>)
    requires branch <= closed && Closed(panels, closed)
    ensures Pass(panels, branch) <= closed
  {
    if panels != [] {
      assert !Joins(panels[0], closed);
      PassStaysBelow(panels[1..], if Joins(panels[0], branch) then branch + {panels[0].key} else branch, closed);
    }
  }

  /** Passes until one adds nothing. */
  function Fixpoint(panels: seq<PanelRef>, branch: set<Key>): set<Key>
    decreases |Keys(panels) - branch|
  {
    var next := Pass(panels, branch);
    PassGrows(panels, branch);
    if next == branch then branch
    else
      assert Keys(panels) - next < Keys(panels) - branch;
      SmallerSet(Keys(panels) - next, Keys(panels) - branch);
      Fixpoint(panels, next)
  }

  lemma SmallerSet(a: set<Key>, b: set<Key>)
    requires a < b
    ensures |a| < |b|
  {
    assert b == a + (b - a);
  }

  function BranchOf(panels: seq<PanelRef>, key: Key): set<Key> {
    Fixpoint(panels, {key})
  }

  /** For any panel list whatever: the least set that holds the start and, with
      a source, everything opened from it. */
  lemma {:induction false} FixpointIsLeast(panels: seq<PanelRef>, branch: set<Key>)
    ensures branch <= Fixpoint(panels, branch) && Closed(panels, Fixpoint(panels, branch))
    ensures forall closed: set<Key> :: branch <= closed && Closed(panels, closed) ==> Fixpoint(panels, branch) <= closed
    decreases |Keys(panels) - branch|
  {
    var next := Pass(panels, branch);
    PassGrows(panels, branch);
    if next != branch {
      SmallerSet(Keys(panels) - next, Keys(panels) - branch);
      FixpointIsLeast(panels, next);
      forall closed: set<Key> | branch <= closed && Closed(panels, closed) ensures Fixpoint(panels, branch) <= closed {
        PassStaysBelow(panels, branch, closed);
      }
    }
  }

  /** The inner loop. */
  method OnePass(panels: seq<PanelRef>, start: set<Key>) returns (branch: set<Key>, grew: bool)
    ensures branch == Pass(panels, start)
    ensures start <= branch && (grew <==> branch != start)
  {
    branch, grew := start, false;
    for i := 0 to |panels|
      invariant Pass(panels[i..], branch) == Pass(panels, start)
      invariant start <= branch && (grew <==> branch != start)
    {
      var panel := panels[i];
      assert panels[i..][1..] == panels[i + 1..];
      if panel.from.Some? && panel.from.value in branch && panel.key !in branch {
        branch := branch + {panel.key};
        grew := true;
      }
    }
  }

  lemma PassProgress(panels: seq<PanelRef>, start: set<Key>)
    ensures Pass(panels, start) != start ==> |Keys(panels) - Pass(panels, start)| < |Keys(panels) - start|
  {
    PassGrows(panels, start);
    if Pass(panels, start) != start {
      SmallerSet(Keys(panels) - Pass(panels, start), Keys(panels) - start);
    }
  }

  /** The source's loops: a set grown in passes until a pass adds nothing. */
  method FindBranch(panels: seq<PanelRef>, key: Key) returns (branch: set<Key>)
    ensures branch == BranchOf(panels, key)
    ensures key in branch && Closed(panels, branch)
    ensures forall closed: set<Key> :: key in closed && Closed(panels, closed) ==> branch <= closed
  {
    branch := {key};
    var grew := true;
    while grew
      invariant Fixpoint(panels, branch) == BranchOf(panels, key)
      invariant !grew ==> Fixpoint(panels, branch) == branch
      decreases grew, |Keys(panels) - branch|
    {
      PassProgress(panels, branch);
      branch, grew := OnePass(panels, branch);
    }
    BranchIsLeast(panels, key);
  }

  lemma BranchIsLeast(panels: seq<PanelRef>, key: Key)
    ensures key in BranchOf(panels, key) && Closed(panels, BranchOf(panels, key))
    ensures forall closed: set<Key> :: key in closed && Closed(panels, closed) ==> BranchOf(panels, key) <= closed
  {
    FixpointIsLeast(panels, {key});
    forall closed: set<Key> | key in closed && Closed(panels, closed) ensures BranchOf(panels, key) <= closed {
      assert {key} <= closed;
    }
  }

  // ---- The reducer ---------------------------------------------------------------

  /** `findIndex`: the first panel with the key, or the number of panels. */
  function PositionOf(panels: seq<PanelRef>, key: Key): (i: nat)
    ensures i <= |panels|
    ensures i < |panels| ==> panels[i].key == key
  {
    if panels == [] || panels[0].key == key then 0 else 1 + PositionOf(panels[1..], key)
  }

  function Outside(branch: set<Key>): PanelRef -> bool {
    (p: PanelRef) => p.key !in branch
  }

  function OutsideKey(branch: set<Key>): Key -> bool {
    (k: Key) => k !in branch
  }

  function AfterOpen(state: ChainState, kind: PanelKind, id: string, from: Key): ChainState {
    var key := PanelKey(kind, id);
    var seqNo := (if state.focus.Some? then state.focus.value.seqNo else 0) + 1;
    var at := PositionOf(state.panels, from);
    if PositionOf(state.panels, key) < |state.panels| then state.(focus := Some(Focus(key, seqNo)))
    else if at == |state.panels| then state
    else
      ChainState(
        state.panels[..at + 1] + [PanelRef(key, kind, id, Some(from))] + state.panels[at + 1..],
        state.openOrder + [key],
        Some(Focus(key, seqNo)))
  }

  function AfterClose(state: ChainState, key: Key): ChainState {
    if state.panels != [] && state.panels[0].key == key then state
    else
      var branch := BranchOf(state.panels, key);
      var at := PositionOf(state.panels, key);
      var source := if at < |state.panels| then state.panels[at].from else None;
      var focus :=
        if state.focus.Some? && state.focus.value.key in branch then
          // `closed?.from ? … : null`: an empty string counts as no source.
          if source.Some? && source.value != "" then Some(Focus(source.value, state.focus.value.seqNo + 1)) else None
        else state.focus;
      ChainState(Filter(Outside(branch), state.panels), Filter(OutsideKey(branch), state.openOrder), focus)
  }

  function ChainReducer(state: ChainState, action: ChainAction): ChainState {
    match action
    case Open(kind, id, from) => AfterOpen(state, kind, id, from)
    case Close(key) => AfterClose(state, key)
    case CloseLast =>
      if state.openOrder == [] || state.openOrder[|state.openOrder| - 1] == "" then state
      else AfterClose(state, state.openOrder[|state.openOrder| - 1])
  }
}
