/**
  Moving an entity to a new parent in the studio's scene tree
  (apps/client/src/studio/actions/MoveEntityAction.ts).

  The studio store keeps the tree as a record from entity id to an entry holding the id of the
  entry's parent (or null) and the ids of its children in order. The action removes the entity
  from its old parent's children, sets its parent, and inserts it into the new parent's
  children, at the end or at a given index. A lookup that finds nothing makes the action throw,
  after whatever it had already changed. When the store holds an engine, the move is passed on
  to the render thread; those requests are the log `moves`.
*/
module StudioTree {
  import opened Wrappers

  /** One entry of the tree record. */
  datatype TreeItem = TreeItem(parent: Option<string>, children: seq<string>)

  /** The lookups that throw: the entity itself, its old parent, its new parent. */
  datatype MoveError = EntityMissing | OldParentMissing | NewParentMissing

  /** The tree after a move, and the error the move ended with, if any. */
  datatype Outcome = Outcome(tree: map<string, TreeItem>, error: Option<MoveError>)

  /** A request to the render thread to move `entityId` under `parentId`. */
  datatype EngineMove = EngineMove(entityId: string, parentId: Option<string>)

  /** `s.filter((id) => id !== x)`: every occurrence of `x` removed, the rest kept in order. */
  function FilterOut(s: seq<string>, x: string): seq<string>
  {
    if s == [] then []
    else (if s[0] == x then [] else [s[0]]) + FilterOut(s[1..], x)
  }

  /** The filter keeps every other id as often as it occurs, drops every `x`, and changes
      nothing when there is no `x`. */
  lemma {:induction false} FilterOutContents(s: seq<string>, x: string)
    ensures multiset(FilterOut(s, x)) == multiset(s)[x := 0]
    ensures x !in FilterOut(s, x)
    ensures x !in s ==> FilterOut(s, x) == s
  {
    if s != [] {
      FilterOutContents(s[1..], x);
      assert s == [s[0]] + s[1..];
    }
  }

  /** The filter keeps the order: filtering a concatenation filters each part. */
  lemma {:induction false} FilterOutAppend(a: seq<string>, b: seq<string>, x: string)
    ensures FilterOut(a + b, x) == FilterOut(a, x) + FilterOut(b, x)
  {
    if a != [] {
      FilterOutAppend(a[1..], b, x);
      assert (a + b)[1..] == a[1..] + b;
    } else {
      assert a + b == b;
    }
  }

  /** Where `splice(index, 0, x)` inserts into a list of length `len`: a negative index counts
      from the end, and the position is clamped to the list. */
  function SpliceStart(index: int, len: nat): (k: nat)
    ensures k <= len
    ensures 0 <= index <= len ==> k == index
    ensures index > len ==> k == len
    ensures index < 0 ==> (k == 0 <==> index + len <= 0) && (k > 0 ==> k == len + index)
  {
    if index < 0 then (if len + index < 0 then 0 else len + index)
    else if index > len then len
    else index
  }

  /** Where `x` lands in `s`: pushed at the end without an index, spliced in with one. */
  function InsertAt(len: nat, index: Option<int>): (k: nat)
    ensures k <= len
    ensures index.None? ==> k == len
  {
    if index.None? then len else SpliceStart(index.value, len)
  }

  /** The children of the new parent after the insertion. */
  function Insert(s: seq<string>, x: string, index: Option<int>): seq<string>
  {
    var k := InsertAt(|s|, index);
    s[..k] + [x] + s[k..]
  }

  /** The insertion adds one `x`, at the position `InsertAt` names; taking it out again gives
      back the old children in their old order. */
  lemma InsertContents(s: seq<string>, x: string, index: Option<int>)
    ensures var r := Insert(s, x, index); var k := InsertAt(|s|, index);
            && |r| == |s| + 1 && multiset(r) == multiset(s) + multiset{x}
            && r[k] == x && r[..k] + r[k + 1..] == s
            && (index.None? ==> r == s + [x])
  {
    var k := InsertAt(|s|, index);
    SpliceContents(s, x, k);
    if index.None? {
      assert s[..k] == s && s[k..] == [];
    }
  }

  lemma SpliceContents(s: seq<string>, x: string, k: nat)
    requires k <= |s|
    ensures var r := s[..k] + [x] + s[k..];
            && |r| == |s| + 1 && r[k] == x && r[..k] + r[k + 1..] == s
            && multiset(r) == multiset(s) + multiset{x}
  {
    var a, b := s[..k], s[k..];
    var r := a + [x] + b;
    assert s == a + b;
    assert r[..k] == a;
    assert r[k + 1..] == b;
    assert multiset(r) == multiset(a) + multiset{x} + multiset(b);
  }

  /** The whole action on the tree, step by step as the constructor does it. */
  function Move(tree: map<string, TreeItem>, entityId: string, parentId: Option<string>, index: Option<int>): Outcome
  {
    if entityId !in tree then Outcome(tree, Some(EntityMissing))
    else
      var oldParent := tree[entityId].parent;
      if Truthy(oldParent) && oldParent.value !in tree then Outcome(tree, Some(OldParentMissing))
      else
        var removed := if Truthy(oldParent) then Detach(tree, oldParent.value, entityId) else tree;
        var moved := Reparent(removed, entityId, parentId);
        if !Truthy(parentId) then Outcome(moved, None)
        else if parentId.value !in moved then Outcome(moved, Some(NewParentMissing))
        else Outcome(Attach(moved, parentId.value, entityId, index), None)
  }

  /** The tree with `entityId` filtered out of the children of `parentId`. */
  function Detach(tree: map<string, TreeItem>, parentId: string, entityId: string): (t: map<string, TreeItem>)
    requires parentId in tree
  {
    tree[parentId := tree[parentId].(children := FilterOut(tree[parentId].children, entityId))]
  }

  /** The tree with the parent of `entityId` set to `parentId`. */
  function Reparent(tree: map<string, TreeItem>, entityId: string, parentId: Option<string>): (t: map<string, TreeItem>)
    requires entityId in tree
  {
    tree[entityId := tree[entityId].(parent := parentId)]
  }

  /** The tree with `entityId` inserted into the children of `parentId`. */
  function Attach(tree: map<string, TreeItem>, parentId: string, entityId: string, index: Option<int>): (t: map<string, TreeItem>)
    requires parentId in tree
  {
    tree[parentId := tree[parentId].(children := Insert(tree[parentId].children, entityId, index))]
  }

  /** The move keeps the set of entries. It throws exactly when a lookup fails: before any change
      for the entity and its old parent, after setting the parent for the new parent. */
  lemma MoveOutcome(tree: map<string, TreeItem>, entityId: string, parentId: Option<string>, index: Option<int>)
    ensures var o := Move(tree, entityId, parentId, index);
            && o.tree.Keys == tree.Keys
            && (o.error == Some(EntityMissing) <==> entityId !in tree)
            && (o.error == Some(OldParentMissing) <==>
                  entityId in tree && Truthy(tree[entityId].parent) && tree[entityId].parent.value !in tree)
            && (o.error == Some(NewParentMissing) <==>
                  entityId in tree && Truthy(parentId) && parentId.value !in tree
                  && (!Truthy(tree[entityId].parent) || tree[entityId].parent.value in tree))
            && (o.error == Some(EntityMissing) || o.error == Some(OldParentMissing) ==> o.tree == tree)
            && (o.error.None? || o.error == Some(NewParentMissing) ==> o.tree[entityId].parent == parentId)
  {
  }

  /** The entries the action may touch: the entity, its old parent and its new parent. */
  predicate Touched(tree: map<string, TreeItem>, entityId: string, parentId: Option<string>, k: string)
    requires entityId in tree
  {
    k == entityId || tree[entityId].parent == Some(k) || parentId == Some(k)
  }

  /** Every other entry of the tree is left as it was, whatever the outcome. */
  lemma MoveLeavesOthers(tree: map<string, TreeItem>, entityId: string, parentId: Option<string>, index: Option<int>, k: string)
    requires entityId in tree && k in tree && !Touched(tree, entityId, parentId, k)
    ensures Move(tree, entityId, parentId, index).tree[k] == tree[k]
  {
  }

  /** The old parent, when it is not also the new parent, loses every occurrence of the entity
      and keeps its other children in order. */
  lemma MoveRemovesFromOldParent(tree: map<string, TreeItem>, entityId: string, parentId: Option<string>, index: Option<int>)
    requires entityId in tree
    requires var p := tree[entityId].parent; Truthy(p) && p.value in tree && p.value != entityId
    requires parentId != tree[entityId].parent
    ensures var p := tree[entityId].parent.value;
            Move(tree, entityId, parentId, index).tree[p].children == FilterOut(tree[p].children, entityId)
    ensures entityId !in Move(tree, entityId, parentId, index).tree[tree[entityId].parent.value].children
  {
    var p := tree[entityId].parent.value;
    FilterOutContents(tree[p].children, entityId);
  }

  /** With a truthy new parent that exists, the entity is inserted into its children: pushed
      last without an index, spliced in at the index otherwise; the children it had after the
      removal keep their order around it. */
  lemma MoveInsertsIntoNewParent(tree: map<string, TreeItem>, entityId: string, parentId: Option<string>, index: Option<int>)
    requires entityId in tree && Truthy(parentId) && parentId.value in tree && parentId.value != entityId
    requires var p := tree[entityId].parent; !Truthy(p) || p.value in tree
    ensures var o := Move(tree, entityId, parentId, index);
            var before := if tree[entityId].parent == parentId
                          then FilterOut(tree[parentId.value].children, entityId)
                          else tree[parentId.value].children;
            var k := InsertAt(|before|, index);
            && o.error.None?
            && o.tree[parentId.value].children == Insert(before, entityId, index)
            && o.tree[parentId.value].children[k] == entityId
            && multiset(o.tree[parentId.value].children)[entityId] == multiset(before)[entityId] + 1
  {
    var np := parentId.value;
    var before := if tree[entityId].parent == parentId then FilterOut(tree[np].children, entityId)
                  else tree[np].children;
    var removed := if Truthy(tree[entityId].parent) then Detach(tree, tree[entityId].parent.value, entityId) else tree;
    var moved := Reparent(removed, entityId, parentId);
    assert moved[np].children == before;
    assert Move(tree, entityId, parentId, index).tree == Attach(moved, np, entityId, index);
    InsertContents(before, entityId, index);
  }

  /** Moving an entity within its own parent leaves exactly one occurrence of it there. */
  lemma MoveWithinParentKeepsOne(tree: map<string, TreeItem>, entityId: string, index: Option<int>)
    requires entityId in tree
    requires var p := tree[entityId].parent; Truthy(p) && p.value in tree && p.value != entityId
    ensures var p := tree[entityId].parent.value;
            multiset(Move(tree, entityId, tree[entityId].parent, index).tree[p].children)[entityId] == 1
  {
    var p := tree[entityId].parent;
    MoveInsertsIntoNewParent(tree, entityId, p, index);
    FilterOutContents(tree[p.value].children, entityId);
  }

  /** With no (truthy) new parent, no entry gains the entity as a child. */
  lemma MoveToRootAddsNowhere(tree: map<string, TreeItem>, entityId: string, parentId: Option<string>, index: Option<int>, k: string)
    requires !Truthy(parentId) && k in tree
    ensures var o := Move(tree, entityId, parentId, index);
            o.error != Some(NewParentMissing)
            && multiset(o.tree[k].children)[entityId] <= multiset(tree[k].children)[entityId]
  {
    if entityId in tree && Truthy(tree[entityId].parent) && tree[entityId].parent.value == k {
      FilterOutContents(tree[k].children, entityId);
    }
  }

  /** The studio store: the tree record, whether an engine is attached, and what has been asked
      of the engine's render thread. */
  class Studio {
    var tree: map<string, TreeItem>
    var engine: bool
    var moves: seq<EngineMove>

    constructor (tree0: map<string, TreeItem>, engine0: bool)
      ensures tree == tree0 && engine == engine0 && moves == []
    {
      tree, engine, moves := tree0, engine0, [];
    }

    /** `new MoveEntityAction(entityId, parentId, index)`. */
    method MoveEntity(entityId: string, parentId: Option<string>, index: Option<int>)
      returns (error: Option<MoveError>)
      modifies this`tree, this`moves
      ensures var o := Move(old(tree), entityId, parentId, index);
              tree == o.tree && error == o.error
      ensures moves == old(moves) + (if error.None? && engine then [EngineMove(entityId, parentId)] else [])
    {
      if entityId !in tree {
        return Some(EntityMissing);
      }
      var oldParent := tree[entityId].parent;
      if Truthy(oldParent) {
        if oldParent.value !in tree {
          return Some(OldParentMissing);
        }
        tree := Detach(tree, oldParent.value, entityId);
      }
      tree := Reparent(tree, entityId, parentId);
      if Truthy(parentId) {
        if parentId.value !in tree {
          return Some(NewParentMissing);
        }
        tree := Attach(tree, parentId.value, entityId, index);
      }
      if engine {
        moves := moves + [EngineMove(entityId, parentId)];
      }
      return None;
    }
  }
}
