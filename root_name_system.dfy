/**
  The root-name system (packages/engine/src/client/systems/setRootName.ts). For every scene
  entity that is the active scene, and every named entity that is that scene's root, the name
  is written into the client store's `rootName`; the last write wins, and without a match the
  store keeps what it had.

  Query results are sequences of rows: `scenes` holds each scene entity with its root's id,
  `names` each named entity with its name. The store is an object whose `rootName` the system
  overwrites; the store's other fields are not touched and are left out.
*/
module RootNameSystem {

  class ClientStore {
    var rootName: string

    constructor (rootName: string)
      ensures this.rootName == rootName
    {
      this.rootName := rootName;
    }
  }

  datatype SceneRow = SceneRow(entity: nat, rootId: nat)

  datatype NameRow = NameRow(entity: nat, value: string)

  /** The names written for root `rootId`, in query order. */
  function NameWrites(rootId: nat, names: seq<NameRow>): seq<string>
  {
    if names == [] then []
    else
      var init := NameWrites(rootId, names[..|names| - 1]);
      if names[|names| - 1].entity == rootId then init + [names[|names| - 1].value] else init
  }

  /** Every write the system makes, in order: for each active scene, its root's names. */
  function Writes(activeScene: nat, scenes: seq<SceneRow>, names: seq<NameRow>): seq<string>
  {
    if scenes == [] then []
    else
      var init := Writes(activeScene, scenes[..|scenes| - 1], names);
      var scene := scenes[|scenes| - 1];
      if scene.entity == activeScene then init + NameWrites(scene.rootId, names) else init
  }

  /** A store field after the writes `w`: the last of them, or `init` without any. */
  function Final(init: string, w: seq<string>): string
  {
    if w == [] then init else w[|w| - 1]
  }

  lemma FinalAppend(init: string, a: seq<string>, b: seq<string>)
    ensures Final(init, a + b) == Final(Final(init, a), b)
  {
  }

  /** The names written for a root are exactly those of its entities, and the last is that of
      its last entity in the query. */
  lemma {:induction false} NameWritesOf(rootId: nat, names: seq<NameRow>)
    ensures forall v :: v in NameWrites(rootId, names) <==>
              exists k :: 0 <= k < |names| && names[k].entity == rootId && names[k].value == v
    ensures NameWrites(rootId, names) != [] ==>
              exists k :: 0 <= k < |names| && names[k].entity == rootId
                          && NameWrites(rootId, names)[|NameWrites(rootId, names)| - 1] == names[k].value
                          && forall m :: k < m < |names| ==> names[m].entity != rootId
  {
    if names != [] {
      var init := names[..|names| - 1];
      var last := names[|names| - 1];
      NameWritesOf(rootId, init);
      var w := NameWrites(rootId, names);
      forall v
        ensures v in w <==> exists k :: 0 <= k < |names| && names[k].entity == rootId && names[k].value == v
      {
        if v in w && !(last.entity == rootId && last.value == v) {
          var k :| 0 <= k < |init| && init[k].entity == rootId && init[k].value == v;
          assert names[k] == init[k];
        }
        if exists k :: 0 <= k < |names| && names[k].entity == rootId && names[k].value == v {
          var k :| 0 <= k < |names| && names[k].entity == rootId && names[k].value == v;
          if k < |init| {
            assert init[k] == names[k];
          }
        }
      }
      if last.entity != rootId && w != [] {
        var k :| 0 <= k < |init| && init[k].entity == rootId && w[|w| - 1] == init[k].value
                 && forall m :: k < m < |init| ==> init[m].entity != rootId;
        assert names[k] == init[k];
        assert forall m :: k < m < |names| ==> names[m].entity != rootId by {
          forall m | k < m < |names|
            ensures names[m].entity != rootId
          {
            if m < |init| {
              assert names[m] == init[m];
            }
          }
        }
      }
    }
  }

  /** No write at all exactly when no active scene has a named root. */
  lemma {:induction false} WritesEmpty(activeScene: nat, scenes: seq<SceneRow>, names: seq<NameRow>)
    ensures Writes(activeScene, scenes, names) == [] <==>
            forall i, k :: 0 <= i < |scenes| && 0 <= k < |names| && scenes[i].entity == activeScene
                           ==> names[k].entity != scenes[i].rootId
  {
    if scenes != [] {
      var init := scenes[..|scenes| - 1];
      var scene := scenes[|scenes| - 1];
      WritesEmpty(activeScene, init, names);
      NameWritesOf(scene.rootId, names);
      if Writes(activeScene, scenes, names) == [] {
        forall i, k | 0 <= i < |scenes| && 0 <= k < |names| && scenes[i].entity == activeScene
          ensures names[k].entity != scenes[i].rootId
        {
          if i < |init| {
            assert scenes[i] == init[i];
          } else {
            assert names[k].value !in NameWrites(scene.rootId, names);
          }
        }
      } else if scene.entity == activeScene && NameWrites(scene.rootId, names) != [] {
        var v := NameWrites(scene.rootId, names)[0];
        assert v in NameWrites(scene.rootId, names);
      } else {
        var i, k :| 0 <= i < |init| && 0 <= k < |names| && init[i].entity == activeScene
                    && names[k].entity == init[i].rootId;
        assert scenes[i] == init[i];
      }
    }
  }

  /** Scene entities are distinct in a query; then the one active scene's root's names are all
      that is written. */
  lemma {:induction false} WritesOfActiveScene(activeScene: nat, scenes: seq<SceneRow>, names: seq<NameRow>, i: nat)
    requires forall a, b :: 0 <= a < b < |scenes| ==> scenes[a].entity != scenes[b].entity
    requires i < |scenes| && scenes[i].entity == activeScene
    ensures Writes(activeScene, scenes, names) == NameWrites(scenes[i].rootId, names)
  {
    var init := scenes[..|scenes| - 1];
    if i < |init| {
      assert init[i] == scenes[i];
      WritesOfActiveScene(activeScene, init, names, i);
    } else {
      WritesNoActive(activeScene, init, names);
    }
  }

  lemma {:induction false} WritesNoActive(activeScene: nat, scenes: seq<SceneRow>, names: seq<NameRow>)
    requires forall i :: 0 <= i < |scenes| ==> scenes[i].entity != activeScene
    ensures Writes(activeScene, scenes, names) == []
  {
    if scenes != [] {
      var init := scenes[..|scenes| - 1];
      assert forall i :: 0 <= i < |init| ==> init[i] == scenes[i];
      WritesNoActive(activeScene, init, names);
    }
  }

  /** The written root name, under distinct scene entities: the name of the last entity in the
      query that is the active scene's root, and the old name when the root has no name. */
  lemma RootNameIsLastName(init: string, activeScene: nat, scenes: seq<SceneRow>, names: seq<NameRow>, i: nat)
    requires forall a, b :: 0 <= a < b < |scenes| ==> scenes[a].entity != scenes[b].entity
    requires i < |scenes| && scenes[i].entity == activeScene
    ensures (forall k :: 0 <= k < |names| ==> names[k].entity != scenes[i].rootId) ==>
              Final(init, Writes(activeScene, scenes, names)) == init
    ensures (exists k :: 0 <= k < |names| && names[k].entity == scenes[i].rootId) ==>
              exists k :: 0 <= k < |names| && names[k].entity == scenes[i].rootId
                          && Final(init, Writes(activeScene, scenes, names)) == names[k].value
                          && forall m :: k < m < |names| ==> names[m].entity != scenes[i].rootId
  {
    WritesOfActiveScene(activeScene, scenes, names, i);
    var root := scenes[i].rootId;
    NameWritesOf(root, names);
    if exists k :: 0 <= k < |names| && names[k].entity == root {
      var k :| 0 <= k < |names| && names[k].entity == root;
      assert names[k].value in NameWrites(root, names);
    }
  }

  /** `setRootName`: the store's root name ends as the last write, or unchanged without one. */
  method SetRootName(store: ClientStore, activeScene: nat, scenes: seq<SceneRow>, names: seq<NameRow>)
    modifies store`rootName
    ensures store.rootName == Final(old(store.rootName), Writes(activeScene, scenes, names))
  {
    for i := 0 to |scenes|
      invariant store.rootName == Final(old(store.rootName), Writes(activeScene, scenes[..i], names))
    {
      assert scenes[..i + 1][..i] == scenes[..i];
      var scene := scenes[i];
      if activeScene != scene.entity {
        continue;
      }
      ghost var before := Writes(activeScene, scenes[..i], names);
      for k := 0 to |names|
        invariant store.rootName == Final(old(store.rootName), before + NameWrites(scene.rootId, names[..k]))
      {
        assert names[..k + 1][..k] == names[..k];
        if scene.rootId != names[k].entity {
          continue;
        }
        store.rootName := names[k].value;
        assert before + NameWrites(scene.rootId, names[..k + 1])
               == (before + NameWrites(scene.rootId, names[..k])) + [names[k].value];
      }
      assert names[..|names|] == names;
    }
    assert scenes[..|scenes|] == scenes;
  }
}
