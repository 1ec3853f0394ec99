/**
  The validators of the editor's edit messages (packages/protocol/src/xyz.unavi.editor/edit.ts):
  an edit of a node or of a mesh, addressed to the client, whose `data` names its target and
  carries the properties to change. `EditMessage` is either.

  The ColliderType and RigidBodyType enumerations live in a module that is not part of this
  model; their members are taken to be the lower-case names of the members.
*/
module EditSchema {
  import opened Wrappers
  import opened Zod

  const NodeEditId: string := "xyz.unavi.editor.edit.node"
  const MeshEditId: string := "xyz.unavi.editor.edit.mesh"
  const ClientTarget: string := "client"

  /** ColliderType.Box, Sphere, Capsule, Cylinder, Mesh, Hull. */
  const ColliderTypes: seq<string> := ["box", "sphere", "capsule", "cylinder", "mesh", "hull"]
  /** RigidBodyType.Dynamic, Static. */
  const RigidBodyTypes: seq<string> := ["dynamic", "static"]

  const ColliderSchema: Schema := ZObject([
    Field("height", ZOptional(ZNumber)),
    Field("mesh", ZOptional(ZString)),
    Field("radius", ZOptional(ZNumber)),
    Field("size", ZOptional(ZNumberArray(Some(3)))),
    Field("type", ZNullable(ZEnum(ColliderTypes)))
  ])

  const ExtrasSchema: Schema := ZObject(Partial([Field("locked", ZBoolean)]))

  /** `z.array(z.number())`, of length `n` when given, `.nullable().optional()`. */
  function MaybeNumbers(n: Option<nat>): Schema
  {
    ZOptional(ZNullable(ZNumberArray(n)))
  }

  const NodeDataSchema: Schema := ZObject([
    Field("collider", ZOptional(ColliderSchema)),
    Field("extras", ZOptional(ExtrasSchema)),
    Field("mesh", ZOptional(ZNullable(ZString))),
    Field("name", ZOptional(ZString)),
    Field("parent", ZOptional(ZNullable(ZString))),
    Field("rigidBodyType", ZOptional(ZNullable(ZEnum(RigidBodyTypes)))),
    Field("rotation", MaybeNumbers(Some(4))),
    Field("scale", MaybeNumbers(Some(3))),
    Field("target", ZString),
    Field("translation", MaybeNumbers(Some(3)))
  ])

  const EditNodeSchema: Schema := ZObject([
    Field("data", NodeDataSchema),
    Field("id", ZLiteral(NodeEditId)),
    Field("target", ZLiteral(ClientTarget))
  ])

  const MeshDataSchema: Schema := ZObject([
    Field("colors", MaybeNumbers(None)),
    Field("indices", MaybeNumbers(None)),
    Field("joints", MaybeNumbers(None)),
    Field("material", ZOptional(ZNullable(ZString))),
    Field("name", ZOptional(ZNullable(ZString))),
    Field("normals", MaybeNumbers(None)),
    Field("positions", MaybeNumbers(None)),
    Field("target", ZString),
    Field("uv", MaybeNumbers(None)),
    Field("uv1", MaybeNumbers(None)),
    Field("uv2", MaybeNumbers(None)),
    Field("uv3", MaybeNumbers(None)),
    Field("weights", MaybeNumbers(None))
  ])

  const EditMeshSchema: Schema := ZObject([
    Field("data", MeshDataSchema),
    Field("id", ZLiteral(MeshEditId)),
    Field("target", ZLiteral(ClientTarget))
  ])

  const EditMessageSchema: Schema := ZUnion(EditNodeSchema, EditMeshSchema)

  // The same rules written out by hand, field by field.

  /** Absent, null, or an array of numbers (of length `n` when given). */
  predicate NumbersOrNothing(v: Value, n: Option<nat>)
  {
    v == Undefined || v == Null || (v.Array? && AllNumbers(v.items) && (n.Some? ==> |v.items| == n.value))
  }

  predicate IsCollider(v: Value)
  {
    && v.Object?
    && var f := v.fields;
    && (Get(f, "height") == Undefined || Get(f, "height").Number?)
    && (Get(f, "mesh") == Undefined || Get(f, "mesh").Str?)
    && (Get(f, "radius") == Undefined || Get(f, "radius").Number?)
    && (Get(f, "size") == Undefined || (Get(f, "size").Array? && AllNumbers(Get(f, "size").items) && |Get(f, "size").items| == 3))
    && (Get(f, "type") == Null || (Get(f, "type").Str? && Get(f, "type").s in ColliderTypes))
  }

  predicate IsNodeData(v: Value)
  {
    && v.Object?
    && var f := v.fields;
    && (Get(f, "collider") == Undefined || IsCollider(Get(f, "collider")))
    && (Get(f, "extras") == Undefined
        || (Get(f, "extras").Object? && var locked := Get(Get(f, "extras").fields, "locked");
            locked == Undefined || locked.Bool?))
    && (Get(f, "mesh") == Undefined || Get(f, "mesh") == Null || Get(f, "mesh").Str?)
    && (Get(f, "name") == Undefined || Get(f, "name").Str?)
    && (Get(f, "parent") == Undefined || Get(f, "parent") == Null || Get(f, "parent").Str?)
    && (Get(f, "rigidBodyType") == Undefined || Get(f, "rigidBodyType") == Null
        || (Get(f, "rigidBodyType").Str? && Get(f, "rigidBodyType").s in RigidBodyTypes))
    && NumbersOrNothing(Get(f, "rotation"), Some(4))
    && NumbersOrNothing(Get(f, "scale"), Some(3))
    && Get(f, "target").Str?
    && NumbersOrNothing(Get(f, "translation"), Some(3))
  }

  predicate IsEditNode(v: Value)
  {
    && v.Object?
    && IsNodeData(Get(v.fields, "data"))
    && Get(v.fields, "id") == Str(NodeEditId)
    && Get(v.fields, "target") == Str(ClientTarget)
  }

  predicate IsMeshData(v: Value)
  {
    && v.Object?
    && var f := v.fields;
    && NumbersOrNothing(Get(f, "colors"), None)
    && NumbersOrNothing(Get(f, "indices"), None)
    && NumbersOrNothing(Get(f, "joints"), None)
    && (Get(f, "material") == Undefined || Get(f, "material") == Null || Get(f, "material").Str?)
    && (Get(f, "name") == Undefined || Get(f, "name") == Null || Get(f, "name").Str?)
    && NumbersOrNothing(Get(f, "normals"), None)
    && NumbersOrNothing(Get(f, "positions"), None)
    && Get(f, "target").Str?
    && NumbersOrNothing(Get(f, "uv"), None)
    && NumbersOrNothing(Get(f, "uv1"), None)
    && NumbersOrNothing(Get(f, "uv2"), None)
    && NumbersOrNothing(Get(f, "uv3"), None)
    && NumbersOrNothing(Get(f, "weights"), None)
  }

  predicate IsEditMesh(v: Value)
  {
    && v.Object?
    && IsMeshData(Get(v.fields, "data"))
    && Get(v.fields, "id") == Str(MeshEditId)
    && Get(v.fields, "target") == Str(ClientTarget)
  }

  // What `ColliderSchema` asks of each field, one field at a time.

  lemma ColliderHeight(v: Value)
    requires v.Object?
    ensures var f, shape := v.fields, ColliderSchema.shape;
            Accepts(shape[0].schema, Get(f, shape[0].key)) <==> (Get(f, "height") == Undefined || Get(f, "height").Number?)
  {
  }

  lemma ColliderMesh(v: Value)
    requires v.Object?
    ensures var f, shape := v.fields, ColliderSchema.shape;
            Accepts(shape[1].schema, Get(f, shape[1].key)) <==> (Get(f, "mesh") == Undefined || Get(f, "mesh").Str?)
  {
  }

  lemma ColliderRadius(v: Value)
    requires v.Object?
    ensures var f, shape := v.fields, ColliderSchema.shape;
            Accepts(shape[2].schema, Get(f, shape[2].key)) <==> (Get(f, "radius") == Undefined || Get(f, "radius").Number?)
  {
  }

  lemma ColliderSize(v: Value)
    requires v.Object?
    ensures var f, shape := v.fields, ColliderSchema.shape;
            Accepts(shape[3].schema, Get(f, shape[3].key)) <==> (Get(f, "size") == Undefined || (Get(f, "size").Array? && AllNumbers(Get(f, "size").items) && |Get(f, "size").items| == 3))
  {
  }

  lemma ColliderType(v: Value)
    requires v.Object?
    ensures var f, shape := v.fields, ColliderSchema.shape;
            Accepts(shape[4].schema, Get(f, shape[4].key)) <==> (Get(f, "type") == Null || (Get(f, "type").Str? && Get(f, "type").s in ColliderTypes))
  {
  }

  lemma ColliderSound(v: Value)
    requires Accepts(ColliderSchema, v)
    ensures IsCollider(v)
  {
    ColliderHeight(v);
    ColliderMesh(v);
    ColliderRadius(v);
    ColliderSize(v);
    ColliderType(v);
  }

  lemma ColliderComplete(v: Value)
    requires IsCollider(v)
    ensures Accepts(ColliderSchema, v)
  {
    var shape, f := ColliderSchema.shape, v.fields;
    forall i | 0 <= i < |shape|
      ensures Accepts(shape[i].schema, Get(f, shape[i].key))
    {
      if i == 0 {
        ColliderHeight(v);
      } else if i == 1 {
        ColliderMesh(v);
      } else if i == 2 {
        ColliderRadius(v);
      } else if i == 3 {
        ColliderSize(v);
      } else {
        assert i == 4;
        ColliderType(v);
      }
    }
  }

  /** The collider schema accepts exactly the colliders described by hand. */
  lemma ColliderAccepts(v: Value)
    ensures Accepts(ColliderSchema, v) <==> IsCollider(v)
  {
    if Accepts(ColliderSchema, v) {
      ColliderSound(v);
    }
    if IsCollider(v) {
      ColliderComplete(v);
    }
  }

  // What `NodeDataSchema` asks of each field, one field at a time.

  lemma NodeDataCollider(v: Value)
    requires v.Object?
    ensures var f, shape := v.fields, NodeDataSchema.shape;
            Accepts(shape[0].schema, Get(f, shape[0].key)) <==> (Get(f, "collider") == Undefined || IsCollider(Get(f, "collider")))
  {
    ColliderAccepts(Get(v.fields, "collider"));
  }

  lemma NodeDataExtras(v: Value)
    requires v.Object?
    ensures var f, shape := v.fields, NodeDataSchema.shape;
            Accepts(shape[1].schema, Get(f, shape[1].key)) <==> (Get(f, "extras") == Undefined || (Get(f, "extras").Object? && var locked := Get(Get(f, "extras").fields, "locked"); locked == Undefined || locked.Bool?))
  {
    var x := Get(v.fields, "extras");
    var shape := ExtrasSchema.shape;
    assert shape == [Field("locked", ZOptional(ZBoolean))];
    if x.Object? && Accepts(shape[0].schema, Get(x.fields, shape[0].key)) {
      assert |shape| == 1;
    }
  }

  lemma NodeDataMesh(v: Value)
    requires v.Object?
    ensures var f, shape := v.fields, NodeDataSchema.shape;
            Accepts(shape[2].schema, Get(f, shape[2].key)) <==> (Get(f, "mesh") == Undefined || Get(f, "mesh") == Null || Get(f, "mesh").Str?)
  {
  }

  lemma NodeDataName(v: Value)
    requires v.Object?
    ensures var f, shape := v.fields, NodeDataSchema.shape;
            Accepts(shape[3].schema, Get(f, shape[3].key)) <==> (Get(f, "name") == Undefined || Get(f, "name").Str?)
  {
  }

  lemma NodeDataParent(v: Value)
    requires v.Object?
    ensures var f, shape := v.fields, NodeDataSchema.shape;
            Accepts(shape[4].schema, Get(f, shape[4].key)) <==> (Get(f, "parent") == Undefined || Get(f, "parent") == Null || Get(f, "parent").Str?)
  {
  }

  lemma NodeDataRigidBodyType(v: Value)
    requires v.Object?
    ensures var f, shape := v.fields, NodeDataSchema.shape;
            Accepts(shape[5].schema, Get(f, shape[5].key)) <==> (Get(f, "rigidBodyType") == Undefined || Get(f, "rigidBodyType") == Null || (Get(f, "rigidBodyType").Str? && Get(f, "rigidBodyType").s in RigidBodyTypes))
  {
  }

  lemma NodeDataRotation(v: Value)
    requires v.Object?
    ensures var f, shape := v.fields, NodeDataSchema.shape;
            Accepts(shape[6].schema, Get(f, shape[6].key)) <==> NumbersOrNothing(Get(f, "rotation"), Some(4))
  {
  }

  lemma NodeDataScale(v: Value)
    requires v.Object?
    ensures var f, shape := v.fields, NodeDataSchema.shape;
            Accepts(shape[7].schema, Get(f, shape[7].key)) <==> NumbersOrNothing(Get(f, "scale"), Some(3))
  {
  }

  lemma NodeDataTarget(v: Value)
    requires v.Object?
    ensures var f, shape := v.fields, NodeDataSchema.shape;
            Accepts(shape[8].schema, Get(f, shape[8].key)) <==> Get(f, "target").Str?
  {
  }

  lemma NodeDataTranslation(v: Value)
    requires v.Object?
    ensures var f, shape := v.fields, NodeDataSchema.shape;
            Accepts(shape[9].schema, Get(f, shape[9].key)) <==> NumbersOrNothing(Get(f, "translation"), Some(3))
  {
  }

  lemma NodeDataSound(v: Value)
    requires Accepts(NodeDataSchema, v)
    ensures IsNodeData(v)
  {
    NodeDataCollider(v);
    NodeDataExtras(v);
    NodeDataMesh(v);
    NodeDataName(v);
    NodeDataParent(v);
    NodeDataRigidBodyType(v);
    NodeDataRotation(v);
    NodeDataScale(v);
    NodeDataTarget(v);
    NodeDataTranslation(v);
  }

  lemma NodeDataComplete(v: Value)
    requires IsNodeData(v)
    ensures Accepts(NodeDataSchema, v)
  {
    var shape, f := NodeDataSchema.shape, v.fields;
    forall i | 0 <= i < |shape|
      ensures Accepts(shape[i].schema, Get(f, shape[i].key))
    {
      if i == 0 {
        NodeDataCollider(v);
      } else if i == 1 {
        NodeDataExtras(v);
      } else if i == 2 {
        NodeDataMesh(v);
      } else if i == 3 {
        NodeDataName(v);
      } else if i == 4 {
        NodeDataParent(v);
      } else if i == 5 {
        NodeDataRigidBodyType(v);
      } else if i == 6 {
        NodeDataRotation(v);
      } else if i == 7 {
        NodeDataScale(v);
      } else if i == 8 {
        NodeDataTarget(v);
      } else {
        assert i == 9;
        NodeDataTranslation(v);
      }
    }
  }

  /** The node data schema accepts exactly the node data described by hand. */
  lemma NodeDataAccepts(v: Value)
    ensures Accepts(NodeDataSchema, v) <==> IsNodeData(v)
  {
    if Accepts(NodeDataSchema, v) {
      NodeDataSound(v);
    }
    if IsNodeData(v) {
      NodeDataComplete(v);
    }
  }

  // What `MeshDataSchema` asks of each field, one field at a time.

  lemma MeshDataColors(v: Value)
    requires v.Object?
    ensures var f, shape := v.fields, MeshDataSchema.shape;
            Accepts(shape[0].schema, Get(f, shape[0].key)) <==> NumbersOrNothing(Get(f, "colors"), None)
  {
  }

  lemma MeshDataIndices(v: Value)
    requires v.Object?
    ensures var f, shape := v.fields, MeshDataSchema.shape;
            Accepts(shape[1].schema, Get(f, shape[1].key)) <==> NumbersOrNothing(Get(f, "indices"), None)
  {
  }

  lemma MeshDataJoints(v: Value)
    requires v.Object?
    ensures var f, shape := v.fields, MeshDataSchema.shape;
            Accepts(shape[2].schema, Get(f, shape[2].key)) <==> NumbersOrNothing(Get(f, "joints"), None)
  {
  }

  lemma MeshDataMaterial(v: Value)
    requires v.Object?
    ensures var f, shape := v.fields, MeshDataSchema.shape;
            Accepts(shape[3].schema, Get(f, shape[3].key)) <==> (Get(f, "material") == Undefined || Get(f, "material") == Null || Get(f, "material").Str?)
  {
  }

  lemma MeshDataName(v: Value)
    requires v.Object?
    ensures var f, shape := v.fields, MeshDataSchema.shape;
            Accepts(shape[4].schema, Get(f, shape[4].key)) <==> (Get(f, "name") == Undefined || Get(f, "name") == Null || Get(f, "name").Str?)
  {
  }

  lemma MeshDataNormals(v: Value)
    requires v.Object?
    ensures var f, shape := v.fields, MeshDataSchema.shape;
            Accepts(shape[5].schema, Get(f, shape[5].key)) <==> NumbersOrNothing(Get(f, "normals"), None)
  {
  }

  lemma MeshDataPositions(v: Value)
    requires v.Object?
    ensures var f, shape := v.fields, MeshDataSchema.shape;
            Accepts(shape[6].schema, Get(f, shape[6].key)) <==> NumbersOrNothing(Get(f, "positions"), None)
  {
  }

  lemma MeshDataTarget(v: Value)
    requires v.Object?
    ensures var f, shape := v.fields, MeshDataSchema.shape;
            Accepts(shape[7].schema, Get(f, shape[7].key)) <==> Get(f, "target").Str?
  {
  }

  lemma MeshDataUv(v: Value)
    requires v.Object?
    ensures var f, shape := v.fields, MeshDataSchema.shape;
            Accepts(shape[8].schema, Get(f, shape[8].key)) <==> NumbersOrNothing(Get(f, "uv"), None)
  {
  }

  lemma MeshDataUv1(v: Value)
    requires v.Object?
    ensures var f, shape := v.fields, MeshDataSchema.shape;
            Accepts(shape[9].schema, Get(f, shape[9].key)) <==> NumbersOrNothing(Get(f, "uv1"), None)
  {
  }

  lemma MeshDataUv2(v: Value)
    requires v.Object?
    ensures var f, shape := v.fields, MeshDataSchema.shape;
            Accepts(shape[10].schema, Get(f, shape[10].key)) <==> NumbersOrNothing(Get(f, "uv2"), None)
  {
  }

  lemma MeshDataUv3(v: Value)
    requires v.Object?
    ensures var f, shape := v.fields, MeshDataSchema.shape;
            Accepts(shape[11].schema, Get(f, shape[11].key)) <==> NumbersOrNothing(Get(f, "uv3"), None)
  {
  }

  lemma MeshDataWeights(v: Value)
    requires v.Object?
    ensures var f, shape := v.fields, MeshDataSchema.shape;
            Accepts(shape[12].schema, Get(f, shape[12].key)) <==> NumbersOrNothing(Get(f, "weights"), None)
  {
  }

  lemma MeshDataSound(v: Value)
    requires Accepts(MeshDataSchema, v)
    ensures IsMeshData(v)
  {
    MeshDataColors(v);
    MeshDataIndices(v);
    MeshDataJoints(v);
    MeshDataMaterial(v);
    MeshDataName(v);
    MeshDataNormals(v);
    MeshDataPositions(v);
    MeshDataTarget(v);
    MeshDataUv(v);
    MeshDataUv1(v);
    MeshDataUv2(v);
    MeshDataUv3(v);
    MeshDataWeights(v);
  }

  lemma MeshDataComplete(v: Value)
    requires IsMeshData(v)
    ensures Accepts(MeshDataSchema, v)
  {
    var shape, f := MeshDataSchema.shape, v.fields;
    forall i | 0 <= i < |shape|
      ensures Accepts(shape[i].schema, Get(f, shape[i].key))
    {
      if i == 0 {
        MeshDataColors(v);
      } else if i == 1 {
        MeshDataIndices(v);
      } else if i == 2 {
        MeshDataJoints(v);
      } else if i == 3 {
        MeshDataMaterial(v);
      } else if i == 4 {
        MeshDataName(v);
      } else if i == 5 {
        MeshDataNormals(v);
      } else if i == 6 {
        MeshDataPositions(v);
      } else if i == 7 {
        MeshDataTarget(v);
      } else if i == 8 {
        MeshDataUv(v);
      } else if i == 9 {
        MeshDataUv1(v);
      } else if i == 10 {
        MeshDataUv2(v);
      } else if i == 11 {
        MeshDataUv3(v);
      } else {
        assert i == 12;
        MeshDataWeights(v);
      }
    }
  }

  /** The mesh data schema accepts exactly the mesh data described by hand. */
  lemma MeshDataAccepts(v: Value)
    ensures Accepts(MeshDataSchema, v) <==> IsMeshData(v)
  {
    if Accepts(MeshDataSchema, v) {
      MeshDataSound(v);
    }
    if IsMeshData(v) {
      MeshDataComplete(v);
    }
  }

  // The messages.

  lemma EditNodeSound(v: Value)
    requires Accepts(EditNodeSchema, v)
    ensures IsEditNode(v)
  {
    var shape, f := EditNodeSchema.shape, v.fields;
    assert Accepts(shape[0].schema, Get(f, shape[0].key));
    NodeDataAccepts(Get(f, "data"));
    assert Accepts(shape[1].schema, Get(f, shape[1].key));
    assert Accepts(shape[2].schema, Get(f, shape[2].key));
  }

  lemma EditNodeComplete(v: Value)
    requires IsEditNode(v)
    ensures Accepts(EditNodeSchema, v)
  {
    var shape, f := EditNodeSchema.shape, v.fields;
    NodeDataAccepts(Get(f, "data"));
    forall i | 0 <= i < |shape|
      ensures Accepts(shape[i].schema, Get(f, shape[i].key))
    {
      assert i == 0 || i == 1 || i == 2;
    }
  }

  /** `EditNodeSchema` accepts exactly the node edits described by hand. */
  lemma EditNodeAccepts(v: Value)
    ensures Accepts(EditNodeSchema, v) <==> IsEditNode(v)
  {
    if Accepts(EditNodeSchema, v) {
      EditNodeSound(v);
    }
    if IsEditNode(v) {
      EditNodeComplete(v);
    }
  }

  lemma EditMeshSound(v: Value)
    requires Accepts(EditMeshSchema, v)
    ensures IsEditMesh(v)
  {
    var shape, f := EditMeshSchema.shape, v.fields;
    assert Accepts(shape[0].schema, Get(f, shape[0].key));
    MeshDataAccepts(Get(f, "data"));
    assert Accepts(shape[1].schema, Get(f, shape[1].key));
    assert Accepts(shape[2].schema, Get(f, shape[2].key));
  }

  lemma EditMeshComplete(v: Value)
    requires IsEditMesh(v)
    ensures Accepts(EditMeshSchema, v)
  {
    var shape, f := EditMeshSchema.shape, v.fields;
    MeshDataAccepts(Get(f, "data"));
    forall i | 0 <= i < |shape|
      ensures Accepts(shape[i].schema, Get(f, shape[i].key))
    {
      assert i == 0 || i == 1 || i == 2;
    }
  }

  /** `EditMeshSchema` accepts exactly the mesh edits described by hand. */
  lemma EditMeshAccepts(v: Value)
    ensures Accepts(EditMeshSchema, v) <==> IsEditMesh(v)
  {
    if Accepts(EditMeshSchema, v) {
      EditMeshSound(v);
    }
    if IsEditMesh(v) {
      EditMeshComplete(v);
    }
  }

  /** No value is both a node edit and a mesh edit: their ids differ. */
  lemma EditKindsDisjoint(v: Value)
    ensures !(IsEditNode(v) && IsEditMesh(v))
  {
    assert NodeEditId[22] != MeshEditId[22];
  }

  /** Which of the two forms the union parses a value as: the node form is tried first. */
  datatype EditKind = NodeEdit | MeshEdit

  function ParseEditMessage(v: Value): (r: Option<EditKind>)
    ensures r.Some? <==> Accepts(EditMessageSchema, v)
  {
    if Accepts(EditNodeSchema, v) then Some(NodeEdit)
    else if Accepts(EditMeshSchema, v) then Some(MeshEdit)
    else None
  }

  /** `EditMessageSchema` accepts exactly the node edits and the mesh edits, and, because the
      two are disjoint, the order of the union does not decide which form a message takes. */
  lemma EditMessageAccepts(v: Value)
    ensures Accepts(EditMessageSchema, v) <==> IsEditNode(v) || IsEditMesh(v)
    ensures ParseEditMessage(v) == Some(NodeEdit) <==> IsEditNode(v)
    ensures ParseEditMessage(v) == Some(MeshEdit) <==> IsEditMesh(v)
  {
    EditNodeAccepts(v);
    EditMeshAccepts(v);
    EditKindsDisjoint(v);
  }
}
