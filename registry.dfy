/** The block-type registry of NiFile: an exact-string map from the type name a
    header declares to the kind of object that decodes it. */
module Registry {

  /** One constructor per class the registry can instantiate. */
  datatype Kind =
    | BSFadeNode | NiTriShape | NiTriShapeData | BSTriShape | BSSubIndexTriShape
    | BSMeshLODTriShape | BSLightingShaderProperty | BSShaderPPLightingProperty
    | BSShaderTextureSet | NiNode | BSTreeNode | NiSwitchNode | NiBillboardNode
    | NiMaterialProperty | NiTexturingProperty | NiSourceTexture | NiTriStrips
    | NiTriStripsData | NiStringExtraData | BSEffectShaderProperty | NiStencilProperty
    | NiBinaryExtraData | NiVertexColorProperty | NiMaterialColorController
    | NiPoint3Interpolator | NiPosData | NiIntegerExtraData | BSXFlags | NiAlphaProperty
    | BSMultiBoundNode | BSLODTriShape | BSOrderedNode | BSMultiBound | BSMultiBoundAABB
    | BSSegmentedTriShape

  /** The registry, in declaration order. "BSLeafAnimNode" is an alias that builds a NiNode. */
  const ClassTypes: map<string, Kind> := map[
    "BSFadeNode" := BSFadeNode,
    "NiTriShape" := NiTriShape,
    "NiTriShapeData" := NiTriShapeData,
    "BSTriShape" := BSTriShape,
    "BSSubIndexTriShape" := BSSubIndexTriShape,
    "BSMeshLODTriShape" := BSMeshLODTriShape,
    "BSLightingShaderProperty" := BSLightingShaderProperty,
    "BSShaderPPLightingProperty" := BSShaderPPLightingProperty,
    "BSShaderTextureSet" := BSShaderTextureSet,
    "NiNode" := NiNode,
    "BSTreeNode" := BSTreeNode,
    "NiSwitchNode" := NiSwitchNode,
    "BSLeafAnimNode" := NiNode,
    "NiBillboardNode" := NiBillboardNode,
    "NiMaterialProperty" := NiMaterialProperty,
    "NiTexturingProperty" := NiTexturingProperty,
    "NiSourceTexture" := NiSourceTexture,
    "NiTriStrips" := NiTriStrips,
    "NiTriStripsData" := NiTriStripsData,
    "NiStringExtraData" := NiStringExtraData,
    "BSEffectShaderProperty" := BSEffectShaderProperty,
    "NiStencilProperty" := NiStencilProperty,
    "NiBinaryExtraData" := NiBinaryExtraData,
    "NiVertexColorProperty" := NiVertexColorProperty,
    "NiMaterialColorController" := NiMaterialColorController,
    "NiPoint3Interpolator" := NiPoint3Interpolator,
    "NiPosData" := NiPosData,
    "NiIntegerExtraData" := NiIntegerExtraData,
    "BSXFlags" := BSXFlags,
    "NiAlphaProperty" := NiAlphaProperty,
    "BSMultiBoundNode" := BSMultiBoundNode,
    "BSLODTriShape" := BSLODTriShape,
    "BSOrderedNode" := BSOrderedNode,
    "BSMultiBound" := BSMultiBound,
    "BSMultiBoundAABB" := BSMultiBoundAABB,
    "BSSegmentedTriShape" := BSSegmentedTriShape
  ]

  /** The alias: "BSLeafAnimNode" and "NiNode" build the same kind. */
  lemma LeafAnimNodeIsNiNode()
    ensures "BSLeafAnimNode" in ClassTypes && "NiNode" in ClassTypes
    ensures ClassTypes["BSLeafAnimNode"] == ClassTypes["NiNode"] == NiNode
  {
  }

  /** The registry entries the three-block example relies on. */
  lemma ExampleKinds()
    ensures "NiNode" in ClassTypes && ClassTypes["NiNode"] == NiNode
    ensures "UnknownFutureType" !in ClassTypes
    ensures "NiTriShapeData" in ClassTypes && ClassTypes["NiTriShapeData"] == NiTriShapeData
  {
  }

  /** Lookup is exact-string: a name differing only in letter case is unsupported. */
  lemma LookupIsCaseSensitive()
    ensures "ninode" !in ClassTypes && "NINODE" !in ClassTypes
    ensures "BSLeafAnimNode " !in ClassTypes
  {
  }
}
