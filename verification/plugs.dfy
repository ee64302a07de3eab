/**
  The plugs the PointsType node can be asked about. Plug identity is what
  `affects` compares, so plugs are plain values.
 */
module Plugs {

  /** The children of a scene plug. */
  datatype SceneChild = Bound | Transform | Attributes | Object | ChildNames | Globals

  /**
    The node's own `type` string plug, a child of its input or output scene
    plug, or any other plug it inherits (filter, enabled, ...) by name.
   */
  datatype Plug =
    | TypePlug
    | InPlug(child: SceneChild)
    | OutPlug(child: SceneChild)
    | OtherPlug(name: string)
}
