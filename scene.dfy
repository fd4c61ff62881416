/**
 * The part of a SketchUp model the exporter looks at: drawing elements with
 * their hidden flag, their layer's visibility, their material, the lowest z
 * of their bounds, the vertex loops of a face and the entities inside a
 * group's or component's definition.
 */
module Scene {
  import opened Wrappers

  /** One 8-bit channel of `Sketchup::Color`. */
  type Channel = c: int | 0 <= c < 256

  /** `Sketchup::Color#to_a`: red, green, blue and alpha. */
  datatype Color = Color(red: Channel, green: Channel, blue: Channel, alpha: Channel)

  datatype Material = Material(name: string, color: Color)

  /** A vertex position in the local space of the entity's parent. */
  datatype Point = Point(x: real, y: real, z: real)

  /** The classes of drawing element the exporter tells apart. */
  datatype Kind = Face | Group | ComponentInstance | Edge | OtherElement

  /**
   * A drawing element. `outerLoop` and `innerLoops` are the vertex loops of
   * a face (`loops[0]` and `loops[1..]`), `children` the entities of a
   * group's or component instance's definition; both are empty for the
   * kinds that have none.
   */
  datatype Entity = Entity(
    kind: Kind,
    hidden: bool,
    layerVisible: bool,
    material: Option<Material>,
    minZ: real,
    outerLoop: seq<Point>,
    innerLoops: seq<seq<Point>>,
    children: seq<Entity>)
  {
    /** `face.loops`: the outer loop first. */
    function Loops(): seq<seq<Point>>
    {
      [outerLoop] + innerLoops
    }
  }

  /** An instance path: the entities from the outermost container down to a leaf. */
  type InstancePath = seq<Entity>
}
