/** The annotation records shared by the readers, the grouper and the
    exporters: Box and ImgBox of include/via.hpp and include/ibox.hpp. */
module Boxes {
  import opened FaultCode

  /** One bounding box on one image with its fault code. */
  datatype Box = Box(image: string, x: int, y: int, w: int, h: int, fault: Fault)

  /** The boxes of one image. */
  datatype ImgBox = ImgBox(image: string, boxes: seq<Box>)

  /** A computation that returns a value or throws an exception. */
  datatype Outcome<T> = Done(value: T) | Thrown

  datatype Option<T> = None | Some(value: T)
}
