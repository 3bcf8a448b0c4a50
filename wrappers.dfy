/** The optional value used where the code keeps a nullable reference. */
module Wrappers {

  datatype Option<+T> = None | Some(value: T)
}
