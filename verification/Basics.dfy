/** Small types shared by the models. */
module Basics {

  datatype Option<+T> = None | Some(value: T) {
    function GetOr(default: T): T { if Some? then value else default }
  }

  /** The operation mode of a sensor. */
  datatype Mode = Normal | DataInjection

  newtype byte = x: int | 0 <= x < 256
}
