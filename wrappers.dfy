/** Option and Result values shared by the other modules: `None` stands for a Java
    `null` return, `Err` for a thrown exception or an error exit. */
module Wrappers {

  datatype Option<+T> = None | Some(value: T)

  datatype Result<+T, +E> = Ok(value: T) | Err(error: E)
}
