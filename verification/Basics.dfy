/** Small types that several modules use. */
module Basics {

  datatype Option<T> = None | Some(value: T)

  /** The character that ends a string in C. */
  const NUL: char := '\0'
}
