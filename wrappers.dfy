/** Small building blocks shared by both cores: optional values and the smaller and larger of two counts. */
module Wrappers {
  /** An optional value: the source's nullable pointers and "not found" results. */
  datatype Option<+T> = None | Some(value: T)

  function Min(a: nat, b: nat): nat { if a < b then a else b }
  function Max(a: nat, b: nat): nat { if a < b then b else a }
}
