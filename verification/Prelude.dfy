// Values that every component of the model shares.
module Prelude {

  datatype Option<+T> = None | Some(value: T)

  datatype Result<+T, +E> = Ok(value: T) | Err(error: E)

  // A byte as the encoders and the file manager see it.
  type byte = b: int | 0 <= b < 256

  /** A decoded JSON value; Undefined is an absent field or argument. */
  datatype Json =
    | Undefined
    | Null
    | Bool(b: bool)
    | Num(n: real)
    | Str(s: string)
    | Arr(items: seq<Json>)
    | Obj(fields: map<string, Json>)
}
