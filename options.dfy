/** The nullable values of the source (`firstOrNull()`, a `Bitmap?` result, a
    quantized vector that may be null) and its decoding failures. */
module Options {

  datatype Option<+T> = None | Some(value: T)
}
