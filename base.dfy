/** Types shared by every module: bytes, Java strings, Java exceptions and results. */
module Base {

  /** One unsigned byte, as the stream delivers it. */
  type Byte = b: int | 0 <= b < 256

  /**
   * A Java String, held as the bytes it was read from (the payload of readUTF or
   * of a CLOB). Character decoding is not part of this model.
   */
  type Text = seq<Byte>

  /** The Java exceptions the core throws, one constructor per distinct cause. */
  datatype Error =
    | EndOfStream                   // java.io.EOFException from a DataInput read
    | UnknownType(tag: Byte)        // IOException "Unknown value type" in BinaryDecoder.read
    | NoSuchKey(id: int)            // IllegalArgumentException from KeyStreamEncoder.get(int)
    | KeyCapacity                   // IllegalStateException: maximum number of keys exceeded
    | NoSuchString(id: int)         // failure of StringEncoder.get(int)
    | NegativeArraySize(n: int)     // NegativeArraySizeException in readCLOB
    | UtfTooLong(n: int)            // UTFDataFormatException from writeUTF
    | NotARecord                    // ClassCastException of a top-level value, as IllegalStateException
    | BadHeader                     // IllegalStateException: not in the BSON format
    | UnsupportedVersion(v: int)    // IllegalStateException: version not supported
    | Compression                   // IOException opening the GZIP payload, as IllegalStateException
    | NullValue(key: Text)          // SQLException: value is null and cannot be converted
    | WrongClass(key: Text)         // SQLException: class type cannot be converted
    | NumberFormat(text: Text)      // NumberFormatException from a parse of a String value
    | Exhausted                     // next() on an iterator with no element left
    | Transform(cause: Error)       // IllegalArgumentException wrapping a transform's SQLException

  datatype Result<+T> = Ok(value: T) | Err(error: Error) {
    predicate IsFailure() { Err? }
    function PropagateFailure<U>(): Result<U> requires Err? { Err(error) }
    function Extract(): T requires Ok? { value }
  }

  datatype Option<+T> = None | Some(value: T)
}
