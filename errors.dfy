/** The errors thrown by the decoder, one constructor per distinct `throw`. */
module Errors {
  import opened Bytes

  datatype Error =
    /** A DataView access or construction outside its buffer (the host's RangeError). */
    | RangeError
    /** `(spec) Wrong PNG signature` */
    | SignatureError
    /** `(spec) Crc error for chunk type <name> (<computed>, <stored>)` */
    | CrcError(name: string, computed: u32, stored: u32)
    /** `(spec) Expected chunk IHDR on beggining` */
    | FirstChunkNotIhdr
    /** `(spec) IDAT chunk is missing` */
    | IdatMissing
    /** `(spec) PLTE chunk should not appear for colorType=<c>` */
    | PlteNotAllowed(colorType: int)
    /** `(spec) PLTE chunk should appear for colorType=<c>` */
    | PlteMissing(colorType: int)
    /** `(spec) tRNS chunk should not appear for colorType=<c>` */
    | TrnsNotAllowed(colorType: int)
    /** `assertion error` or `assertion error: a is not equal to b` from utils.assert */
    | AssertionError
    /** `<bits> is unsupported` from getUint / readUint */
    | UnsupportedBits(bits: int)
    /** The bare `throw new Error()` of the de-filter for an unknown colour type */
    | UnknownColorType(colorType: int)
    /** The inflate collaborator's error message */
    | InflateError(message: string)
    /** An IHDR payload shorter than the 13 bytes readIHDR indexes */
    | ShortHeader
}
