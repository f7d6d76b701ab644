/**
 * What the converter takes from its surroundings and this model does not
 * interpret: Unicode NFC normalisation, URL percent-decoding, the local file
 * system (the regular files that exist and their bytes) and the base64
 * encoder of RFC 4648 section 4.
 */
module Host {

  newtype byte = b: int | 0 <= b < 256

  datatype Host = Host(
    nfc: string -> string,
    unquote: string -> string,
    files: map<string, seq<byte>>,
    base64: seq<byte> -> string)
}
