/** `bytearray`: a byte string changed in place, so shared by all who hold it. */
module ByteArrays {
  import opened ByteStrings

  class ByteArray {
    var data: Bytes

    constructor ()
      ensures data == []
    {
      data := [];
    }
  }
}
