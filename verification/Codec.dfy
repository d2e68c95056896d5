/** The two halves together, through a real buffer. */
module Codec {
  import opened Wire
  import opened Descriptor
  import opened EncodeSpec
  import Encoder
  import IStream
  import Decoder
  import opened RoundTrip

  /**
    * Writing a valid struct into a buffer and reading the written part back: the writer fails only for
    * lack of room; the reader then accepts exactly if no length prefix needs more than 32 bits, and ends
    * at the last byte with the same struct, absent fields at their defaults.
    */
  method WriteAndRead(buffer: array<byte>, fields: seq<FieldDesc>, slots: seq<Slot>)
    returns (written: bool, read: bool, copy: seq<Slot>)
    requires WellFormed(fields) && Valid(fields, slots)
    requires Shaped(fields, slots) && FitsSizeT(fields, slots)
    modifies buffer
    ensures EncodeMessage(fields, slots).Ok?
    ensures written == (|EncodeMessage(fields, slots).value| <= buffer.Length)
    ensures written && LengthsFit(fields, slots) ==> read && copy == Normal(fields, slots)
    ensures written && buffer.Length < TWO_63 ==> (read <==> LengthsFit(fields, slots))
  {
    var count;
    DecodeEncode(fields, slots);
    written, count := Encoder.EncodeIntoBuffer(buffer, fields, slots);
    if !written {
      return false, false, [];
    }
    var s := new IStream.Stream.FromBuffer(buffer[..count]);
    var dest;
    read, dest := Decoder.Decode(s, fields);
    copy := dest.slots;
  }
}
