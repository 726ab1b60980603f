/** The examples of the data log file format, version 1.0, byte by byte. */
module DataLogExamples {
  import opened Bytes
  import opened Endian
  import opened DataLogFormat
  import opened DataLogControl
  import opened DataLogWriter

  lemma FourDigits(n: byte)
    ensures ToLittleEndian(n, 4) == [n, 0, 0, 0]
  {
    assert ToLittleEndian(0, 2) == [0] + ([0] + ToLittleEndian(0, 0));
    assert ToLittleEndian(n, 4) == [n] + ([0] + ToLittleEndian(0, 2));
  }

  lemma EightDigits(n: byte)
    ensures ToLittleEndian(n, 8) == [n, 0, 0, 0, 0, 0, 0, 0]
  {
    FourDigits(0);
    assert ToLittleEndian(0, 6) == [0] + ([0] + ToLittleEndian(0, 4));
    assert ToLittleEndian(n, 8) == [n] + ([0] + ToLittleEndian(0, 6));
  }

  /** The header of a file without an extra header. */
  lemma EmptyHeader()
    ensures FileHeader([]) == [0x57, 0x50, 0x49, 0x4c, 0x4f, 0x47, 0x00, 0x01, 0x00, 0x00, 0x00, 0x00]
  {
    FourDigits(0);
  }

  /** One second, in microseconds. */
  lemma OneSecond()
    ensures VarInt(1000000) == [0x40, 0x42, 0x0f]
  {
    assert VarInt(1000000) == [0x40] + VarInt(3906) && VarInt(3906) == [0x42] + VarInt(15);
  }

  /** The header of a record with a small id and size at that time. */
  lemma SecondHeader(entry: byte, size: byte)
    ensures HeaderBytes(entry, 1000000, size) == [0x20, entry, size, 0x40, 0x42, 0x0f]
  {
    OneSecond();
    assert VarInt(entry) == [entry] && VarInt(size) == [size];
  }

  /** The value 3 for entry 1. */
  lemma IntegerRecord()
    ensures Encode(Record(1, 1000000, ToLittleEndian(Unsigned64(3), 8)))
         == [0x20, 0x01, 0x08, 0x40, 0x42, 0x0f, 0x03, 0x00, 0x00, 0x00, 0x00, 0x00, 0x00, 0x00]
  {
    hide HeaderBytes;
    SecondHeader(1, 8);
    EightDigits(3);
  }

  /** An entry "test" of type "int64" with id 1 is started. */
  lemma StartRecord()
    ensures Encode(Record(0, 1000000, StartPayload(1, [0x74, 0x65, 0x73, 0x74], [0x69, 0x6e, 0x74, 0x36, 0x34], [])))
         == [0x20, 0x00, 0x1a, 0x40, 0x42, 0x0f, 0x00, 0x01, 0x00, 0x00, 0x00, 0x04, 0x00, 0x00, 0x00,
             0x74, 0x65, 0x73, 0x74, 0x05, 0x00, 0x00, 0x00, 0x69, 0x6e, 0x74, 0x36, 0x34, 0x00, 0x00, 0x00, 0x00]
  {
    hide HeaderBytes, ToLittleEndian;
    FourDigits(0);
    FourDigits(1);
    FourDigits(4);
    FourDigits(5);
    SecondHeader(0, 26);
  }

  /** The entry is finished. */
  lemma FinishRecord()
    ensures Encode(Record(0, 1000000, ControlPayload(CONTROL_FINISH, 1)))
         == [0x20, 0x00, 0x05, 0x40, 0x42, 0x0f, 0x01, 0x01, 0x00, 0x00, 0x00]
  {
    hide HeaderBytes, ToLittleEndian;
    FourDigits(1);
    SecondHeader(0, 5);
  }

  /** Its metadata is set to {"source":"NT"}. */
  lemma MetadataRecord()
    ensures var text := [0x7b, 0x22, 0x73, 0x6f, 0x75, 0x72, 0x63, 0x65, 0x22, 0x3a, 0x22, 0x4e, 0x54, 0x22, 0x7d];
            Encode(Record(0, 1000000, MetadataPayload(1, text)))
            == [0x20, 0x00, 0x18, 0x40, 0x42, 0x0f, 0x02, 0x01, 0x00, 0x00, 0x00, 0x0f, 0x00, 0x00, 0x00] + text
  {
    hide HeaderBytes, ToLittleEndian;
    FourDigits(1);
    FourDigits(15);
    SecondHeader(0, 24);
  }
}
