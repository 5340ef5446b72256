/** A packet as it leaves the protobuf decoder.  The checksum field is checked and
    dropped on the way in; see PacketChecksum. */
module Wire {
  import opened Basics

  datatype Packet = Packet(
    fileHash: u64,
    blockId: u32,
    totalBlocks: u32,
    symbolId: u32,
    kSymbols: u32,
    nSymbols: u32,
    fileSize: u64,
    content: Bytes
  )
}
