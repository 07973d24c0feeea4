/** The packet types shared by the buffers, the protocol and the codecs (packet.rs, control.rs, loss_list.rs). */
module Packets {
  import opened SeqNumbers
  import opened Timestamps

  type Byte = b: int | 0 <= b < 0x100
  type U16 = w: int | 0 <= w < 0x1_0000
  type U32 = w: int | 0 <= w < 0x1_0000_0000
  type MsgNumber = n: int | 0 <= n < 0x400_0000
  type Bytes = seq<Byte>

  /** Position of a packet within its message (the PP field). */
  datatype Position = First | Middle | Last | Single

  /** Which key protects the payload (the KK field). */
  datatype Encryption = Clear | Even | Odd

  datatype DataPacket = DataPacket(
    number: SeqNumber,
    position: Position,
    inOrder: bool,
    encryption: Encryption,
    retransmitted: bool,
    message: MsgNumber,
    timestamp: Timestamp,
    dest: U32,
    payload: Bytes)

  /** An inclusive range of lost sequence numbers. */
  datatype LossRange = LossRange(start: SeqNumber, end: SeqNumber)
}
