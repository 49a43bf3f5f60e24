/**
 The control messages the two ends exchange, as values. Their wire form is in
 `Codec`; here are the constants they share and what an ACK means.
 */
module Control {
  import opened Word64

  const MAX_WINDOW: nat := 1024
  const MASK_WORDS: nat := 16
  const RWND_UNLIMITED: nat := 0xFFFF_FFFF

  datatype Ack = Ack(
    streamId: nat, base: nat, mask: seq<uint64>, echo: nat, nonce: nat, rwnd: nat)
  {
    /** Every ACK carries the whole bitmask. */
    ghost predicate WellFormed() { |mask| == MASK_WORDS }

    /** Does the selective part say that `base + i` arrived? */
    predicate Selects(i: nat)
      requires WellFormed()
    {
      i < MAX_WINDOW && Bit(mask[i / 64], i % 64)
    }
  }

  datatype Nack = Nack(streamId: nat, missing: seq<nat>)
}
