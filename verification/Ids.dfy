/** Fixed-size identifiers. */
module Ids {
  import opened Bytes

  type Bytes16 = b: seq<byte> | |b| == 16 witness Zeros(16)
  type Bytes32 = b: seq<byte> | |b| == 32 witness Zeros(32)

  type SessionId = Bytes16
  type RandomnessId = Bytes16
  type VerifierId = Bytes32
  type ProverId = Bytes32
  type Nonce = Bytes32
}
