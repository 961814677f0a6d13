/** Limits that several components share. */
module Constants {
  /** device/constants.go: the first nonce that is not used any more. */
  const REJECT_AFTER_MESSAGES := 0x1_0000_0000_0000_0000 - 0x2000 - 1

  /** conn/conn.go: how many packets a batch holds. */
  const IDEAL_BATCH_SIZE := 128
}
