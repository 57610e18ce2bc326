// The row types handed from the parser to the store and the sink.
module Rows {
  import opened Bytes

  const BLOCK_HEADER_LEN: nat := 80

  datatype BlockRow = BlockRow(
    height: u32, hash: Hash, prevHash: Hash, merkleRoot: Hash,
    time: u32, bits: u32, nonce: u32, version: int,
    txCount: u32, size: u32, weight: u32, totalFee: u64, coinbaseValue: u64)

  datatype TxRow = TxRow(
    height: u32, txIndex: u32, txid: Hash, version: int, locktime: u32,
    size: u32, weight: u32, fee: u64, inputCount: u32, outputCount: u32, hasWitness: bool)

  datatype InputRow = InputRow(
    height: u32, txIndex: u32, inputIndex: u32, txid: Hash,
    prevTxid: Hash, prevVout: u32, scriptSigLen: u32, sequence: u32,
    witnessItems: u32, witnessBytes: u32, isCoinbase: bool)

  datatype OutputRow = OutputRow(
    height: u32, txIndex: u32, outputIndex: u32, txid: Hash,
    valueSat: u64, scriptPubkeyLen: u32, scriptType: byte, addressHash: Hash)

  datatype SpendRow = SpendRow(
    height: u32, spendingTxIndex: u32, spendingInputIndex: u32, spendingTxid: Hash,
    spentTxid: Hash, spentVout: u32,
    spentValueSat: u64, spentScriptType: byte, spentAddressHash: Hash, spentHeight: u32)

  /** A fully parsed block. */
  datatype FullBlock = FullBlock(
    blockRow: BlockRow, txs: seq<TxRow>, inputs: seq<InputRow>, outputs: seq<OutputRow>)

  /** Where a block record lies in the block files; `recordLen` includes the 8-byte prefix. */
  datatype BlockLocation = BlockLocation(fileId: u32, offset: u64, recordLen: u32)
}
