/** The values the summary file is written from, one per line in the
    order `main` writes them. Only the choice between a slot's value and its
    placeholder is modelled: amounts stay in satoshis rather than being
    rendered as decimal bitcoin. */
module Summary {
  import opened Rpc
  import opened Inspection

  /** What an empty slot's address line shows. */
  const Placeholder: string := "N/A"

  datatype SummaryLines = SummaryLines(
    txid: Hash,
    inputAddress: string,
    inputAmount: nat,
    recipientAddress: string,
    recipientAmount: nat,
    changeAddress: string,
    changeAmount: nat,
    fee: int,
    blockHeight: nat,
    blockHash: Hash)

  function AddressLine(slot: Option<Payment>): string {
    match slot
    case Some(p) => p.address.text
    case None => Placeholder
  }

  function AmountLine(slot: Option<Payment>): nat {
    match slot
    case Some(p) => p.amount
    case None => 0
  }

  /** The summary of a reconstructed record: an empty slot shows "N/A" and
      a zero amount, a filled one its address and amount; the fee is
      written as reported, sign included. */
  function Render(rec: TxRecord): (s: SummaryLines)
    ensures rec.recipientOutput.None? ==> s.recipientAddress == Placeholder && s.recipientAmount == 0
    ensures rec.recipientOutput.Some? ==>
      s.recipientAddress == rec.recipientOutput.value.address.text
      && s.recipientAmount == rec.recipientOutput.value.amount
    ensures rec.changeOutput.None? ==> s.changeAddress == Placeholder && s.changeAmount == 0
    ensures rec.changeOutput.Some? ==>
      s.changeAddress == rec.changeOutput.value.address.text
      && s.changeAmount == rec.changeOutput.value.amount
    ensures s.fee == rec.fee
    ensures s.inputAddress == rec.inputAddress.text && s.inputAmount == rec.inputAmount
    ensures s.txid == rec.txid && s.blockHeight == rec.blockHeight && s.blockHash == rec.blockHash
  {
    SummaryLines(
      rec.txid,
      rec.inputAddress.text,
      rec.inputAmount,
      AddressLine(rec.recipientOutput),
      AmountLine(rec.recipientOutput),
      AddressLine(rec.changeOutput),
      AmountLine(rec.changeOutput),
      rec.fee,
      rec.blockHeight,
      rec.blockHash)
  }

  /** For a record whose slots come from classifying `outputs`: when no
      output pays the recipient's address, the recipient lines show "N/A"
      and zero; otherwise they show the address and value of the last output
      that does. */
  lemma RecipientLines(rec: TxRecord, outputs: seq<TxOut>, derive: Script -> Option<Address>, recipient: Address)
    requires rec.recipientOutput == LastInSlot(outputs, derive, recipient, true)
    ensures (forall j | 0 <= j < |outputs| :: !InSlot(outputs[j], derive, recipient, true)) ==>
      Render(rec).recipientAddress == Placeholder && Render(rec).recipientAmount == 0
    ensures (exists j | 0 <= j < |outputs| :: InSlot(outputs[j], derive, recipient, true)) ==>
      exists j | 0 <= j < |outputs| ::
        && InSlot(outputs[j], derive, recipient, true)
        && (forall k | j < k < |outputs| :: !InSlot(outputs[k], derive, recipient, true))
        && Render(rec).recipientAddress == recipient.text
        && Render(rec).recipientAmount == outputs[j].value
  {
    LastInSlotIsLast(outputs, derive, recipient, true);
  }

  /** Likewise for the change lines: when every output pays the recipient,
      "N/A" and zero; otherwise the last output that does not. */
  lemma ChangeLines(rec: TxRecord, outputs: seq<TxOut>, derive: Script -> Option<Address>, recipient: Address)
    requires rec.changeOutput == LastInSlot(outputs, derive, recipient, false)
    ensures (forall j | 0 <= j < |outputs| :: !InSlot(outputs[j], derive, recipient, false)) ==>
      Render(rec).changeAddress == Placeholder && Render(rec).changeAmount == 0
    ensures (exists j | 0 <= j < |outputs| :: InSlot(outputs[j], derive, recipient, false)) ==>
      exists j | 0 <= j < |outputs| ::
        && InSlot(outputs[j], derive, recipient, false)
        && (forall k | j < k < |outputs| :: !InSlot(outputs[k], derive, recipient, false))
        && Render(rec).changeAddress == derive(outputs[j].scriptPubkey).value.text
        && Render(rec).changeAmount == outputs[j].value
  {
    LastInSlotIsLast(outputs, derive, recipient, false);
  }
}
