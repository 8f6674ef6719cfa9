/** Reconstruction of a confirmed payment's details from what the node
    reports about it: the wallet's view of the transaction (decoded form,
    fee, confirming block), the confirming block's height, the transaction
    its first input spends, and the address each locking script pays.

    Node queries are read-only, so each one is a function from its argument
    to the node's reply. Deriving an address from a script is rust-bitcoin's
    `Address::from_script` for regtest: a partial function that is not
    modelled, only passed in; where the code unwraps it, `None` is fatal. */
module Inspection {
  import opened Rpc

  /** A 32-bit unsigned integer (an output index). */
  newtype u32 = x: int | 0 <= x < 0x1_0000_0000

  type Hash = seq<bv8>
  type Script = seq<bv8>

  /** An address; its text is what `to_string` renders. */
  datatype Address = Address(text: string)

  datatype OutPoint = OutPoint(txid: Hash, vout: u32)
  datatype TxIn = TxIn(previousOutput: OutPoint)
  /** An output: its value in satoshis and its locking script. */
  datatype TxOut = TxOut(value: nat, scriptPubkey: Script)
  datatype Transaction = Transaction(input: seq<TxIn>, output: seq<TxOut>)

  /** The wallet's answer to `gettransaction`: the decoded transaction (`None`
      when its hex does not decode), the fee in satoshis when the wallet
      knows it (signed, as the node reports it), and the confirming block. */
  datatype WalletTx = WalletTx(decoded: Option<Transaction>, fee: Option<int>, blockhash: Option<Hash>)

  /** Why a reconstruction stops: a node call's error (returned with `?`), or
      one of the conditions the code unwraps, expects or indexes without a
      check, each of which aborts the program. */
  datatype Failure =
    | Rpc(error: RpcError)
    | Undecodable
    | NotConfirmed
    | NoInputs
    | VoutOutOfRange(vout: u32, outputs: nat)
    | NoAddress(script: Script)

  /** What the transaction's wallet entry and its block give. */
  datatype Details = Details(tx: Transaction, fee: int, blockHash: Hash, blockHeight: nat)

  /** The funding input's source: the address and the amount of the output it spends. */
  datatype Funding = Funding(address: Address, amount: nat)

  /** An output assigned to a slot: its derived address and its value. */
  datatype Payment = Payment(address: Address, amount: nat)

  /** The two slots the classification loop fills. */
  datatype Slots = Slots(recipient: Option<Payment>, change: Option<Payment>)

  datatype TxRecord = TxRecord(
    txid: Hash,
    inputAddress: Address,
    inputAmount: nat,
    recipientOutput: Option<Payment>,
    changeOutput: Option<Payment>,
    fee: int,
    blockHeight: nat,
    blockHash: Hash)

  /** The wallet entry for the payment, then its confirming block: decode the
      transaction, default a missing fee to zero, insist on a block hash,
      and ask for that block's height. */
  function ReadDetails(entry: Result<WalletTx, RpcError>, getBlockHeight: Hash -> Result<nat, RpcError>): (r: Result<Details, Failure>)
    ensures entry.Err? ==> r == Err(Rpc(entry.error))
    ensures entry.Ok? && entry.value.decoded.None? ==> r == Err(Undecodable)
    ensures entry.Ok? && entry.value.decoded.Some? && entry.value.blockhash.None? ==> r == Err(NotConfirmed)
    ensures entry.Ok? && entry.value.decoded.Some? && entry.value.blockhash.Some?
         && getBlockHeight(entry.value.blockhash.value).Err?
         ==> r == Err(Rpc(getBlockHeight(entry.value.blockhash.value).error))
    ensures r.Ok? <==>
      && entry.Ok? && entry.value.decoded.Some? && entry.value.blockhash.Some?
      && getBlockHeight(entry.value.blockhash.value).Ok?
    ensures r.Ok? ==>
      && r.value.tx == entry.value.decoded.value
      && r.value.blockHash == entry.value.blockhash.value
      && getBlockHeight(r.value.blockHash) == Ok(r.value.blockHeight)
      && (entry.value.fee.None? ==> r.value.fee == 0)
      && (entry.value.fee.Some? ==> r.value.fee == entry.value.fee.value)
  {
    match entry
    case Err(e) => Err(Rpc(e))
    case Ok(w) =>
      match w.decoded
      case None => Err(Undecodable)
      case Some(tx) =>
        var fee := match w.fee case Some(f) => f case None => 0;
        match w.blockhash
        case None => Err(NotConfirmed)
        case Some(hash) =>
          match getBlockHeight(hash)
          case Err(e) => Err(Rpc(e))
          case Ok(height) => Ok(Details(tx, fee, hash, height))
  }

  /** The funding input (the first input only): fetch the transaction it
      spends and take the output at its index. It needs an input, a
      previous transaction the node returns, an index below that
      transaction's output count, and a script that has an address. */
  function ResolveInput(tx: Transaction, getRawTransaction: Hash -> Result<Transaction, RpcError>, derive: Script -> Option<Address>): (r: Result<Funding, Failure>)
    ensures |tx.input| == 0 ==> r == Err(NoInputs)
    ensures r.Ok? <==>
      && |tx.input| > 0
      && getRawTransaction(tx.input[0].previousOutput.txid).Ok?
      && (tx.input[0].previousOutput.vout as int) < |getRawTransaction(tx.input[0].previousOutput.txid).value.output|
      && derive(getRawTransaction(tx.input[0].previousOutput.txid).value.output[tx.input[0].previousOutput.vout].scriptPubkey).Some?
    ensures r.Ok? ==>
      var spent := getRawTransaction(tx.input[0].previousOutput.txid).value.output[tx.input[0].previousOutput.vout];
      && r.value.amount == spent.value
      && derive(spent.scriptPubkey) == Some(r.value.address)
    ensures |tx.input| > 0 && getRawTransaction(tx.input[0].previousOutput.txid).Err?
         ==> r == Err(Rpc(getRawTransaction(tx.input[0].previousOutput.txid).error))
    ensures |tx.input| > 0 && getRawTransaction(tx.input[0].previousOutput.txid).Ok?
         && (tx.input[0].previousOutput.vout as int) >= |getRawTransaction(tx.input[0].previousOutput.txid).value.output|
         ==> r == Err(VoutOutOfRange(tx.input[0].previousOutput.vout, |getRawTransaction(tx.input[0].previousOutput.txid).value.output|))
    ensures |tx.input| > 0 && getRawTransaction(tx.input[0].previousOutput.txid).Ok?
         && (tx.input[0].previousOutput.vout as int) < |getRawTransaction(tx.input[0].previousOutput.txid).value.output|
         && derive(getRawTransaction(tx.input[0].previousOutput.txid).value.output[tx.input[0].previousOutput.vout].scriptPubkey).None?
         ==> r == Err(NoAddress(getRawTransaction(tx.input[0].previousOutput.txid).value.output[tx.input[0].previousOutput.vout].scriptPubkey))
  {
    if |tx.input| == 0 then Err(NoInputs)
    else
      var outpoint := tx.input[0].previousOutput;
      match getRawTransaction(outpoint.txid)
      case Err(e) => Err(Rpc(e))
      case Ok(prev) =>
        if outpoint.vout as int >= |prev.output| then Err(VoutOutOfRange(outpoint.vout, |prev.output|))
        else
          var spent := prev.output[outpoint.vout];
          match derive(spent.scriptPubkey)
          case None => Err(NoAddress(spent.scriptPubkey))
          case Some(address) => Ok(Funding(address, spent.value))
  }

  /** Every output's script has an address. */
  predicate AllAddressable(outputs: seq<TxOut>, derive: Script -> Option<Address>) {
    forall j | 0 <= j < |outputs| :: derive(outputs[j].scriptPubkey).Some?
  }

  /** Whether `out` goes to the recipient slot (`toRecipient`) or to the
      change slot (`!toRecipient`): its address equals the recipient's, or
      differs from it. An output without an address goes to neither. */
  predicate InSlot(out: TxOut, derive: Script -> Option<Address>, recipient: Address, toRecipient: bool) {
    derive(out.scriptPubkey).Some? && (derive(out.scriptPubkey).value == recipient) == toRecipient
  }

  /** The payment of the last output that belongs in the slot, if any. */
  function LastInSlot(outputs: seq<TxOut>, derive: Script -> Option<Address>, recipient: Address, toRecipient: bool): Option<Payment>
  {
    if outputs == [] then None
    else
      var out := outputs[|outputs| - 1];
      if InSlot(out, derive, recipient, toRecipient) then Some(Payment(derive(out.scriptPubkey).value, out.value))
      else LastInSlot(outputs[..|outputs| - 1], derive, recipient, toRecipient)
  }

  /** A slot is filled exactly when some output belongs in it, and then it
      holds the last such output's address and value: no later output
      belongs in it. */
  lemma {:induction false} LastInSlotIsLast(outputs: seq<TxOut>, derive: Script -> Option<Address>, recipient: Address, toRecipient: bool)
    ensures LastInSlot(outputs, derive, recipient, toRecipient).Some?
        <==> exists j | 0 <= j < |outputs| :: InSlot(outputs[j], derive, recipient, toRecipient)
    ensures LastInSlot(outputs, derive, recipient, toRecipient).Some? ==>
      exists j | 0 <= j < |outputs| ::
        && InSlot(outputs[j], derive, recipient, toRecipient)
        && LastInSlot(outputs, derive, recipient, toRecipient)
           == Some(Payment(derive(outputs[j].scriptPubkey).value, outputs[j].value))
        && forall k | j < k < |outputs| :: !InSlot(outputs[k], derive, recipient, toRecipient)
  {
    if outputs != [] {
      var n := |outputs| - 1;
      var init := outputs[..n];
      LastInSlotIsLast(init, derive, recipient, toRecipient);
      assert forall j | 0 <= j < n :: init[j] == outputs[j];
      if !InSlot(outputs[n], derive, recipient, toRecipient) {
        if LastInSlot(init, derive, recipient, toRecipient).Some? {
          var j :| 0 <= j < n && InSlot(init[j], derive, recipient, toRecipient)
            && LastInSlot(init, derive, recipient, toRecipient)
               == Some(Payment(derive(init[j].scriptPubkey).value, init[j].value))
            && forall k | j < k < n :: !InSlot(init[k], derive, recipient, toRecipient);
          assert InSlot(outputs[j], derive, recipient, toRecipient);
        }
      }
    }
  }

  /** The output loop: derive each output's address (an output without one
      aborts), and put it in the recipient slot when it is the recipient's
      address, in the change slot otherwise; a later output overwrites an
      earlier one in the same slot. */
  method ClassifyOutputs(outputs: seq<TxOut>, derive: Script -> Option<Address>, recipient: Address)
    returns (r: Result<Slots, Failure>)
    ensures r.Ok? <==> AllAddressable(outputs, derive)
    ensures r.Ok? ==> r.value == Slots(LastInSlot(outputs, derive, recipient, true),
                                       LastInSlot(outputs, derive, recipient, false))
    ensures r.Err? ==> exists j | 0 <= j < |outputs| ::
      && derive(outputs[j].scriptPubkey).None?
      && r.error == NoAddress(outputs[j].scriptPubkey)
      && forall k | 0 <= k < j :: derive(outputs[k].scriptPubkey).Some?
  {
    var recipientOutput: Option<Payment> := None;
    var changeOutput: Option<Payment> := None;
    for i := 0 to |outputs|
      invariant forall k | 0 <= k < i :: derive(outputs[k].scriptPubkey).Some?
      invariant recipientOutput == LastInSlot(outputs[..i], derive, recipient, true)
      invariant changeOutput == LastInSlot(outputs[..i], derive, recipient, false)
    {
      var out := outputs[i];
      assert outputs[..i + 1][..i] == outputs[..i];
      match derive(out.scriptPubkey)
      case None =>
        return Err(NoAddress(out.scriptPubkey));
      case Some(address) =>
        if address == recipient {
          recipientOutput := Some(Payment(address, out.value));
        } else {
          changeOutput := Some(Payment(address, out.value));
        }
    }
    assert outputs[..|outputs|] == outputs;
    r := Ok(Slots(recipientOutput, changeOutput));
  }

  /** With exactly two outputs, one paying the recipient and one not, both
      slots are filled, each with its own output, and their addresses differ. */
  lemma TwoOutputsFillBothSlots(outputs: seq<TxOut>, derive: Script -> Option<Address>, recipient: Address)
    requires |outputs| == 2 && AllAddressable(outputs, derive)
    requires InSlot(outputs[0], derive, recipient, true) != InSlot(outputs[1], derive, recipient, true)
    ensures var paid := if InSlot(outputs[0], derive, recipient, true) then 0 else 1;
      && LastInSlot(outputs, derive, recipient, true)
         == Some(Payment(derive(outputs[paid].scriptPubkey).value, outputs[paid].value))
      && LastInSlot(outputs, derive, recipient, false)
         == Some(Payment(derive(outputs[1 - paid].scriptPubkey).value, outputs[1 - paid].value))
    ensures LastInSlot(outputs, derive, recipient, true).value.address
         != LastInSlot(outputs, derive, recipient, false).value.address
  {
    assert outputs[..1] == [outputs[0]];
    assert [outputs[0]][..0] == [];
  }

  /** A transaction with at least one output, all of them with an address,
      never leaves both slots empty. */
  lemma SomeSlotFilled(outputs: seq<TxOut>, derive: Script -> Option<Address>, recipient: Address)
    requires |outputs| > 0 && AllAddressable(outputs, derive)
    ensures LastInSlot(outputs, derive, recipient, true).Some?
         || LastInSlot(outputs, derive, recipient, false).Some?
  {
    var j := |outputs| - 1;
    LastInSlotIsLast(outputs, derive, recipient, true);
    LastInSlotIsLast(outputs, derive, recipient, false);
    if InSlot(outputs[j], derive, recipient, true) {
    } else {
      assert InSlot(outputs[j], derive, recipient, false);
    }
  }

  /** The inspection half of `main`: the wallet entry and block of the
      payment `txid`, its funding input, and its outputs sorted into the
      recipient and change slots; the first failure ends it. */
  method Inspect(
    txid: Hash,
    getTransaction: Hash -> Result<WalletTx, RpcError>,
    getBlockHeight: Hash -> Result<nat, RpcError>,
    getRawTransaction: Hash -> Result<Transaction, RpcError>,
    derive: Script -> Option<Address>,
    recipient: Address)
    returns (r: Result<TxRecord, Failure>)
    ensures ReadDetails(getTransaction(txid), getBlockHeight).Err? ==>
      r == Err(ReadDetails(getTransaction(txid), getBlockHeight).error)
    ensures getTransaction(txid).Ok? && getTransaction(txid).value.blockhash.None? ==> r.Err?
    ensures ReadDetails(getTransaction(txid), getBlockHeight).Ok? ==>
      var d := ReadDetails(getTransaction(txid), getBlockHeight).value;
      && (ResolveInput(d.tx, getRawTransaction, derive).Err? ==>
            r == Err(ResolveInput(d.tx, getRawTransaction, derive).error))
      && (r.Ok? <==> ResolveInput(d.tx, getRawTransaction, derive).Ok? && AllAddressable(d.tx.output, derive))
      && (ResolveInput(d.tx, getRawTransaction, derive).Ok? && !AllAddressable(d.tx.output, derive) ==>
            exists j | 0 <= j < |d.tx.output| ::
              && derive(d.tx.output[j].scriptPubkey).None?
              && r == Err(NoAddress(d.tx.output[j].scriptPubkey))
              && forall k | 0 <= k < j :: derive(d.tx.output[k].scriptPubkey).Some?)
      && (r.Ok? ==>
            var f := ResolveInput(d.tx, getRawTransaction, derive).value;
            r.value == TxRecord(txid, f.address, f.amount,
                                LastInSlot(d.tx.output, derive, recipient, true),
                                LastInSlot(d.tx.output, derive, recipient, false),
                                d.fee, d.blockHeight, d.blockHash))
  {
    var details :- ReadDetails(getTransaction(txid), getBlockHeight);
    var funding :- ResolveInput(details.tx, getRawTransaction, derive);
    var slots :- ClassifyOutputs(details.tx.output, derive, recipient);
    r := Ok(TxRecord(txid, funding.address, funding.amount, slots.recipient, slots.change,
                     details.fee, details.blockHeight, details.blockHash));
  }
}
