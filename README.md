# Regtest wallet provisioning and payment inspection, in Dafny

This project models the two pieces of logic in a Bitcoin regtest script
(`rust/src/main.rs`). The rest of the script is RPC plumbing.

1. **Wallet provisioning** (`ensure_wallet`). The node is modelled as state: its
   wallet directory, its loaded wallets, the requests it refuses, and a log
   of every request issued to it. `Provisioning.Provision` specifies the
   procedure on a value of that state. It lists the wallet directory and
   creates the wallet if it is missing. It then lists the loaded wallets and
   loads the wallet if it is missing. Finally it builds a client for
   `http://127.0.0.1:18443/wallet/<name>`. The first refused request ends the
   procedure with that request's error, as the `?` operators do.
   `RegtestNode.Node` is the same node as an object whose fields the
   requests update. `RegtestNode.EnsureWallet` is the procedure written as
   that sequence of calls, and it is proved equal to `Provision`.
2. **Payment inspection** (the second half of `main`). `Inspection` models
   these steps:
   - read the wallet's entry for the payment: decode it, default a missing
     fee to zero, require a confirming block hash, and fetch that block's
     height;
   - resolve the first input to the output it spends;
   - sort the outputs into a recipient slot and a change slot. This is a
     loop in which a later output overwrites an earlier one in the same
     slot.

   `Summary.Render` chooses, for each slot, between its value and the
   "N/A"/zero placeholder.

Node queries are passed in as functions from their argument to the node's
reply. Address derivation (`Address::from_script` for regtest) is passed in
as an uninterpreted partial function `Script -> Option<Address>`. Amounts are
natural numbers of satoshis. The fee is a signed integer.

Rust's `unwrap`, `expect` and indexing without a prior bounds check (which
panics) abort the program. In the model, each of them becomes a `Failure`
value:
- `Undecodable`: the transaction in the wallet entry does not decode;
- `NotConfirmed`: the entry has no block hash;
- `NoInputs`: the transaction has no inputs;
- `VoutOutOfRange`: the input's output index is past the spent transaction's outputs;
- `NoAddress`: a script has no address.

A node call's error becomes `Rpc`.

Bitcoin Core's `createwallet` also loads the wallet it creates. The node state
therefore has a flag, `createLoads`, for that behaviour. Line 49 lists the
loaded wallets after any create, so `loadwallet` is issued exactly when the
wallet is not loaded at that point. That is: the wallet was not loaded
before, and it was either already in the directory or the node's create
does not load (`LoadedAfterCreate`).

Three behaviours of the code are worth stating outright, and the model
keeps them as written:
- a `createwallet` that fails aborts provisioning, whatever the error is,
  including "already exists";
- the fee is kept as the node reports it, sign included, and for a send it
  is negative;
- the summary holds ten values, in the order the code writes them.

## Model

| member | source | states |
|---|---|---|
| `Provisioning.Provision` | rust/src/main.rs:38-62 | Only `name` can be added to the directory and to the loaded set, and nothing is removed. On success the wallet is in both sets and the handle's endpoint is the base URL, then `/wallet/`, then the name. A consistent node stays consistent. |
| `Provisioning.Connect` | rust/src/main.rs:56-61 | Building the client logs one request and changes nothing else. It succeeds exactly when that request is not refused, and the handle's endpoint is the wallet's URL. |
| `Provisioning.LoadAndConnect` | rust/src/main.rs:48-61 | The second half leaves the directory alone, and it can add only `name` to the loaded set. On success the wallet is loaded and the handle's endpoint is the wallet's URL. |
| `Provisioning.LoadAndConnectIssues` | rust/src/main.rs:48-61 | The second half issues the listing, a load only when the wallet is not loaded, and the client construction, stopping at the first refusal. Its result is decided by the last request issued. |
| `Provisioning.DirectoryRefused` | rust/src/main.rs:40-46 | A refused directory listing, or a refused create, ends provisioning with that request's error. Nothing after it is issued. |
| `Provisioning.ProvisionFollowsPlan` | rust/src/main.rs:40-60 | The requests issued are the plan (list the directory, create if missing, list the loaded wallets, load if not loaded, open the client) up to the first refused one. The result is that request's error, or the handle when none is refused. |
| `Provisioning.ProvisionAborts` | rust/src/main.rs:40-60 | Every issued request except the last was accepted. The call fails exactly when the last issued request was refused, and then with that request's error. It succeeds exactly when no planned request is refused. |
| `Provisioning.CreateOnlyWhenMissing` | rust/src/main.rs:40-46 | Exactly one `createwallet` for the name when the directory listing succeeds and lacks it. None otherwise. |
| `Provisioning.LoadOnlyWhenUnloaded` | rust/src/main.rs:48-53 | Exactly one `loadwallet` for the name when every earlier request and the listing succeed and the wallet is not loaded at that point. None otherwise. |
| `Provisioning.ProvisionTouchesOnlyName` | rust/src/main.rs:40-53 | No `createwallet` and no `loadwallet` is ever issued for another wallet. |
| `Provisioning.ProvisionIdempotent` | rust/src/main.rs:38-62 | After a successful call, a second call with the same name on a node that refuses the same requests returns the same handle. It issues only the two listings and the client construction (no create, no load) and leaves both sets unchanged. |
| `Provisioning.SecondProvisionChangesNothing` | rust/src/main.rs:38-62 | After a successful call, a second call with the same name leaves both sets unchanged, whatever the node refuses this time. It issues a nonempty prefix of the two listings and the client construction, so never a create or a load. |
| `Provisioning.UpToFailureStops` | rust/src/main.rs:40-60 | The issued prefix stops at the first refusal: all earlier requests were accepted, and the last one is refused exactly when some planned request is refused. |
| `RegtestNode.Node.ListWalletDir` | rust/src/main.rs:40 | Logs the request and returns the directory's names, or the node's error. |
| `RegtestNode.Node.CreateWallet` | rust/src/main.rs:45 | Logs the request. Unless refused, it adds the wallet to the directory, and loads it when the node's create loads. |
| `RegtestNode.Node.ListWallets` | rust/src/main.rs:49 | Logs the request and returns the loaded names, or the node's error. |
| `RegtestNode.Node.LoadWallet` | rust/src/main.rs:52 | Logs the request. Unless refused, it adds the wallet to the loaded set. |
| `RegtestNode.Node.OpenClient` | rust/src/main.rs:57-60 | Logs the client construction and returns a handle for the URL, or the error. |
| `RegtestNode.EnsureWallet` | rust/src/main.rs:38-62 | The result and the node's new state are those `Provision` gives for the old state. |
| `RegtestNode.ProvisionMinerAndTrader` | rust/src/main.rs:74-79 | The node ends exactly as provisioning "Miner" and then, only if that succeeded, "Trader" leaves it. The first error is returned. When both calls succeed, "Miner" and "Trader" are both in the directory and loaded, with their own endpoints. No other wallet is added. |
| `Inspection.ReadDetails` | rust/src/main.rs:115-124 | A failed `gettransaction` or block query is returned as `Rpc`. An undecodable entry fails, and so does a missing block hash (`NotConfirmed`). Otherwise it yields the decoded transaction, the block hash and the block's height. A missing fee becomes 0 and a present fee is passed through unchanged. |
| `Inspection.ResolveInput` | rust/src/main.rs:126-132 | Succeeds exactly when these four hold: there is an input, the spent transaction is returned, the index is below its output count, and that output's script has an address. The result is that output's value and derived address. No input gives `NoInputs`. A refused `getrawtransaction` gives `Rpc` with its error. An index past the end gives `VoutOutOfRange`. A script without an address gives `NoAddress` with that script. |
| `Inspection.LastInSlotIsLast` | rust/src/main.rs:135-146 | A slot is filled exactly when some output belongs in it. It then holds the address and value of an output in that slot after which no output belongs in it. |
| `Inspection.ClassifyOutputs` | rust/src/main.rs:134-146 | Succeeds exactly when every output has an address. The slots are then the last recipient-address output and the last other output. On failure the error names the first output without an address. |
| `Inspection.TwoOutputsFillBothSlots` | rust/src/main.rs:136-146 | With two outputs of which exactly one pays the recipient, each slot holds its own output, and the two addresses differ. |
| `Inspection.SomeSlotFilled` | rust/src/main.rs:136-146 | With at least one output, all addressable, at least one slot is filled. |
| `Inspection.Inspect` | rust/src/main.rs:114-146 | The first failure among reading details, resolving the input and classifying is returned unchanged. A classification failure is `NoAddress` for the first output without an address. An unconfirmed payment never yields a record. Otherwise the record holds the funding address and amount, the two slots, the fee, and the block's height and hash. |
| `Summary.Render` | rust/src/main.rs:151-188 | An empty slot gives "N/A" and 0, and a filled slot gives its address text and amount. The fee is written as reported, sign included. The other values pass through in order. |
| `Summary.RecipientLines` | rust/src/main.rs:154-169 | When no output pays the recipient, the recipient lines are "N/A"/0. Otherwise they show the recipient's address and the value of the last output paying it. |
| `Summary.ChangeLines` | rust/src/main.rs:170-185 | When every output pays the recipient, the change lines are "N/A"/0. Otherwise they show the address and value of the last output that does not. |

## Left out

- RPC transport and authentication: the credentials (lines 13-14) and how `Client::new` connects (lines 57-60, 66-69). Building the wallet client is modelled only as a request that may fail.
- The `send` helper (lines 19-36): nothing calls it, and it is a thin wrapper over a generic RPC call.
- `get_blockchain_info` (line 72): its result is unused, and its possible error is not modelled.
- Funding and paying (lines 82-112): `get_new_address`, `require_network`, `generate_to_address` (the 101-block coinbase maturity is a node rule), `send_to_address` and `Amount::from_btc`. These are effects on the node. Line 90 asks for a Trader address and discards it.
- `Address::from_script` internals: it stays an uninterpreted partial function. An address equals another exactly when their texts are equal.
- Decimal rendering of amounts (`to_btc`, floating point) and the file writes (lines 149-188): the summary holds the values the lines are written from, with amounts in satoshis.
- Integer widths: `Amount` (u64), `SignedAmount` (i64) and the block height (usize) are unbounded integers in the model. Only the output index is a 32-bit `u32`.
- The `include_watchonly` argument of `get_transaction` and the wallet that serves each query: queries are plain functions of their argument.
- Refusals that change over time: the requests a node refuses are fixed for the node's whole life. `ProvisionIdempotent` relies on this for its second call. `SecondProvisionChangesNothing` lets the second call face any refusals, but it does not pin that call's result.
- Aborting the process: a panic or a `?` error is returned as a `Failure` or `RpcError` value, and nothing after it runs.
