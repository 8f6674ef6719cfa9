/** The node as the Rust code drives it: an object whose wallet directory,
    loaded wallets and request log change as requests are issued, and
    `ensure_wallet` written as the sequence of calls it makes, each one
    ending the procedure with its error when the node refuses it. */
module RegtestNode {
  import opened Rpc
  import P = Provisioning

  class Node {
    var walletDir: set<string>
    var loaded: set<string>
    const createLoads: bool
    const failures: map<P.Call, RpcError>
    var log: seq<P.Call>

    /** The node's state as the provisioning specification sees it. */
    function State(): P.NodeState
      reads this
    {
      P.NodeState(walletDir, loaded, createLoads, failures, log)
    }

    constructor (walletDir: set<string>, loaded: set<string>, createLoads: bool, failures: map<P.Call, RpcError>)
      ensures State() == P.NodeState(walletDir, loaded, createLoads, failures, [])
    {
      this.walletDir := walletDir;
      this.loaded := loaded;
      this.createLoads := createLoads;
      this.failures := failures;
      this.log := [];
    }

    /** `listwalletdir`: the names of the wallets in the node's wallet directory. */
    method ListWalletDir() returns (r: Result<set<string>, RpcError>)
      modifies this
      ensures State() == P.Issue(old(State()), P.ListWalletDir)
      ensures r == P.Answer(old(State()), P.ListWalletDir, old(walletDir))
    {
      r := P.Answer(State(), P.ListWalletDir, walletDir);
      log := log + [P.ListWalletDir];
    }

    /** `listwallets`: the names of the loaded wallets. */
    method ListWallets() returns (r: Result<set<string>, RpcError>)
      modifies this
      ensures State() == P.Issue(old(State()), P.ListWallets)
      ensures r == P.Answer(old(State()), P.ListWallets, old(loaded))
    {
      r := P.Answer(State(), P.ListWallets, loaded);
      log := log + [P.ListWallets];
    }

    /** `createwallet name`: adds the wallet to the directory, and loads it
        when this node's `createwallet` does. */
    method CreateWallet(name: string) returns (r: Result<(), RpcError>)
      modifies this
      ensures State() == P.Issue(old(State()), P.CreateWallet(name))
      ensures r == P.Answer(old(State()), P.CreateWallet(name), ())
    {
      var call := P.CreateWallet(name);
      r := P.Answer(State(), call, ());
      log := log + [call];
      if call !in failures {
        walletDir := walletDir + {name};
        if createLoads {
          loaded := loaded + {name};
        }
      }
    }

    /** `loadwallet name`. */
    method LoadWallet(name: string) returns (r: Result<(), RpcError>)
      modifies this
      ensures State() == P.Issue(old(State()), P.LoadWallet(name))
      ensures r == P.Answer(old(State()), P.LoadWallet(name), ())
    {
      var call := P.LoadWallet(name);
      r := P.Answer(State(), call, ());
      log := log + [call];
      if call !in failures {
        loaded := loaded + {name};
      }
    }

    /** Builds a client for `url` with the node's credentials. */
    method OpenClient(url: string) returns (r: Result<P.WalletHandle, RpcError>)
      modifies this
      ensures State() == P.Issue(old(State()), P.OpenClient(url))
      ensures r == P.Answer(old(State()), P.OpenClient(url), P.WalletHandle(url))
    {
      var call := P.OpenClient(url);
      r := P.Answer(State(), call, P.WalletHandle(url));
      log := log + [call];
    }
  }

  /** `ensure_wallet(rpc, name)`: create the wallet if the directory lacks
      it, load it if it is not loaded, and return a client scoped to it. */
  method EnsureWallet(node: Node, name: string) returns (r: Result<P.WalletHandle, RpcError>)
    modifies node
    ensures (r, node.State()) == P.Provision(old(node.State()), name)
  {
    var walletNames :- node.ListWalletDir();
    if name !in walletNames {
      var created :- node.CreateWallet(name);
    }
    var loadedWallets :- node.ListWallets();
    if name !in loadedWallets {
      var loadedNow :- node.LoadWallet(name);
    }
    r := node.OpenClient(P.WalletUrl(name));
  }

  /** The start of `main`: provision "Miner", then "Trader" only if "Miner"
      succeeded. The node ends as the two provisionings leave it, in that
      order; when both succeed, both wallets are in the directory and
      loaded, and each handle is scoped to its own wallet. */
  method ProvisionMinerAndTrader(node: Node) returns (r: Result<(P.WalletHandle, P.WalletHandle), RpcError>)
    modifies node
    ensures r.Ok? ==> {"Miner", "Trader"} <= node.walletDir && {"Miner", "Trader"} <= node.loaded
    ensures r.Ok? ==> r.value.0.endpoint == P.RpcUrl + "/wallet/Miner"
    ensures r.Ok? ==> r.value.1.endpoint == P.RpcUrl + "/wallet/Trader"
    ensures old(node.walletDir) <= node.walletDir <= old(node.walletDir) + {"Miner", "Trader"}
    ensures old(node.loaded) <= node.loaded <= old(node.loaded) + {"Miner", "Trader"}
    ensures var m := P.Provision(old(node.State()), "Miner");
      && (m.0.Err? ==> r == Err(m.0.error) && node.State() == m.1)
      && (m.0.Ok? ==>
            var t := P.Provision(m.1, "Trader");
            && node.State() == t.1
            && (t.0.Err? ==> r == Err(t.0.error))
            && (t.0.Ok? ==> r == Ok((m.0.value, t.0.value))))
  {
    var miner :- EnsureWallet(node, "Miner");
    var trader :- EnsureWallet(node, "Trader");
    r := Ok((miner, trader));
  }
}
