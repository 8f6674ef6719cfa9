/** Idempotent wallet provisioning (`ensure_wallet`), specified on an
    abstract snapshot of the node: which wallets are in its wallet
    directory, which are loaded, which requests it refuses, and the log of
    every request issued to it. */
module Provisioning {
  import opened Rpc

  /** Base URL of the regtest node's RPC endpoint. */
  const RpcUrl: string := "http://127.0.0.1:18443"

  /** The endpoint of the client scoped to wallet `name`: the base URL, then
      `/wallet/`, then the name exactly as given (no escaping). */
  function WalletUrl(name: string): string {
    RpcUrl + "/wallet/" + name
  }

  /** A request issued while provisioning. Building the wallet-scoped client
      is included because it too can fail. */
  datatype Call =
    | ListWalletDir
    | ListWallets
    | CreateWallet(name: string)
    | LoadWallet(name: string)
    | OpenClient(url: string)

  /** The wallet-scoped client returned to the caller. */
  datatype WalletHandle = WalletHandle(endpoint: string)

  /** What the procedure can observe of, and do to, the node.
      `createLoads` says whether `createwallet` also loads the new wallet
      (Bitcoin Core's does); `failures` maps each request the node (or the
      client library) refuses to the error it answers with. */
  datatype NodeState = NodeState(
    walletDir: set<string>,
    loaded: set<string>,
    createLoads: bool,
    failures: map<Call, RpcError>,
    log: seq<Call>)

  /** A node only loads wallets that are in its wallet directory. */
  predicate Consistent(s: NodeState) {
    s.loaded <= s.walletDir
  }

  /** The change an accepted request makes to the node. */
  function Effect(s: NodeState, c: Call): NodeState {
    match c
    case CreateWallet(n) =>
      s.(walletDir := s.walletDir + {n},
         loaded := if s.createLoads then s.loaded + {n} else s.loaded)
    case LoadWallet(n) => s.(loaded := s.loaded + {n})
    case _ => s
  }

  /** Issuing a request logs it; a refused request changes nothing else. */
  function Issue(s: NodeState, c: Call): NodeState {
    var logged := s.(log := s.log + [c]);
    if c in s.failures then logged else Effect(logged, c)
  }

  /** The reply to request `c`: its error if the node refuses it, `v` if not. */
  function Answer<T>(s: NodeState, c: Call, v: T): Result<T, RpcError> {
    if c in s.failures then Err(s.failures[c]) else Ok(v)
  }

  /** The requests issued between snapshots `s` and `t`. */
  function Issued(s: NodeState, t: NodeState): seq<Call>
    requires s.log <= t.log
  {
    t.log[|s.log|..]
  }

  /** Building the client scoped to `name`. */
  function Connect(s: NodeState, name: string): (p: (Result<WalletHandle, RpcError>, NodeState))
    ensures p.1 == s.(log := s.log + [OpenClient(WalletUrl(name))])
    ensures p.0.Ok? <==> OpenClient(WalletUrl(name)) !in s.failures
    ensures p.0.Ok? ==> p.0.value.endpoint == WalletUrl(name)
  {
    var url := WalletUrl(name);
    (Answer(s, OpenClient(url), WalletHandle(url)), Issue(s, OpenClient(url)))
  }

  /** The second half of `ensure_wallet`: list the loaded wallets, load
      `name` if it is not among them, then build its client. */
  function LoadAndConnect(s: NodeState, name: string): (p: (Result<WalletHandle, RpcError>, NodeState))
    ensures s.log <= p.1.log
    ensures p.1.failures == s.failures && p.1.createLoads == s.createLoads
    ensures p.1.walletDir == s.walletDir
    ensures s.loaded <= p.1.loaded <= s.loaded + {name}
    ensures p.0.Ok? ==> name in p.1.loaded && p.0.value.endpoint == WalletUrl(name)
  {
    var s1 := Issue(s, ListWallets);
    match Answer(s, ListWallets, s.loaded)
    case Err(e) => (Err(e), s1)
    case Ok(loadedNames) =>
      if name in loadedNames then Connect(s1, name)
      else
        var s2 := Issue(s1, LoadWallet(name));
        if LoadWallet(name) in s.failures then (Err(s.failures[LoadWallet(name)]), s2)
        else Connect(s2, name)
  }

  /** `ensure_wallet(name)` run against node `s`: the result and the node
      afterwards. It lists the wallet directory and creates `name` if it is
      missing, then goes on with `LoadAndConnect`; each step happens only if
      every earlier one succeeded. */
  function Provision(s: NodeState, name: string): (p: (Result<WalletHandle, RpcError>, NodeState))
    ensures s.log <= p.1.log
    ensures p.1.failures == s.failures && p.1.createLoads == s.createLoads
    ensures s.walletDir <= p.1.walletDir <= s.walletDir + {name}
    ensures s.loaded <= p.1.loaded <= s.loaded + {name}
    ensures p.0.Ok? ==> name in p.1.walletDir && name in p.1.loaded
    ensures p.0.Ok? ==> p.0.value.endpoint == RpcUrl + "/wallet/" + name
    ensures Consistent(s) ==> Consistent(p.1)
  {
    var s1 := Issue(s, ListWalletDir);
    match Answer(s, ListWalletDir, s.walletDir)
    case Err(e) => (Err(e), s1)
    case Ok(names) =>
      if name in names then LoadAndConnect(s1, name)
      else
        var s2 := Issue(s1, CreateWallet(name));
        if CreateWallet(name) in s.failures then (Err(s.failures[CreateWallet(name)]), s2)
        else LoadAndConnect(s2, name)
  }

  /** Whether `name` is loaded once the directory step has succeeded:
      it was loaded already, or it has just been created by a node whose
      `createwallet` loads. */
  predicate LoadedAfterCreate(s: NodeState, name: string) {
    name in s.loaded || (name !in s.walletDir && s.createLoads)
  }

  /** The requests `ensure_wallet` issues before it lists the loaded wallets. */
  function DirectoryStep(s: NodeState, name: string): seq<Call> {
    [ListWalletDir] + (if name in s.walletDir then [] else [CreateWallet(name)])
  }

  /** The directory step (list the directory, create the wallet if missing)
      went through without a refusal. */
  predicate DirectoryStepAccepted(s: NodeState, name: string) {
    ListWalletDir !in s.failures && (name !in s.walletDir ==> CreateWallet(name) !in s.failures)
  }

  /** The requests `LoadAndConnect` issues when `loaded` says whether the
      wallet is loaded and none is refused. */
  function LoadPlan(loaded: bool, name: string): seq<Call> {
    [ListWallets] + (if loaded then [] else [LoadWallet(name)]) + [OpenClient(WalletUrl(name))]
  }

  /** The requests `ensure_wallet(name)` issues against `s` when none is refused. */
  function Plan(s: NodeState, name: string): seq<Call> {
    DirectoryStep(s, name) + LoadPlan(LoadedAfterCreate(s, name), name)
  }

  /** The requests of `cs` up to and including the first one refused. */
  function UpToFailure(cs: seq<Call>, failures: map<Call, RpcError>): seq<Call> {
    if cs == [] then []
    else if cs[0] in failures then [cs[0]]
    else [cs[0]] + UpToFailure(cs[1..], failures)
  }

  /** What `ensure_wallet` returns once it has issued `issued`: the error of
      the last request if that one was refused, the wallet's handle if not. */
  function Verdict(failures: map<Call, RpcError>, name: string, issued: seq<Call>): Result<WalletHandle, RpcError>
    requires issued != []
  {
    var last := issued[|issued| - 1];
    if last in failures then Err(failures[last]) else Ok(WalletHandle(WalletUrl(name)))
  }

  lemma UpToFailureCons(c: Call, rest: seq<Call>, failures: map<Call, RpcError>)
    ensures UpToFailure([c] + rest, failures)
         == if c in failures then [c] else [c] + UpToFailure(rest, failures)
  {
    assert ([c] + rest)[1..] == rest;
  }

  /** Accepted requests in front of a plan are all issued. */
  lemma {:induction false} UpToFailureAppend(pre: seq<Call>, rest: seq<Call>, failures: map<Call, RpcError>)
    requires forall c | c in pre :: c !in failures
    ensures UpToFailure(pre + rest, failures) == pre + UpToFailure(rest, failures)
  {
    if pre != [] {
      assert pre + rest == [pre[0]] + (pre[1..] + rest);
      UpToFailureCons(pre[0], pre[1..] + rest, failures);
      assert forall c | c in pre[1..] :: c in pre;
      UpToFailureAppend(pre[1..], rest, failures);
      assert pre == [pre[0]] + pre[1..];
    } else {
      assert pre + rest == rest;
    }
  }

  /** Only the last issued request decides the verdict. */
  lemma VerdictOfLast(failures: map<Call, RpcError>, name: string, pre: seq<Call>, u: seq<Call>)
    requires u != []
    ensures Verdict(failures, name, pre + u) == Verdict(failures, name, u)
  {
    assert (pre + u)[|pre + u| - 1] == u[|u| - 1];
  }

  /** Building the client issues exactly that one request. */
  lemma ConnectIssues(s: NodeState, name: string)
    ensures Connect(s, name).1.log == s.log + UpToFailure([OpenClient(WalletUrl(name))], s.failures)
    ensures UpToFailure([OpenClient(WalletUrl(name))], s.failures) == [OpenClient(WalletUrl(name))]
    ensures Connect(s, name).0 == Verdict(s.failures, name, [OpenClient(WalletUrl(name))])
  {
    UpToFailureCons(OpenClient(WalletUrl(name)), [], s.failures);
  }

  /** The second half issues its own plan up to the first refusal. */
  lemma LoadAndConnectIssues(s: NodeState, name: string, loaded: bool)
    requires loaded <==> name in s.loaded
    ensures UpToFailure(LoadPlan(loaded, name), s.failures) != []
    ensures LoadAndConnect(s, name).1.log == s.log + UpToFailure(LoadPlan(loaded, name), s.failures)
    ensures LoadAndConnect(s, name).0 == Verdict(s.failures, name, UpToFailure(LoadPlan(loaded, name), s.failures))
  {
    var f := s.failures;
    var open := [OpenClient(WalletUrl(name))];
    var s1 := Issue(s, ListWallets);
    if name in s.loaded {
      assert LoadPlan(true, name) == [ListWallets] + open;
      UpToFailureCons(ListWallets, open, f);
      ConnectIssues(s1, name);
    } else {
      assert LoadPlan(false, name) == [ListWallets] + ([LoadWallet(name)] + open);
      UpToFailureCons(ListWallets, [LoadWallet(name)] + open, f);
      UpToFailureCons(LoadWallet(name), open, f);
      ConnectIssues(Issue(s1, LoadWallet(name)), name);
    }
  }

  /** What is issued when the directory step is refused: the listing alone
      if that is refused, the listing and the create if the create is. */
  function DirectoryRefusal(s: NodeState, name: string): seq<Call> {
    if ListWalletDir in s.failures then [ListWalletDir] else [ListWalletDir, CreateWallet(name)]
  }

  /** A refusal during the directory step ends provisioning there. */
  lemma DirectoryRefused(s: NodeState, name: string)
    requires !DirectoryStepAccepted(s, name)
    ensures UpToFailure(Plan(s, name), s.failures) == DirectoryRefusal(s, name)
    ensures Provision(s, name).1.log == s.log + DirectoryRefusal(s, name)
    ensures Provision(s, name).0 == Verdict(s.failures, name, DirectoryRefusal(s, name))
  {
    var f := s.failures;
    var rest := LoadPlan(LoadedAfterCreate(s, name), name);
    if ListWalletDir in f {
      assert Plan(s, name) == [ListWalletDir] + Plan(s, name)[1..];
      UpToFailureCons(ListWalletDir, Plan(s, name)[1..], f);
    } else {
      assert Plan(s, name) == [ListWalletDir] + ([CreateWallet(name)] + rest);
      UpToFailureCons(ListWalletDir, [CreateWallet(name)] + rest, f);
      UpToFailureCons(CreateWallet(name), rest, f);
    }
  }

  /** An accepted directory step leaves the node with that step logged and
      `name` loaded exactly when `LoadedAfterCreate` says, and provisioning
      continues with the second half on that node. */
  lemma DirectoryStepLeaves(s: NodeState, name: string) returns (sd: NodeState)
    requires DirectoryStepAccepted(s, name)
    ensures sd.log == s.log + DirectoryStep(s, name)
    ensures sd.failures == s.failures
    ensures name in sd.loaded <==> LoadedAfterCreate(s, name)
    ensures Provision(s, name) == LoadAndConnect(sd, name)
  {
    var s1 := Issue(s, ListWalletDir);
    if name in s.walletDir {
      sd := s1;
    } else {
      sd := Issue(s1, CreateWallet(name));
      assert s.log + DirectoryStep(s, name) == s.log + [ListWalletDir] + [CreateWallet(name)];
    }
  }

  /** Once the directory step is accepted, provisioning goes on with the
      second half on the node that step leaves. */
  lemma DirectoryAccepted(s: NodeState, name: string)
    requires DirectoryStepAccepted(s, name)
    ensures UpToFailure(Plan(s, name), s.failures)
         == DirectoryStep(s, name) + UpToFailure(LoadPlan(LoadedAfterCreate(s, name), name), s.failures)
    ensures UpToFailure(Plan(s, name), s.failures) != []
    ensures Provision(s, name).1.log == s.log + UpToFailure(Plan(s, name), s.failures)
    ensures Provision(s, name).0 == Verdict(s.failures, name, UpToFailure(Plan(s, name), s.failures))
  {
    var f := s.failures;
    var pre := DirectoryStep(s, name);
    var rest := LoadPlan(LoadedAfterCreate(s, name), name);
    var u := UpToFailure(rest, f);
    var sd := DirectoryStepLeaves(s, name);
    assert UpToFailure(Plan(s, name), f) == pre + u by {
      UpToFailureAppend(pre, rest, f);
    }
    assert u != [] && LoadAndConnect(sd, name).1.log == sd.log + u
        && LoadAndConnect(sd, name).0 == Verdict(f, name, u) by {
      LoadAndConnectIssues(sd, name, LoadedAfterCreate(s, name));
    }
    assert s.log + pre + u == s.log + (pre + u);
    VerdictOfLast(f, name, pre, u);
  }

  /** `ensure_wallet` issues the requests of its plan up to the first one
      refused, and no further; it returns that request's error, or the
      wallet's handle when none was refused. */
  lemma ProvisionFollowsPlan(s: NodeState, name: string)
    ensures UpToFailure(Plan(s, name), s.failures) != []
    ensures Provision(s, name).1.log == s.log + UpToFailure(Plan(s, name), s.failures)
    ensures Provision(s, name).0 == Verdict(s.failures, name, UpToFailure(Plan(s, name), s.failures))
  {
    if !DirectoryStepAccepted(s, name) {
      DirectoryRefused(s, name);
    } else {
      DirectoryAccepted(s, name);
    }
  }

  /** The issued requests are a prefix of the plan, and a nonempty plan
      issues at least its first request. */
  lemma {:induction false} UpToFailurePrefix(cs: seq<Call>, failures: map<Call, RpcError>)
    ensures UpToFailure(cs, failures) <= cs
    ensures cs != [] ==> UpToFailure(cs, failures) != []
  {
    if cs != [] && cs[0] !in failures {
      UpToFailurePrefix(cs[1..], failures);
      assert cs == [cs[0]] + cs[1..];
    }
  }

  /** Every issued request but the last was accepted. */
  lemma {:induction false} UpToFailureAcceptedBefore(cs: seq<Call>, failures: map<Call, RpcError>)
    ensures forall i | 0 <= i < |UpToFailure(cs, failures)| - 1 :: UpToFailure(cs, failures)[i] !in failures
  {
    if cs != [] && cs[0] !in failures {
      UpToFailureAcceptedBefore(cs[1..], failures);
      var u := UpToFailure(cs[1..], failures);
      assert UpToFailure(cs, failures) == [cs[0]] + u;
    }
  }

  /** The last issued request is refused exactly when some planned request is. */
  lemma {:induction false} UpToFailureLastRefused(cs: seq<Call>, failures: map<Call, RpcError>)
    requires cs != []
    ensures UpToFailure(cs, failures) != []
    ensures UpToFailure(cs, failures)[|UpToFailure(cs, failures)| - 1] in failures
       <==> exists c | c in cs :: c in failures
  {
    if cs[0] !in failures {
      if cs[1..] == [] {
        assert cs == [cs[0]];
      } else {
        UpToFailureLastRefused(cs[1..], failures);
        var u := UpToFailure(cs[1..], failures);
        assert UpToFailure(cs, failures) == [cs[0]] + u;
        assert forall c | c in cs[1..] :: c in cs;
        assert forall c | c in cs :: c == cs[0] || c in cs[1..];
      }
    }
  }

  /** A plan none of whose requests is refused is issued whole. */
  lemma {:induction false} UpToFailureWhole(cs: seq<Call>, failures: map<Call, RpcError>)
    requires forall c | c in cs :: c !in failures
    ensures UpToFailure(cs, failures) == cs
  {
    if cs != [] {
      assert forall c | c in cs[1..] :: c in cs;
      UpToFailureWhole(cs[1..], failures);
      assert cs == [cs[0]] + cs[1..];
    }
  }

  /** Issuing stops at the first refused request: every request before it was
      accepted, and a plan none of whose requests is refused is issued whole. */
  lemma UpToFailureStops(cs: seq<Call>, failures: map<Call, RpcError>)
    ensures UpToFailure(cs, failures) <= cs
    ensures cs != [] ==> UpToFailure(cs, failures) != []
    ensures forall i | 0 <= i < |UpToFailure(cs, failures)| - 1 :: UpToFailure(cs, failures)[i] !in failures
    ensures UpToFailure(cs, failures) != [] ==>
      (UpToFailure(cs, failures)[|UpToFailure(cs, failures)| - 1] in failures
       <==> exists c | c in cs :: c in failures)
    ensures (forall c | c in cs :: c !in failures) ==> UpToFailure(cs, failures) == cs
  {
    UpToFailurePrefix(cs, failures);
    UpToFailureAcceptedBefore(cs, failures);
    if cs != [] {
      UpToFailureLastRefused(cs, failures);
    }
    if forall c | c in cs :: c !in failures {
      UpToFailureWhole(cs, failures);
    }
  }

  /** A refused request aborts `ensure_wallet` with that request's error, and
      nothing after it is issued; it succeeds exactly when the node accepts
      every request of the plan. */
  lemma ProvisionAborts(s: NodeState, name: string)
    ensures var (r, t) := Provision(s, name);
      && Issued(s, t) != []
      && (forall i | 0 <= i < |Issued(s, t)| - 1 :: Issued(s, t)[i] !in s.failures)
      && (r.Err? <==> Issued(s, t)[|Issued(s, t)| - 1] in s.failures)
      && (r.Err? ==> r.error == s.failures[Issued(s, t)[|Issued(s, t)| - 1]])
      && (r.Ok? <==> forall c | c in Plan(s, name) :: c !in s.failures)
  {
    ProvisionFollowsPlan(s, name);
    UpToFailureStops(Plan(s, name), s.failures);
    var t := Provision(s, name).1;
    assert Issued(s, t) == UpToFailure(Plan(s, name), s.failures);
  }

  /** A prefix issues each request at most as often as the plan holds it. */
  lemma UpToFailureCount(cs: seq<Call>, failures: map<Call, RpcError>, c: Call)
    ensures multiset(UpToFailure(cs, failures))[c] <= multiset(cs)[c]
    ensures c !in cs ==> c !in UpToFailure(cs, failures)
  {
    UpToFailureStops(cs, failures);
    var u := UpToFailure(cs, failures);
    assert cs == u + cs[|u|..];
    assert multiset(cs) == multiset(u) + multiset(cs[|u|..]);
  }

  /** The issued prefix holds `createwallet` for the name exactly once when
      the directory listing succeeds and lacks it, and never otherwise. */
  lemma PlanCreateCount(s: NodeState, name: string)
    ensures multiset(UpToFailure(Plan(s, name), s.failures))[CreateWallet(name)]
         == if ListWalletDir !in s.failures && name !in s.walletDir then 1 else 0
  {
    var f := s.failures;
    var pre := DirectoryStep(s, name);
    var rest := LoadPlan(LoadedAfterCreate(s, name), name);
    UpToFailureCount(rest, f, CreateWallet(name));
    if !DirectoryStepAccepted(s, name) {
      DirectoryRefused(s, name);
    } else {
      DirectoryAccepted(s, name);
      var u := UpToFailure(rest, f);
      assert multiset(pre + u) == multiset(pre) + multiset(u);
    }
  }

  /** Exactly one `createwallet` is issued for a wallet missing from the
      directory listing (once the listing succeeds), and none for one present. */
  lemma CreateOnlyWhenMissing(s: NodeState, name: string)
    ensures multiset(Issued(s, Provision(s, name).1))[CreateWallet(name)]
         == if ListWalletDir !in s.failures && name !in s.walletDir then 1 else 0
  {
    ProvisionFollowsPlan(s, name);
    PlanCreateCount(s, name);
    assert Issued(s, Provision(s, name).1) == UpToFailure(Plan(s, name), s.failures);
  }

  /** In the second half, `loadwallet` is issued exactly once when the
      wallet is not loaded and the listing is accepted, and never otherwise. */
  lemma LoadPlanLoadCount(loaded: bool, name: string, f: map<Call, RpcError>)
    ensures multiset(UpToFailure(LoadPlan(loaded, name), f))[LoadWallet(name)]
         == if ListWallets !in f && !loaded then 1 else 0
  {
    if loaded {
      LoadedPlanIssues(name, f);
    } else {
      UnloadedPlanIssues(name, f);
    }
  }

  lemma LoadedPlanIssues(name: string, f: map<Call, RpcError>)
    ensures multiset(UpToFailure(LoadPlan(true, name), f))[LoadWallet(name)] == 0
  {
    UpToFailureCount(LoadPlan(true, name), f, LoadWallet(name));
  }

  lemma UnloadedPlanIssues(name: string, f: map<Call, RpcError>)
    ensures multiset(UpToFailure(LoadPlan(false, name), f))[LoadWallet(name)]
         == if ListWallets !in f then 1 else 0
  {
    assert LoadPlan(false, name) == [ListWallets, LoadWallet(name), OpenClient(WalletUrl(name))];
    SecondOfThreeCount(ListWallets, LoadWallet(name), OpenClient(WalletUrl(name)), f);
  }

  /** In a three-request plan, the middle request is issued once exactly
      when the first is accepted. */
  lemma SecondOfThreeCount(a: Call, b: Call, c: Call, f: map<Call, RpcError>)
    requires a != b && c != b
    ensures multiset(UpToFailure([a, b, c], f))[b] == if a !in f then 1 else 0
  {
    var u := UpToFailure([a, b, c], f);
    if a in f {
      assert u == [a] by {
        assert [a, b, c] == [a] + [b, c];
        UpToFailureCons(a, [b, c], f);
      }
    } else {
      var v := UpToFailure([b, c], f);
      assert u == [a] + v by {
        assert [a, b, c] == [a] + [b, c];
        UpToFailureCons(a, [b, c], f);
      }
      assert multiset(v)[b] == 1 by {
        assert [b, c] == [b] + [c];
        UpToFailureCons(b, [c], f);
        UpToFailureCons(c, [], f);
        assert v == [b] || v == [b, c];
      }
      assert multiset(u)[b] == multiset(v)[b] by {
        assert multiset(u) == multiset([a]) + multiset(v);
      }
    }
  }

  /** The issued prefix holds `loadwallet` for the name exactly once when
      every request before it is accepted and the wallet is not loaded at
      that point, and never otherwise. */
  lemma PlanLoadCount(s: NodeState, name: string)
    ensures multiset(UpToFailure(Plan(s, name), s.failures))[LoadWallet(name)]
         == if DirectoryStepAccepted(s, name) && ListWallets !in s.failures && !LoadedAfterCreate(s, name)
            then 1 else 0
  {
    var f := s.failures;
    var pre := DirectoryStep(s, name);
    LoadPlanLoadCount(LoadedAfterCreate(s, name), name, f);
    if !DirectoryStepAccepted(s, name) {
      DirectoryRefused(s, name);
    } else {
      DirectoryAccepted(s, name);
      var u := UpToFailure(LoadPlan(LoadedAfterCreate(s, name), name), f);
      assert multiset(pre + u) == multiset(pre) + multiset(u);
    }
  }

  /** Exactly one `loadwallet` is issued for a wallet that is not loaded when
      the loaded wallets are listed (once the earlier requests and that
      listing succeed), and none for one that is. */
  lemma LoadOnlyWhenUnloaded(s: NodeState, name: string)
    ensures multiset(Issued(s, Provision(s, name).1))[LoadWallet(name)]
         == if DirectoryStepAccepted(s, name) && ListWallets !in s.failures && !LoadedAfterCreate(s, name)
            then 1 else 0
  {
    ProvisionFollowsPlan(s, name);
    PlanLoadCount(s, name);
    assert Issued(s, Provision(s, name).1) == UpToFailure(Plan(s, name), s.failures);
  }

  /** `ensure_wallet(name)` never creates or loads any other wallet. */
  lemma ProvisionTouchesOnlyName(s: NodeState, name: string, other: string)
    requires other != name
    ensures CreateWallet(other) !in Issued(s, Provision(s, name).1)
    ensures LoadWallet(other) !in Issued(s, Provision(s, name).1)
  {
    var plan := Plan(s, name);
    ProvisionFollowsPlan(s, name);
    assert Issued(s, Provision(s, name).1) == UpToFailure(plan, s.failures);
    UpToFailureCount(plan, s.failures, CreateWallet(other));
    UpToFailureCount(plan, s.failures, LoadWallet(other));
  }

  /** After a successful `ensure_wallet`, a second call for the same wallet,
      whatever the node refuses this time, leaves the directory and the
      loaded set as they are and issues at most the two listings and the
      client construction: never a `createwallet` and never a `loadwallet`. */
  lemma SecondProvisionChangesNothing(s: NodeState, name: string, refusals: map<Call, RpcError>)
    requires Provision(s, name).0.Ok?
    ensures var t := Provision(s, name).1.(failures := refusals);
      && Provision(t, name).1.walletDir == t.walletDir
      && Provision(t, name).1.loaded == t.loaded
      && Issued(t, Provision(t, name).1) <= [ListWalletDir, ListWallets, OpenClient(WalletUrl(name))]
      && Issued(t, Provision(t, name).1) != []
  {
    var t := Provision(s, name).1.(failures := refusals);
    var three := [ListWalletDir, ListWallets, OpenClient(WalletUrl(name))];
    assert name in t.walletDir && name in t.loaded;
    assert Provision(t, name).1.walletDir == t.walletDir && Provision(t, name).1.loaded == t.loaded;
    assert Issued(t, Provision(t, name).1) == UpToFailure(three, refusals) by {
      ProvisionFollowsPlan(t, name);
      assert Plan(t, name) == three;
    }
    UpToFailurePrefix(three, refusals);
  }

  /** A second `ensure_wallet` for the same wallet, with nothing changed on
      the node in between, returns the same handle, issues no `createwallet`
      and no `loadwallet`, and leaves the directory and the loaded set as
      they were. */
  lemma ProvisionIdempotent(s: NodeState, name: string)
    requires Provision(s, name).0.Ok?
    ensures var t := Provision(s, name).1;
      && Provision(t, name).0 == Provision(s, name).0
      && Provision(t, name).1
         == t.(log := t.log + [ListWalletDir, ListWallets, OpenClient(WalletUrl(name))])
  {
  }
}
