/** The bounded EIP-1967 implementation chain, read over a call-limited RPC client. */
module ProxyChain {
  import opened Basics
  import opened Bytecode

  const MAX_HTTP_REQUESTS := 32
  const MAX_RPC_CALLS := 28
  const MAX_PROXY_HOPS := 4
  const MAX_CODE_BYTES := 128 * 1024

  /** The 20 bytes of an account address. */
  type Address = seq<Byte>

  datatype Error =
    | ProxyCycle | AmbiguousProxy | UnsupportedDispatch | ProxyDepthExceeded
    | InvalidProxySlot | InvalidProxyBeacon | NoContractCode | ResultTooLarge
    | RpcCallLimit | HttpRequestLimit
    | Upstream(code: string)

  datatype Result<+T> = Ok(value: T) | Err(error: Error)

  /** What the endpoint answers to the n-th call of a resolution.  Any answer may be a failure,
      and nothing makes two answers to one question agree. */
  datatype World = World(
    code: (nat, Address) -> Result<seq<Byte>>,
    implementationSlot: (nat, Address) -> Result<seq<Byte>>,
    beaconSlot: (nat, Address) -> Result<seq<Byte>>,
    beaconImplementation: (nat, Address) -> Result<seq<Byte>>)

  /** Endpoint failures are none of this module's own errors. */
  ghost predicate Faithful(w: World) {
    forall n: nat, a: Address ::
      && (w.code(n, a).Err? ==> w.code(n, a).error.Upstream?)
      && (w.implementationSlot(n, a).Err? ==> w.implementationSlot(n, a).error.Upstream?)
      && (w.beaconSlot(n, a).Err? ==> w.beaconSlot(n, a).error.Upstream?)
      && (w.beaconImplementation(n, a).Err? ==> w.beaconImplementation(n, a).error.Upstream?)
  }

  /** keccak does not collide, so the code stands for its hash. */
  datatype CodeIdentity = CodeIdentity(address: Address, code: seq<Byte>)

  datatype Hop = Hop(proxy: CodeIdentity, implementation: Address, beacon: Option<CodeIdentity>)

  datatype Resolution = Resolution(target: CodeIdentity, effective: CodeIdentity, hops: seq<Hop>)

  // ------------------------------------------------------------------ reading one account

  predicate Zeros(bytes: seq<Byte>) { forall i :: 0 <= i < |bytes| ==> bytes[i] == 0 }

  function Identity(reply: Result<seq<Byte>>, a: Address): Result<CodeIdentity> {
    match reply
    case Err(e) => Err(e)
    case Ok(raw) =>
      if |raw| > MAX_CODE_BYTES then Err(ResultTooLarge)
      else if raw == [] then Err(NoContractCode)
      else Ok(CodeIdentity(a, raw))
  }

  /** An address slot: absent when zero, malformed unless 12 zero bytes lead a 32-byte word. */
  function SlotAddress(reply: Result<seq<Byte>>): Result<Option<Address>> {
    match reply
    case Err(e) => Err(e)
    case Ok(raw) =>
      if |raw| > 32 then Err(ResultTooLarge)
      else if |raw| != 32 || !Zeros(raw[..12]) then Err(InvalidProxySlot)
      else if Zeros(raw[12..]) then Ok(None)
      else Ok(Some(raw[12..]))
  }

  function BeaconAddress(reply: Result<seq<Byte>>): Result<Address> {
    match reply
    case Err(e) => Err(e)
    case Ok(raw) =>
      if |raw| > 32 then Err(ResultTooLarge)
      else if |raw| != 32 || !Zeros(raw[..12]) || Zeros(raw[12..]) then Err(InvalidProxyBeacon)
      else Ok(raw[12..])
  }

  datatype Account =
    | Direct(identity: CodeIdentity)
    | Proxy(identity: CodeIdentity, implementation: Address)
    | BeaconProxy(identity: CodeIdentity, beacon: Address)
    | Unreadable(error: Error)

  /** What the code and the two slots of `a` say, asked from call `n` on. */
  function Read(w: World, n: nat, a: Address): Account {
    match Identity(w.code(n, a), a)
    case Err(e) => Unreadable(e)
    case Ok(identity) =>
      match SlotAddress(w.implementationSlot(n + 1, a))
      case Err(e) => Unreadable(e)
      case Ok(implementation) =>
        match SlotAddress(w.beaconSlot(n + 2, a))
        case Err(e) => Unreadable(e)
        case Ok(beacon) =>
          if implementation.Some? && beacon.Some? then Unreadable(AmbiguousProxy)
          else if implementation.Some? then Proxy(identity, implementation.value)
          else if beacon.Some? then BeaconProxy(identity, beacon.value)
          else Direct(identity)
  }

  /** The hop out of a proxy whose chain has visited `visited`, asked from call `n` on. */
  function Forward(w: World, n: nat, account: Account, visited: set<Address>): Result<Hop>
    requires account.Proxy? || account.BeaconProxy?
  {
    match account
    case Proxy(identity, implementation) => Ok(Hop(identity, implementation, None))
    case BeaconProxy(identity, beacon) =>
      if beacon in visited then Err(ProxyCycle)
      else
        match Identity(w.code(n, beacon), beacon)
        case Err(e) => Err(e)
        case Ok(beaconIdentity) =>
          match BeaconAddress(w.beaconImplementation(n + 1, beacon))
          case Err(e) => Err(e)
          case Ok(implementation) =>
            if implementation == beacon then Err(ProxyCycle)
            else Ok(Hop(identity, implementation, Some(beaconIdentity)))
  }

  function Visited(hops: seq<Hop>): set<Address> { set h | h in hops :: h.proxy.address }

  /** How many calls these hops took. */
  function Calls(hops: seq<Hop>): (n: nat)
    ensures n <= 5 * |hops|
  {
    if hops == [] then 0
    else Calls(hops[..|hops| - 1]) + if hops[|hops| - 1].beacon.Some? then 5 else 3
  }

  /** What `a` says when it is reached by the hops that started with call `n`. */
  function Asked(w: World, n: nat, hops: seq<Hop>, a: Address): Account { Read(w, n + Calls(hops), a) }

  predicate IsProxy(account: Account) { account.Proxy? || account.BeaconProxy? }

  /** The hop out of the proxy `a`, when it is reached by the hops that started with call `n`. */
  function Left(w: World, n: nat, hops: seq<Hop>, a: Address): Result<Hop>
    requires IsProxy(Asked(w, n, hops, a))
  {
    Forward(w, n + Calls(hops) + 3, Asked(w, n, hops, a), Visited(hops) + {a})
  }

  /** The walk from `current`, which the hops that started with call `n` lead to. */
  ghost function Walk(w: World, n: nat, hops: seq<Hop>, current: Address): Result<Resolution>
    requires |hops| <= MAX_PROXY_HOPS
    decreases MAX_PROXY_HOPS - |hops|
  {
    if current in Visited(hops) then Err(ProxyCycle)
    else
      match Asked(w, n, hops, current)
      case Unreadable(e) => Err(e)
      case Direct(identity) =>
        if hops == [] && Dispatches(Stripped(identity.code)) then Err(UnsupportedDispatch)
        else Ok(Resolution(if hops == [] then identity else hops[0].proxy, identity, hops))
      case _ =>
        if |hops| >= MAX_PROXY_HOPS then Err(ProxyDepthExceeded)
        else
          match Left(w, n, hops, current)
          case Err(e) => Err(e)
          case Ok(hop) => Walk(w, n, hops + [hop], hop.implementation)
  }

  // ------------------------------------------------------------------ what a resolution proves

  /** Hop `i` is what the account it starts from says when the hops before it lead there. */
  ghost predicate Follows(w: World, n: nat, hops: seq<Hop>, i: nat)
    requires i < |hops|
  {
    var a := hops[i].proxy.address;
    IsProxy(Asked(w, n, hops[..i], a)) && Left(w, n, hops[..i], a) == Ok(hops[i])
  }

  /** Distinct proxies, each leading to the next, the last leading to `last`. */
  ghost predicate Links(w: World, n: nat, start: Address, hops: seq<Hop>, last: Address) {
    && (if hops == [] then last == start else hops[0].proxy.address == start && hops[|hops| - 1].implementation == last)
    && (forall i :: 0 <= i < |hops| - 1 ==> hops[i].implementation == hops[i + 1].proxy.address)
    && (forall i, j :: 0 <= i < j < |hops| ==> hops[i].proxy.address != hops[j].proxy.address)
    && (forall i :: 0 <= i < |hops| ==> Follows(w, n, hops, i))
  }

  /** A resolution of `start`: at most four hops of distinct proxies linking it to a contract
      that is no proxy and was not visited; a direct target has no dynamic dispatch. */
  ghost predicate Resolves(w: World, n: nat, start: Address, r: Resolution) {
    && |r.hops| <= MAX_PROXY_HOPS
    && Links(w, n, start, r.hops, r.effective.address)
    && Asked(w, n, r.hops, r.effective.address) == Direct(r.effective)
    && r.effective.address !in Visited(r.hops)
    && r.target == (if r.hops == [] then r.effective else r.hops[0].proxy)
    && (r.hops == [] ==> !Dispatches(Stripped(r.effective.code)))
  }

  lemma VisitedSnoc(hops: seq<Hop>, hop: Hop)
    ensures Visited(hops + [hop]) == Visited(hops) + {hop.proxy.address}
  {
    forall h | h in hops + [hop] ensures h.proxy.address in Visited(hops) + {hop.proxy.address} {}
    assert forall h :: h in hops ==> h in hops + [hop];
    assert hop in hops + [hop];
  }

  lemma CallsSnoc(hops: seq<Hop>, hop: Hop)
    ensures Calls(hops + [hop]) == Calls(hops) + if hop.beacon.Some? then 5 else 3
  {
    assert (hops + [hop])[..|hops|] == hops;
  }

  lemma NoHops()
    ensures Calls([]) == 0 && Visited([]) == {}
  {
  }

  lemma LeftNames(w: World, n: nat, hops: seq<Hop>, a: Address)
    requires IsProxy(Asked(w, n, hops, a)) && Left(w, n, hops, a).Ok?
    ensures Left(w, n, hops, a).value.proxy.address == a
  {
  }

  lemma DirectNames(w: World, n: nat, hops: seq<Hop>, a: Address)
    requires Asked(w, n, hops, a).Direct?
    ensures Asked(w, n, hops, a).identity.address == a
  {
  }

  lemma LinksSnoc(w: World, n: nat, start: Address, hops: seq<Hop>, current: Address, hop: Hop)
    requires Links(w, n, start, hops, current) && current !in Visited(hops)
    requires IsProxy(Asked(w, n, hops, current)) && Left(w, n, hops, current) == Ok(hop)
    ensures Links(w, n, start, hops + [hop], hop.implementation)
  {
    hide Asked, Left, Calls;
    var more := hops + [hop];
    LeftNames(w, n, hops, current);
    forall i | 0 <= i < |more| ensures Follows(w, n, more, i) {
      if i < |hops| {
        assert more[..i] == hops[..i] && more[i] == hops[i];
        assert Follows(w, n, hops, i);
      } else {
        assert more[..i] == hops;
      }
    }
    forall i | 0 <= i < |hops| ensures hops[i].proxy.address != current { assert hops[i] in hops; }
  }

  /** A walk that returns proves a resolution. */
  lemma {:induction false} WalkSound(w: World, n: nat, start: Address, hops: seq<Hop>, current: Address)
    requires |hops| <= MAX_PROXY_HOPS && Links(w, n, start, hops, current)
    requires Walk(w, n, hops, current).Ok?
    ensures Resolves(w, n, start, Walk(w, n, hops, current).value)
    decreases MAX_PROXY_HOPS - |hops|
  {
    hide Links, Asked, Left, Calls;
    var account := Asked(w, n, hops, current);
    if IsProxy(account) {
      var hop := Left(w, n, hops, current).value;
      LinksSnoc(w, n, start, hops, current, hop);
      WalkSound(w, n, start, hops + [hop], hop.implementation);
    } else {
      DirectNames(w, n, hops, current);
    }
  }

  /** The walk finds every resolution: started after its first `k` hops, it returns it. */
  lemma {:induction false} WalkComplete(w: World, n: nat, start: Address, r: Resolution, k: nat)
    requires Resolves(w, n, start, r) && k <= |r.hops|
    ensures Walk(w, n, r.hops[..k], if k < |r.hops| then r.hops[k].proxy.address else r.effective.address) == Ok(r)
    decreases |r.hops| - k
  {
    hide Asked, Left, Calls;
    var hops := r.hops[..k];
    if k < |r.hops| {
      var hop := r.hops[k];
      var a := hop.proxy.address;
      assert r.hops[..k + 1] == hops + [hop];
      forall h | h in hops ensures h.proxy.address != a {
        var i :| 0 <= i < k && hops[i] == h;
      }
      assert Follows(w, n, r.hops, k);
      WalkComplete(w, n, start, r, k + 1);
    } else {
      assert hops == r.hops;
    }
  }

  /** The walk returns `r` exactly when `r` is a resolution of the requested address. */
  lemma WalkResolves(w: World, n: nat, start: Address, r: Resolution)
    ensures Walk(w, n, [], start) == Ok(r) <==> Resolves(w, n, start, r)
  {
    hide Walk, Links;
    if Walk(w, n, [], start) == Ok(r) {
      NoLinks(w, n, start);
      WalkSound(w, n, start, [], start);
    }
    if Resolves(w, n, start, r) {
      ResolvesFrom(w, n, start, r);
      WalkComplete(w, n, start, r, 0);
      assert r.hops[..0] == [];
    }
  }

  lemma NoLinks(w: World, n: nat, start: Address)
    ensures Links(w, n, start, [], start)
  {
  }

  lemma ResolvesFrom(w: World, n: nat, start: Address, r: Resolution)
    requires Resolves(w, n, start, r)
    ensures (if r.hops == [] then r.effective.address else r.hops[0].proxy.address) == start
  {
  }

  /** `cycle` is closed: whenever it is asked, every account in it is a proxy whose
      implementation is again in it. */
  ghost predicate Closed(w: World, cycle: set<Address>) {
    && (forall n: nat, a :: a in cycle ==> IsProxy(Read(w, n, a)))
    && (forall n: nat, m: nat, a, visited :: a in cycle ==>
          Forward(w, m, Read(w, n, a), visited).Ok? ==> Forward(w, m, Read(w, n, a), visited).value.implementation in cycle)
  }

  lemma InsideLeadsInside(w: World, n: nat, hops: seq<Hop>, a: Address, cycle: set<Address>)
    requires Closed(w, cycle) && a in cycle
    ensures IsProxy(Asked(w, n, hops, a))
    ensures Left(w, n, hops, a).Ok? ==> Left(w, n, hops, a).value.implementation in cycle
  {
    hide Read, Forward, Calls;
  }

  lemma {:induction false} StaysInside(w: World, n: nat, start: Address, r: Resolution, cycle: set<Address>, k: nat)
    requires start in cycle && Closed(w, cycle) && Resolves(w, n, start, r) && k <= |r.hops|
    ensures (if k < |r.hops| then r.hops[k].proxy.address else r.effective.address) in cycle
  {
    hide Asked, Left, Closed;
    if k > 0 {
      StaysInside(w, n, start, r, cycle, k - 1);
      assert Follows(w, n, r.hops, k - 1);
      InsideLeadsInside(w, n, r.hops[..k - 1], r.hops[k - 1].proxy.address, cycle);
    }
  }

  /** A chain that can only lead around a cycle never returns. */
  lemma CyclesNeverReturn(w: World, n: nat, start: Address, cycle: set<Address>)
    requires start in cycle && Closed(w, cycle)
    ensures Walk(w, n, [], start).Err?
  {
    hide Asked, Left, Walk, Closed, Links;
    if Walk(w, n, [], start).Ok? {
      var r := Walk(w, n, [], start).value;
      NoLinks(w, n, start);
      WalkSound(w, n, start, [], start);
      StaysInside(w, n, start, r, cycle, |r.hops|);
      InsideLeadsInside(w, n, r.hops, r.effective.address, cycle);
    }
  }

  /** A walk error comes from the chain's content or from the endpoint. */
  lemma {:induction false} WalkErrors(w: World, n: nat, hops: seq<Hop>, current: Address)
    requires Faithful(w) && |hops| <= MAX_PROXY_HOPS
    ensures Walk(w, n, hops, current).Err? ==>
              Walk(w, n, hops, current).error != RpcCallLimit && Walk(w, n, hops, current).error != HttpRequestLimit
    decreases MAX_PROXY_HOPS - |hops|
  {
    if |hops| < MAX_PROXY_HOPS && IsProxy(Asked(w, n, hops, current)) {
      var next := Left(w, n, hops, current);
      if next.Ok? {
        WalkErrors(w, n, hops + [next.value], next.value.implementation);
      }
    }
  }

  // ------------------------------------------------------------------ the clients

  class HttpClient {
    var requests: nat

    constructor ()
      ensures requests == 0
    {
      requests := 0;
    }

    /** One bounded request.  The wall-clock deadline is part of `reply`. */
    method Json<T>(reply: Result<T>) returns (r: Result<T>)
      modifies this
      ensures requests == old(requests) + 1
      ensures r == if old(requests) < 32 then reply else Err(HttpRequestLimit)
    {
      requests := requests + 1;
      if requests > MAX_HTTP_REQUESTS {
        return Err(HttpRequestLimit);
      }
      return reply;
    }
  }

  class RpcClient {
    const http: HttpClient
    var calls: nat

    constructor (http: HttpClient)
      ensures this.http == http && calls == 0
    {
      this.http := http;
      calls := 0;
    }

    method Call<T>(reply: Result<T>) returns (r: Result<T>)
      modifies this, http
      ensures calls == old(calls) + 1
      ensures http.requests == old(http.requests) + if old(calls) < 28 then 1 else 0
      ensures r == if old(calls) >= 28 then Err(RpcCallLimit)
                   else if old(http.requests) >= 32 then Err(HttpRequestLimit)
                   else reply
    {
      calls := calls + 1;
      if calls > MAX_RPC_CALLS {
        return Err(RpcCallLimit);
      }
      r := http.Json(reply);
    }
  }

  /** Room for `n` more calls under both limits, the sourcify request counted apart. */
  ghost predicate Room(rpc: RpcClient, n: nat)
    reads rpc, rpc.http
  {
    rpc.calls + n <= MAX_RPC_CALLS && rpc.http.requests + n <= MAX_HTTP_REQUESTS
  }

  /** Between them, the calls of this step: at most `n`, counted by both clients. */
  twostate predicate Spent(rpc: RpcClient, n: nat)
    reads rpc, rpc.http
  {
    && rpc.calls <= old(rpc.calls) + n
    && rpc.http.requests - old(rpc.http.requests) == rpc.calls - old(rpc.calls)
  }

  method ReadAccount(w: World, rpc: RpcClient, a: Address) returns (account: Account)
    requires Room(rpc, 3)
    modifies rpc, rpc.http
    ensures account == Read(w, old(rpc.calls), a)
    ensures Spent(rpc, 3) && (!account.Unreadable? ==> rpc.calls == old(rpc.calls) + 3)
  {
    var code := rpc.Call(w.code(rpc.calls, a));
    var identity := Identity(code, a);
    if identity.Err? {
      return Unreadable(identity.error);
    }
    var implementationWord := rpc.Call(w.implementationSlot(rpc.calls, a));
    var implementation := SlotAddress(implementationWord);
    if implementation.Err? {
      return Unreadable(implementation.error);
    }
    var beaconWord := rpc.Call(w.beaconSlot(rpc.calls, a));
    var beacon := SlotAddress(beaconWord);
    if beacon.Err? {
      return Unreadable(beacon.error);
    }
    if implementation.value.Some? && beacon.value.Some? {
      return Unreadable(AmbiguousProxy);
    }
    if implementation.value.Some? {
      return Proxy(identity.value, implementation.value.value);
    }
    if beacon.value.Some? {
      return BeaconProxy(identity.value, beacon.value.value);
    }
    return Direct(identity.value);
  }

  method FollowBeacon(w: World, rpc: RpcClient, identity: CodeIdentity, beacon: Address, visited: set<Address>)
    returns (r: Result<Hop>)
    requires Room(rpc, 2)
    modifies rpc, rpc.http
    ensures r == Forward(w, old(rpc.calls), BeaconProxy(identity, beacon), visited)
    ensures Spent(rpc, 2) && (r.Ok? ==> rpc.calls == old(rpc.calls) + 2)
  {
    if beacon in visited {
      return Err(ProxyCycle);
    }
    var code := rpc.Call(w.code(rpc.calls, beacon));
    var beaconIdentity := Identity(code, beacon);
    if beaconIdentity.Err? {
      return Err(beaconIdentity.error);
    }
    var word := rpc.Call(w.beaconImplementation(rpc.calls, beacon));
    var implementation := BeaconAddress(word);
    if implementation.Err? {
      return Err(implementation.error);
    }
    if implementation.value == beacon {
      return Err(ProxyCycle);
    }
    return Ok(Hop(identity, implementation.value, Some(beaconIdentity.value)));
  }

  /** Follow the chain from `address`.  At most 23 calls: five accounts and four beacons. */
  method ResolveProxyChain(w: World, rpc: RpcClient, address: Address) returns (r: Result<Resolution>)
    requires Room(rpc, 23)
    modifies rpc, rpc.http
    ensures r == Walk(w, old(rpc.calls), [], address)
    ensures Spent(rpc, 23)
  {
    hide Read, Calls, Visited, Dispatches, Stripped;
    ghost var n := rpc.calls;
    NoHops();
    var visited: set<Address> := {};
    var hops: seq<Hop> := [];
    var current := address;
    var target: Option<CodeIdentity> := None;
    while true
      invariant |hops| <= MAX_PROXY_HOPS
      invariant visited == Visited(hops)
      invariant target == if hops == [] then None else Some(hops[0].proxy)
      invariant Walk(w, n, [], address) == Walk(w, n, hops, current)
      invariant rpc.calls == n + Calls(hops) && Spent(rpc, 5 * |hops|)
      decreases MAX_PROXY_HOPS - |hops|
    {
      if current in visited {
        return Err(ProxyCycle);
      }
      visited := visited + {current};
      var account := ReadAccount(w, rpc, current);
      if account.Unreadable? {
        return Err(account.error);
      }
      if target.None? {
        target := Some(account.identity);
      }
      if account.Direct? {
        if hops == [] {
          var unsupported := HasUnsupportedDispatch(target.value.code);
          if unsupported {
            return Err(UnsupportedDispatch);
          }
        }
        return Ok(Resolution(target.value, account.identity, hops));
      }
      if |hops| >= MAX_PROXY_HOPS {
        return Err(ProxyDepthExceeded);
      }
      var hop: Hop;
      if account.BeaconProxy? {
        var followed := FollowBeacon(w, rpc, account.identity, account.beacon, visited);
        if followed.Err? {
          return Err(followed.error);
        }
        hop := followed.value;
      } else {
        hop := Hop(account.identity, account.implementation, None);
      }
      LeftNames(w, n, hops, current);
      VisitedSnoc(hops, hop);
      CallsSnoc(hops, hop);
      hops := hops + [hop];
      current := hop.implementation;
    }
  }

  predicate FromUpstream<T>(reply: Result<T>) { reply.Err? ==> reply.error.Upstream? }

  /** A whole resolution: chain id, finalized block, the walk, the source lookup, and the final
      block confirmation, whose answers are arguments.  Whatever the endpoint answers, the call
      limits are never what fails. */
  method ResolveVerifiedSource(
      w: World, address: Address,
      chain: Result<()>, finalized: Result<()>, source: Result<()>, canonical: Result<()>)
    returns (r: Result<Resolution>, rpc: RpcClient)
    ensures fresh(rpc) && fresh(rpc.http)
    ensures rpc.calls <= 26 && rpc.http.requests <= 27
    ensures r == if chain.Err? then Err(chain.error)
                 else if finalized.Err? then Err(finalized.error)
                 else if Walk(w, 2, [], address).Err? then Walk(w, 2, [], address)
                 else if source.Err? then Err(source.error)
                 else if canonical.Err? then Err(canonical.error)
                 else Walk(w, 2, [], address)
    ensures Faithful(w) && FromUpstream(chain) && FromUpstream(finalized) && FromUpstream(source) && FromUpstream(canonical) ==>
              r != Err(RpcCallLimit) && r != Err(HttpRequestLimit)
  {
    hide Walk;
    if Faithful(w) { WalkErrors(w, 2, [], address); }
    var http := new HttpClient();
    rpc := new RpcClient(http);
    var c := rpc.Call(chain);
    if c.Err? { return Err(c.error), rpc; }
    var f := rpc.Call(finalized);
    if f.Err? { return Err(f.error), rpc; }
    r := ResolveProxyChain(w, rpc, address);
    if r.Err? { return r, rpc; }
    var s := rpc.http.Json(source);
    if s.Err? { return Err(s.error), rpc; }
    var d := rpc.Call(canonical);
    if d.Err? { return Err(d.error), rpc; }
  }
}
