/** What the endpoint's raw replies decide: each step of the walk, read off the bytes. */
module ProxyReplies {
  import opened Basics
  import opened Bytecode
  import opened ProxyChain

  /** The word holds the address `a`: twelve zero bytes, then the twenty bytes of `a`, not all zero. */
  ghost predicate HoldsAddress(word: seq<Byte>, a: Address) {
    |a| == 20 && a != seq(20, _ => 0) && word == seq(12, _ => 0) + a
  }

  ghost predicate IsZero(word: seq<Byte>) { word == seq(32, _ => 0) }

  ghost predicate IsWord(word: seq<Byte>) { IsZero(word) || exists a :: HoldsAddress(word, a) }

  /** Code that may be looked at: some bytes, at most 128 KiB. */
  predicate Usable(code: Result<seq<Byte>>) { code.Ok? && 1 <= |code.value| <= 131_072 }

  lemma SlotOf(word: seq<Byte>)
    ensures forall a :: HoldsAddress(word, a) ==> SlotAddress(Ok(word)) == Ok(Some(a))
    ensures IsZero(word) ==> SlotAddress(Ok(word)) == Ok(None)
    ensures |word| <= 32 && !IsWord(word) ==> SlotAddress(Ok(word)) == Err(InvalidProxySlot)
    ensures |word| > 32 ==> SlotAddress(Ok(word)) == Err(ResultTooLarge)
  {
    if |word| == 32 {
      assert word == word[..12] + word[12..];
      assert Zeros(word[..12]) ==> word[..12] == seq(12, _ => 0);
      assert Zeros(word[12..]) <==> word[12..] == seq(20, _ => 0);
      if Zeros(word[..12]) && !Zeros(word[12..]) { assert HoldsAddress(word, word[12..]); }
      assert IsZero(word) ==> word[..12] == seq(12, _ => 0) && word[12..] == seq(20, _ => 0);
      assert seq(12, _ => 0) + seq(20, _ => 0) == seq(32, _ => 0 as Byte);
    }
  }

  lemma BeaconOf(word: seq<Byte>)
    ensures forall a :: HoldsAddress(word, a) ==> BeaconAddress(Ok(word)) == Ok(a)
    ensures |word| <= 32 && (forall a :: !HoldsAddress(word, a)) ==> BeaconAddress(Ok(word)) == Err(InvalidProxyBeacon)
    ensures |word| > 32 ==> BeaconAddress(Ok(word)) == Err(ResultTooLarge)
  {
    if |word| == 32 {
      assert word == word[..12] + word[12..];
      assert Zeros(word[..12]) ==> word[..12] == seq(12, _ => 0);
      assert Zeros(word[12..]) <==> word[12..] == seq(20, _ => 0);
      if Zeros(word[..12]) && !Zeros(word[12..]) { assert HoldsAddress(word, word[12..]); }
    }
  }

  /** The walk stands at a new address, its code can be looked at, and both slots are words. */
  ghost predicate Standing(w: World, n: nat, hops: seq<Hop>, a: Address) {
    && |hops| <= 4 && (forall h :: h in hops ==> h.proxy.address != a)
    && var m := n + Calls(hops);
       && Usable(w.code(m, a)) && w.implementationSlot(m + 1, a).Ok? && w.beaconSlot(m + 2, a).Ok?
       && IsWord(w.implementationSlot(m + 1, a).value) && IsWord(w.beaconSlot(m + 2, a).value)
  }

  lemma NotVisited(hops: seq<Hop>, a: Address)
    ensures a in Visited(hops) <==> exists h :: h in hops && h.proxy.address == a
  {
  }

  /** Both slots populated: ambiguous, wherever in the walk. */
  lemma TwoAddressesAreAmbiguous(w: World, n: nat, hops: seq<Hop>, a: Address, x: Address, y: Address)
    requires Standing(w, n, hops, a)
    requires var m := n + Calls(hops);
             HoldsAddress(w.implementationSlot(m + 1, a).value, x) && HoldsAddress(w.beaconSlot(m + 2, a).value, y)
    ensures Walk(w, n, hops, a) == Err(AmbiguousProxy)
  {
    var m := n + Calls(hops);
    NotVisited(hops, a);
    SlotOf(w.implementationSlot(m + 1, a).value);
    SlotOf(w.beaconSlot(m + 2, a).value);
    hide SlotAddress, HoldsAddress, IsZero, Calls, Left, Forward;
  }

  /** No slot populated: the walk ends here, unless a direct target dispatches dynamically. */
  lemma NoAddressEnds(w: World, n: nat, hops: seq<Hop>, a: Address)
    requires Standing(w, n, hops, a)
    requires var m := n + Calls(hops);
             IsZero(w.implementationSlot(m + 1, a).value) && IsZero(w.beaconSlot(m + 2, a).value)
    ensures var here := CodeIdentity(a, w.code(n + Calls(hops), a).value);
            Walk(w, n, hops, a) == if hops == [] && Dispatches(Stripped(here.code)) then Err(UnsupportedDispatch)
                                   else Ok(Resolution(if hops == [] then here else hops[0].proxy, here, hops))
  {
    var m := n + Calls(hops);
    NotVisited(hops, a);
    SlotOf(w.implementationSlot(m + 1, a).value);
    SlotOf(w.beaconSlot(m + 2, a).value);
    hide SlotAddress, HoldsAddress, IsZero, Calls, Left, Forward, Dispatches, Stripped;
  }

  /** Only the implementation slot populated: the walk goes on at that very address, if a fifth
      hop is not needed. */
  lemma ImplementationIsFollowed(w: World, n: nat, hops: seq<Hop>, a: Address, x: Address)
    requires Standing(w, n, hops, a)
    requires var m := n + Calls(hops);
             HoldsAddress(w.implementationSlot(m + 1, a).value, x) && IsZero(w.beaconSlot(m + 2, a).value)
    ensures var here := CodeIdentity(a, w.code(n + Calls(hops), a).value);
            Walk(w, n, hops, a) == if |hops| == 4 then Err(ProxyDepthExceeded) else Walk(w, n, hops + [Hop(here, x, None)], x)
  {
    var m := n + Calls(hops);
    NotVisited(hops, a);
    SlotOf(w.implementationSlot(m + 1, a).value);
    SlotOf(w.beaconSlot(m + 2, a).value);
    hide SlotAddress, HoldsAddress, IsZero, Calls, Dispatches, Stripped;
  }

  /** Only the beacon slot populated: the walk goes on at the address that the beacon names,
      unless it is too deep, the beacon was visited or names itself, or its replies are bad. */
  lemma BeaconIsFollowed(w: World, n: nat, hops: seq<Hop>, a: Address, y: Address)
    requires Standing(w, n, hops, a)
    requires var m := n + Calls(hops);
             IsZero(w.implementationSlot(m + 1, a).value) && HoldsAddress(w.beaconSlot(m + 2, a).value, y)
    ensures var m := n + Calls(hops);
            var here, code, reply := CodeIdentity(a, w.code(m, a).value), w.code(m + 3, y), w.beaconImplementation(m + 4, y);
            var r := Walk(w, n, hops, a);
            if |hops| == 4 then r == Err(ProxyDepthExceeded)
            else if y == a || exists h :: h in hops && h.proxy.address == y then r == Err(ProxyCycle)
            else if code.Err? then r == Err(code.error)
            else if |code.value| > 131_072 then r == Err(ResultTooLarge)
            else if code.value == [] then r == Err(NoContractCode)
            else if reply.Err? then r == Err(reply.error)
            else if |reply.value| > 32 then r == Err(ResultTooLarge)
            else if forall z :: !HoldsAddress(reply.value, z) then r == Err(InvalidProxyBeacon)
            else forall z :: HoldsAddress(reply.value, z) ==>
                   r == if z == y then Err(ProxyCycle)
                        else Walk(w, n, hops + [Hop(here, z, Some(CodeIdentity(y, code.value)))], z)
  {
    var m := n + Calls(hops);
    NotVisited(hops, a);
    NotVisited(hops, y);
    SlotOf(w.implementationSlot(m + 1, a).value);
    SlotOf(w.beaconSlot(m + 2, a).value);
    if w.beaconImplementation(m + 4, y).Ok? { BeaconOf(w.beaconImplementation(m + 4, y).value); }
    hide SlotAddress, BeaconAddress, HoldsAddress, IsZero, Calls, Dispatches, Stripped;
  }

  /** Replies that end the walk before any decision, in the order in which they are asked for. */
  lemma BadReplyFails(w: World, n: nat, hops: seq<Hop>, a: Address)
    requires |hops| <= 4
    ensures var m := n + Calls(hops);
            var code, implementation, beacon, r := w.code(m, a), w.implementationSlot(m + 1, a), w.beaconSlot(m + 2, a), Walk(w, n, hops, a);
            if exists h :: h in hops && h.proxy.address == a then r == Err(ProxyCycle)
            else if code.Err? then r == Err(code.error)
            else if |code.value| > 131_072 then r == Err(ResultTooLarge)
            else if code.value == [] then r == Err(NoContractCode)
            else if implementation.Err? then r == Err(implementation.error)
            else if |implementation.value| > 32 then r == Err(ResultTooLarge)
            else if !IsWord(implementation.value) then r == Err(InvalidProxySlot)
            else if beacon.Err? then r == Err(beacon.error)
            else if |beacon.value| > 32 then r == Err(ResultTooLarge)
            else if !IsWord(beacon.value) then r == Err(InvalidProxySlot)
            else Standing(w, n, hops, a)
  {
    var m := n + Calls(hops);
    NotVisited(hops, a);
    if w.implementationSlot(m + 1, a).Ok? { SlotOf(w.implementationSlot(m + 1, a).value); }
    if w.beaconSlot(m + 2, a).Ok? { SlotOf(w.beaconSlot(m + 2, a).value); }
    hide IsWord, SlotAddress, Calls, Left, Forward, Dispatches, Stripped;
    SlotsOk(w, m, a);
  }

  lemma SlotsOk(w: World, m: nat, a: Address)
    ensures w.implementationSlot(m + 1, a).Ok? && IsWord(w.implementationSlot(m + 1, a).value) ==>
              SlotAddress(w.implementationSlot(m + 1, a)).Ok?
    ensures w.beaconSlot(m + 2, a).Ok? && IsWord(w.beaconSlot(m + 2, a).value) ==> SlotAddress(w.beaconSlot(m + 2, a)).Ok?
  {
    if w.implementationSlot(m + 1, a).Ok? { SlotOf(w.implementationSlot(m + 1, a).value); }
    if w.beaconSlot(m + 2, a).Ok? { SlotOf(w.beaconSlot(m + 2, a).value); }
    hide SlotAddress, HoldsAddress, IsZero;
  }
}
