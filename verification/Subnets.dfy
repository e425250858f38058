/** The /24 allocator of rootcell instances, over every sequence of instance creations. */
module Subnets {
  import opened Bytes
  import opened Numerals
  import opened Ipv4

  datatype InstanceState = InstanceState(subnet: string, firewallIp: string, agentIp: string)

  /** The environment variables the allocator reads. */
  datatype Env = Env(firewallIp: Option<string>, agentIp: Option<string>, prefix: Option<string>,
                     poolStart: Option<string>, poolEnd: Option<string>)

  datatype Error =
    | InvalidAddress | NotANetwork | NotPrivate | HostsOutside | WrongHosts
    | HostsIncomplete | WrongPrefix | PoolNotNetworks | PoolNotPrivate | PoolReversed
    | PoolExhausted | AlreadyAllocated | Collision

  const DEFAULT_POOL_START: string := "192.168.100.0"
  const DEFAULT_POOL_END: string := "192.168.254.0"

  // ----- validation -----

  function ValidateHosts(st: InstanceState): Result<(), Error> {
    var subnet, firewall, agent := Parse(st.subnet), Parse(st.firewallIp), Parse(st.agentIp);
    if subnet.None? || firewall.None? || agent.None? then Err(InvalidAddress)
    else if subnet.value % 0x100 != 0 then Err(NotANetwork)
    else if !IsPrivate(subnet.value) then Err(NotPrivate)
    else if Subnet24(firewall.value) != subnet.value || Subnet24(agent.value) != subnet.value then Err(HostsOutside)
    else if firewall.value % 0x100 != 10 || agent.value % 0x100 != 11 then Err(WrongHosts)
    else Ok(())
  }

  predicate ValidState(st: InstanceState) {
    ValidateHosts(st).Ok?
  }

  // ----- the pool -----

  datatype Pool = Pool(start: nat, end: nat)

  function PoolFromEnv(env: Env): (r: Result<Pool, Error>)
    ensures r.Ok? ==> r.value.start <= r.value.end < TWO_TO_32
    ensures r.Ok? ==> r.value.start % 0x100 == 0 && r.value.end % 0x100 == 0
    ensures r.Ok? ==> IsPrivate(r.value.start) && IsPrivate(r.value.end)
  {
    var start := Parse(if env.poolStart.Some? then env.poolStart.value else DEFAULT_POOL_START);
    var end := Parse(if env.poolEnd.Some? then env.poolEnd.value else DEFAULT_POOL_END);
    if start.None? || end.None? then Err(InvalidAddress)
    else if start.value % 0x100 != 0 || end.value % 0x100 != 0 then Err(PoolNotNetworks)
    else if !IsPrivate(start.value) || !IsPrivate(end.value) then Err(PoolNotPrivate)
    else if start.value > end.value then Err(PoolReversed)
    else Ok(Pool(start.value, end.value))
  }

  /** String.lastIndexOf of a dot, -1 when there is none. */
  function LastDot(s: string): (i: int)
    ensures -1 <= i < |s| && (i >= 0 ==> s[i] == '.') && forall j :: i < j < |s| ==> s[j] != '.'
  {
    if s == "" then -1 else if s[|s| - 1] == '.' then |s| - 1 else LastDot(s[..|s| - 1])
  }

  function StateFor(subnet: string): InstanceState {
    var i := LastDot(subnet);
    var prefix := if i >= 0 then subnet[..i] else subnet[..(if |subnet| > 0 then |subnet| - 1 else 0)];
    InstanceState(subnet, prefix + ".10", prefix + ".11")
  }

  /** A /24 network of the pool. */
  predicate InPool(p: Pool, n: nat) {
    p.start <= n <= p.end && n % 0x100 == 0
  }

  ghost predicate IsLowestFree(p: Pool, used: set<string>, n: nat) {
    InPool(p, n) && Format(n) !in used && forall m: nat :: InPool(p, m) && m < n ==> Format(m) in used
  }

  /** The state a pool allocation must produce. */
  ghost predicate Allocates(p: Pool, used: set<string>, st: InstanceState) {
    exists n: nat :: IsLowestFree(p, used, n) && st == StateFor(Format(n))
  }

  predicate Exhausted(p: Pool, used: set<string>)
    requires p.start <= p.end < TWO_TO_32
  {
    forall n: nat | p.start <= n <= p.end :: InPool(p, n) ==> Format(n) in used
  }

  /** Every network of the pool below `n` is taken. */
  ghost predicate UsedBelow(p: Pool, used: set<string>, n: nat) {
    forall m: nat :: InPool(p, m) && m < n ==> Format(m) in used
  }

  lemma {:induction false} NoneBelow(p: Pool, used: set<string>)
    ensures UsedBelow(p, used, p.start)
  {}

  lemma {:induction false} NextNetwork(p: Pool, used: set<string>, network: nat)
    requires network % 0x100 == 0 && Format(network) in used
    requires UsedBelow(p, used, network)
    ensures UsedBelow(p, used, network + 0x100)
  {
    hide Format;
    forall m: nat | InPool(p, m) && m < network + 0x100 ensures Format(m) in used {
      assert m < network || m == network;
    }
  }

  lemma {:induction false} LowestFound(p: Pool, used: set<string>, network: nat)
    requires p.start <= network <= p.end < TWO_TO_32 && network % 0x100 == 0 && Format(network) !in used
    requires UsedBelow(p, used, network)
    ensures Allocates(p, used, StateFor(Format(network))) && !Exhausted(p, used)
  {
    hide Format; hide StateFor;
    assert InPool(p, network);
    assert IsLowestFree(p, used, network);
  }

  lemma {:induction false} NoneFree(p: Pool, used: set<string>, network: nat)
    requires p.start <= p.end < TWO_TO_32 && network > p.end
    requires UsedBelow(p, used, network)
    ensures Exhausted(p, used)
  {
    hide Format;
  }

  lemma {:induction false} LowestFreeUnique(p: Pool, used: set<string>, m: nat, n: nat)
    requires IsLowestFree(p, used, m) && IsLowestFree(p, used, n)
    ensures m == n
  {
    hide Format;
  }

  /** The pool, the used networks and nothing else decide what is allocated. */
  lemma {:induction false} AllocationIsDetermined(p: Pool, used: set<string>, st: InstanceState, st': InstanceState)
    requires Allocates(p, used, st) && Allocates(p, used, st')
    ensures st == st'
  {
    hide IsLowestFree; hide StateFor; hide Format;
    var m: nat :| IsLowestFree(p, used, m) && st == StateFor(Format(m));
    var n: nat :| IsLowestFree(p, used, n) && st' == StateFor(Format(n));
    LowestFreeUnique(p, used, m, n);
  }

  /** The loop of `allocateState`: the lowest free network, or failure exactly when none is free. */
  method AllocateState(env: Env, used: set<string>) returns (r: Result<InstanceState, Error>)
    ensures PoolFromEnv(env).Err? ==> r == Err(PoolFromEnv(env).error)
    ensures PoolFromEnv(env).Ok? ==>
      if Exhausted(PoolFromEnv(env).value, used) then r == Err(PoolExhausted)
      else r.Ok? && Allocates(PoolFromEnv(env).value, used, r.value)
           && forall st :: Allocates(PoolFromEnv(env).value, used, st) ==> st == r.value
  {
    hide *;
    var pool := PoolFromEnv(env);
    if pool.Err? {
      return Err(pool.error);
    }
    var start, end := pool.value.start, pool.value.end;
    NoneBelow(pool.value, used);
    var network := start;
    while network <= end
      invariant start <= network <= end + 0x100 && network % 0x100 == 0
      invariant UsedBelow(pool.value, used, network)
      decreases end + 0x100 - network
    {
      var subnet := Format(network);
      if subnet !in used {
        LowestFound(pool.value, used, network);
        forall st | Allocates(pool.value, used, st) ensures st == StateFor(subnet) {
          AllocationIsDetermined(pool.value, used, st, StateFor(subnet));
        }
        return Ok(StateFor(subnet));
      }
      NextNetwork(pool.value, used, network);
      network := network + 0x100;
    }
    NoneFree(pool.value, used, network);
    return Err(PoolExhausted);
  }

  // ----- one instance creation -----

  type States = map<string, InstanceState>

  /** `readAllInstanceStates` throws on the first state that does not validate. */
  predicate AllValid(states: States) {
    forall name :: name in states ==> ValidState(states[name])
  }

  /** `assertNoSubnetCollisions`, which compares subnets as strings. */
  predicate NoCollisions(states: States) {
    forall a, b :: a in states && b in states && a != b ==> states[a].subnet != states[b].subnet
  }

  function UsedSubnets(states: States): set<string> {
    set name | name in states :: states[name].subnet
  }

  function StateFromEnv(env: Env): Result<Option<InstanceState>, Error> {
    if env.firewallIp.None? && env.agentIp.None? then Ok(None)
    else if env.firewallIp.None? || env.agentIp.None? then Err(HostsIncomplete)
    else if env.prefix.Some? && env.prefix.value != "24" then Err(WrongPrefix)
    else match Parse(env.firewallIp.value)
      case None => Err(InvalidAddress)
      case Some(n) =>
        var st := InstanceState(Format(Subnet24(n)), env.firewallIp.value, env.agentIp.value);
        match ValidateHosts(st)
        case Err(e) => Err(e)
        case Ok(_) => Ok(Some(st))
  }

  /** Recorded states that every later start can read back: valid, and on distinct strings. */
  predicate Healthy(states: States) {
    AllValid(states) && NoCollisions(states)
  }

  class InstanceDirectory {
    var states: States

    /** `ensureInstanceState`: reuse the recorded state, or record a requested or allocated one. */
    method EnsureInstanceState(name: string, env: Env) returns (r: Result<InstanceState, Error>)
      modifies this
      ensures r.Err? ==> states == old(states)
      ensures r.Ok? ==> Healthy(old(states)) && states == old(states)[name := r.value]
      ensures r.Ok? && name in old(states) ==> r.value == old(states)[name]
      ensures r.Ok? && name !in old(states) ==>
        && r.value.subnet !in UsedSubnets(old(states))
        && (StateFromEnv(env).Ok? && match StateFromEnv(env).value
              case Some(st) => r.value == st
              case None => PoolFromEnv(env).Ok? && Allocates(PoolFromEnv(env).value, UsedSubnets(old(states)), r.value))
      ensures Healthy(old(states)) && name !in old(states) && StateFromEnv(env) == Ok(None) && PoolFromEnv(env).Ok? ==>
        (r.Err? <==> Exhausted(PoolFromEnv(env).value, UsedSubnets(old(states))))
    {
      hide ValidState; hide AllValid; hide NoCollisions; hide PoolFromEnv; hide StateFromEnv; hide Allocates;
      hide Exhausted;
      if !AllValid(states) {
        return Err(InvalidAddress);
      }
      if !NoCollisions(states) {
        return Err(Collision);
      }
      if name in states {
        assert states == states[name := states[name]];
        return Ok(states[name]);
      }
      var requested := StateFromEnv(env);
      if requested.Err? {
        return Err(requested.error);
      }
      var used := UsedSubnets(states);
      var st;
      if requested.value.Some? {
        st := requested.value.value;
      } else {
        var fromPool := AllocateState(env, used);
        if fromPool.Err? {
          return Err(fromPool.error);
        }
        st := fromPool.value;
        AllocatesUnused(PoolFromEnv(env).value, used, st);
      }
      if st.subnet in used {
        return Err(AlreadyAllocated);
      }
      states := states[name := st];
      return Ok(st);
    }
  }

  lemma {:induction false} AllocatesUnused(p: Pool, used: set<string>, st: InstanceState)
    requires Allocates(p, used, st)
    ensures st.subnet !in used
  {
    hide Format;
  }

  // ----- safety -----

  /** The addresses of a recorded /24. */
  ghost predicate Covers(st: InstanceState, address: nat) {
    Parse(st.subnet).Some? && Subnet24(address) == Parse(st.subnet).value
  }

  ghost predicate Disjoint(s: InstanceState, t: InstanceState) {
    forall address: nat :: !(Covers(s, address) && Covers(t, address))
  }

  /** String-keyed collision checking is sound: states on distinct strings cover disjoint address ranges. */
  lemma {:induction false} DistinctMeansDisjoint(states: States)
    requires NoCollisions(states)
    ensures forall a, b :: a in states && b in states && a != b ==> Disjoint(states[a], states[b])
  {
    hide Parse;
    forall a, b | a in states && b in states && a != b ensures Disjoint(states[a], states[b]) {
      if address: nat :| Covers(states[a], address) && Covers(states[b], address) {
        ParseInjective(states[a].subnet, states[b].subnet);
      }
    }
  }

  /** Every network between two private ones is private exactly when they lie in one block. */
  lemma {:induction false} PoolPrivateIffOneBlock(p: Pool)
    requires p.start <= p.end < TWO_TO_32 && p.start % 0x100 == 0 && p.end % 0x100 == 0
    requires IsPrivate(p.start) && IsPrivate(p.end)
    ensures (forall n: nat :: InPool(p, n) ==> IsPrivate(n)) <==> BlockOf(p.start) == BlockOf(p.end)
  {
    Bounds(p.start);
    Bounds(p.end);
    if BlockOf(p.start) == BlockOf(p.end) {
      forall n | InPool(p, n) ensures IsPrivate(n) { Bounds(n); }
    } else {
      var gap := if BlockOf(p.start) == Some(Ten) then 0x0B00_0000 else 0xAD00_0000;
      assert InPool(p, gap) && !IsPrivate(gap);
    }
  }

  lemma {:induction false} Bounds(n: nat)
    requires n < TWO_TO_32
    ensures BlockOf(n) == Some(Ten) <==> 0x0A00_0000 <= n < 0x0B00_0000
    ensures BlockOf(n) == Some(OneSevenTwo) <==> 0xAC10_0000 <= n < 0xAC20_0000
    ensures BlockOf(n) == Some(OneNineTwo) <==> 0xC0A8_0000 <= n < 0xC0A9_0000
    ensures IsPrivate(n) <==>
      BlockOf(n) == Some(Ten) || BlockOf(n) == Some(OneSevenTwo) || BlockOf(n) == Some(OneNineTwo)
  {
    var first, second := n / 0x100_0000, n / 0x1_0000 % 0x100;
    assert first < 0x100 && n / 0x1_0000 == 0x100 * first + second;
  }

  /** The state written for a /24 number has the hosts .10 and .11 of that network. */
  lemma {:induction false} StateForFormat(n: nat)
    requires n < TWO_TO_32 && n % 0x100 == 0
    ensures StateFor(Format(n)) == InstanceState(Format(n), Format(n + 10), Format(n + 11))
  {
    var a, b, c := Decimal(n / 0x100_0000 % 0x100), Decimal(n / 0x1_0000 % 0x100), Decimal(n / 0x100 % 0x100);
    SameNetwork(n, 10);
    SameNetwork(n, 11);
    assert Decimal(0) == "0" && Decimal(10) == "10" && Decimal(11) == "11";
    var prefix := a + "." + b + "." + c;
    FourParts(a, b, c, "0");
    FourParts(a, b, c, "10");
    FourParts(a, b, c, "11");
    hide Decimal; hide Join;
    assert Format(n) == prefix + ".0" && Format(n + 10) == prefix + ".10" && Format(n + 11) == prefix + ".11";
    var s := prefix + ".0";
    assert s[|s| - 1] == '0' && s[..|s| - 1][|prefix|] == '.';
    assert LastDot(s) == |prefix|;
    assert s[..|prefix|] == prefix;
  }

  lemma {:induction false} FourParts(a: string, b: string, c: string, d: string)
    ensures Join([a, b, c, d], '.') == a + "." + b + "." + c + ("." + d)
  {
    assert [a, b, c, d][1..] == [b, c, d] && [b, c, d][1..] == [c, d] && [c, d][1..] == [d];
    var t := (c + ".") + d;
    var u := (b + ".") + t;
    assert Join([c, d], '.') == t && Join([b, c, d], '.') == u;
    assert t == c + ("." + d);
    assert u == (b + "." + c) + ("." + d);
    assert (a + ".") + u == (a + "." + b + "." + c) + ("." + d);
  }

  lemma {:induction false} SameNetwork(n: nat, host: nat)
    requires n < TWO_TO_32 && n % 0x100 == 0 && host < 0x100
    ensures n + host < TWO_TO_32 && (n + host) % 0x100 == host && Subnet24(n + host) == n
    ensures (n + host) / 0x100 % 0x100 == n / 0x100 % 0x100
    ensures (n + host) / 0x1_0000 % 0x100 == n / 0x1_0000 % 0x100
    ensures (n + host) / 0x100_0000 % 0x100 == n / 0x100_0000 % 0x100
  {
    assert (n + host) / 0x100 == n / 0x100;
    assert (n + host) / 0x1_0000 == n / 0x1_0000;
    assert (n + host) / 0x100_0000 == n / 0x100_0000;
  }

  /** An allocated state validates exactly when its network is private. */
  lemma {:induction false} AllocatedValidIffPrivate(n: nat)
    requires n < TWO_TO_32 && n % 0x100 == 0
    ensures ValidState(StateFor(Format(n))) <==> IsPrivate(n)
  {
    hide Format; hide Parse; hide StateFor; hide BlockOf;
    StateForFormat(n);
    SameNetwork(n, 10);
    SameNetwork(n, 11);
    ParseFormat(n);
    ParseFormat(n + 10);
    ParseFormat(n + 11);
  }

  lemma {:induction false} AddedKeepsDistinct(states: States, name: string, st: InstanceState)
    requires NoCollisions(states) && name !in states && st.subnet !in UsedSubnets(states)
    ensures NoCollisions(states[name := st])
  {
    var after := states[name := st];
    forall a, b | a in after && b in after && a != b ensures after[a].subnet != after[b].subnet {
      assert a in states ==> states[a].subnet in UsedSubnets(states);
      assert b in states ==> states[b].subnet in UsedSubnets(states);
    }
  }

  lemma {:induction false} AddedKeepsHealthyIff(states: States, name: string, st: InstanceState)
    requires Healthy(states) && name !in states && st.subnet !in UsedSubnets(states)
    ensures Healthy(states[name := st]) <==> ValidState(st)
  {
    hide ValidState;
    AddedKeepsDistinct(states, name, st);
    hide NoCollisions;
    assert states[name := st][name] == st;
  }

  /** Recording the lowest free network of any pool keeps all states readable exactly when it is private. */
  lemma {:induction false} AllocationKeepsHealthyIff(states: States, name: string, p: Pool, n: nat)
    requires Healthy(states) && name !in states && n < TWO_TO_32 && IsLowestFree(p, UsedSubnets(states), n)
    ensures Healthy(states[name := StateFor(Format(n))]) <==> IsPrivate(n)
  {
    hide Format; hide StateFor; hide ValidState; hide BlockOf; hide Healthy; hide UsedSubnets;
    StateForFormat(n);
    AllocatedValidIffPrivate(n);
    AddedKeepsHealthyIff(states, name, StateFor(Format(n)));
  }

  /** What one creation records keeps every state readable, exactly when it was requested or its network
      is private. */
  lemma {:induction false} CreationKeepsHealthyIff(states: States, name: string, env: Env, st: InstanceState)
    requires Healthy(states) && name !in states && st.subnet !in UsedSubnets(states)
    requires StateFromEnv(env) == Ok(Some(st))
      || (StateFromEnv(env) == Ok(None) && PoolFromEnv(env).Ok?
          && Allocates(PoolFromEnv(env).value, UsedSubnets(states), st))
    ensures Healthy(states[name := st]) <==> StateFromEnv(env) == Ok(Some(st)) || OnPrivateNetwork(st)
  {
    hide Format; hide StateFor; hide ValidateHosts; hide BlockOf; hide PoolFromEnv; hide Healthy; hide UsedSubnets;
    if StateFromEnv(env) == Ok(Some(st)) {
      AddedKeepsHealthyIff(states, name, st);
    } else {
      hide StateFromEnv; hide Parse;
      var p := PoolFromEnv(env).value;
      var n: nat :| IsLowestFree(p, UsedSubnets(states), n) && st == StateFor(Format(n));
      StateForFormat(n);
      ParseFormat(n);
      AllocationKeepsHealthyIff(states, name, p, n);
    }
  }

  predicate OnPrivateNetwork(st: InstanceState) {
    Parse(st.subnet).Some? && IsPrivate(Parse(st.subnet).value)
  }

  /** No allocation from the pool, whatever is recorded already, makes the states unreadable. */
  ghost predicate PoolIsSafe(p: Pool) {
    forall states, name, n: nat :: Healthy(states) && name !in states && IsLowestFree(p, UsedSubnets(states), n) ==>
      Healthy(states[name := StateFor(Format(n))])
  }

  /** That is so exactly when its ends lie in one private block. */
  lemma {:induction false} PoolSafeIffOneBlock(p: Pool)
    requires p.start <= p.end < TWO_TO_32 && p.start % 0x100 == 0 && p.end % 0x100 == 0
    requires IsPrivate(p.start) && IsPrivate(p.end)
    ensures PoolIsSafe(p) <==> BlockOf(p.start) == BlockOf(p.end)
  {
    hide Format; hide StateFor; hide Healthy; hide UsedSubnets; hide BlockOf;
    PoolPrivateIffOneBlock(p);
    if BlockOf(p.start) == BlockOf(p.end) {
      forall states, name, n: nat | Healthy(states) && name !in states && IsLowestFree(p, UsedSubnets(states), n)
        ensures Healthy(states[name := StateFor(Format(n))])
      {
        AllocationKeepsHealthyIff(states, name, p, n);
      }
    } else {
      var g := FirstGap(p);
      var states := AllBelow(p, g);
      AllBelowIs(p, g);
      AllocationKeepsHealthyIff(states, Format(g), p, g);
      assert !Healthy(states[Format(g) := StateFor(Format(g))]);
    }
  }

  /** The first network of such a pool that is not private, with nothing but private ones below it. */
  lemma {:induction false} FirstGap(p: Pool) returns (g: nat)
    requires p.start <= p.end < TWO_TO_32 && p.start % 0x100 == 0 && p.end % 0x100 == 0
    requires IsPrivate(p.start) && IsPrivate(p.end) && BlockOf(p.start) != BlockOf(p.end)
    ensures InPool(p, g) && !IsPrivate(g) && forall n: nat :: InPool(p, n) && n < g ==> IsPrivate(n)
  {
    Bounds(p.start);
    Bounds(p.end);
    g := if BlockOf(p.start) == Some(Ten) then 0x0B00_0000 else 0xAC20_0000;
    assert g % 0x100 == 0;
    Bounds(g);
    forall n: nat | InPool(p, n) && n < g ensures IsPrivate(n) { Bounds(n); }
  }

  /** Every network of the pool below `g`, recorded under its own text. */
  ghost function AllBelow(p: Pool, g: nat): States {
    map s | s in (set n: nat | n < g && InPool(p, n) :: Format(n)) :: StateFor(s)
  }

  lemma {:induction false} AllBelowIs(p: Pool, g: nat)
    requires p.start <= p.end < TWO_TO_32 && InPool(p, g) && forall n: nat :: InPool(p, n) && n < g ==> IsPrivate(n)
    ensures var states := AllBelow(p, g);
      Healthy(states) && Format(g) !in states && IsLowestFree(p, UsedSubnets(states), g)
  {
    hide Format; hide StateFor; hide ValidState; hide BlockOf; hide Parse;
    var states := AllBelow(p, g);
    forall s | s in states ensures ValidState(states[s]) && states[s].subnet == s && s != Format(g) {
      var n: nat :| n < g && InPool(p, n) && s == Format(n);
      AllocatedValidIffPrivate(n);
      StateForFormat(n);
      ParseFormat(n);
      ParseFormat(g);
    }
    forall m: nat | InPool(p, m) && m < g ensures Format(m) in UsedSubnets(states) {
      assert Format(m) in states && states[Format(m)].subnet == Format(m);
    }
    assert Format(g) !in UsedSubnets(states);
  }

  datatype Request = Request(name: string, env: Env)

  /** The states that cannot be read back are at most one. */
  ghost predicate AtMostOneInvalid(states: States) {
    forall a, b :: a in states && b in states && !ValidState(states[a]) && !ValidState(states[b]) ==> a == b
  }

  lemma {:induction false} OneMoreState(states: States, name: string, st: InstanceState)
    requires AllValid(states)
    ensures AtMostOneInvalid(states[name := st])
  {
    hide ValidState;
  }

  /** Any sequence of creations and reuses, from any pools, leaves pairwise disjoint /24s, and at most
      one state that cannot be read back. */
  method CreateInstances(dir: InstanceDirectory, requests: seq<Request>)
    requires NoCollisions(dir.states)
    modifies dir
    ensures NoCollisions(dir.states)
    ensures forall name :: name in old(dir.states) ==> name in dir.states && dir.states[name] == old(dir.states)[name]
    ensures forall a, b :: a in dir.states && b in dir.states && a != b ==> Disjoint(dir.states[a], dir.states[b])
    ensures Healthy(old(dir.states)) ==> AtMostOneInvalid(dir.states)
  {
    hide ValidateHosts; hide PoolFromEnv; hide StateFromEnv; hide Format; hide StateFor; hide Parse; hide BlockOf;
    hide Disjoint; hide Allocates; hide ValidState; hide NoCollisions; hide AtMostOneInvalid;
    OneMoreStart(dir.states);
    for i := 0 to |requests|
      invariant NoCollisions(dir.states)
      invariant Healthy(old(dir.states)) ==> AtMostOneInvalid(dir.states)
      invariant forall name :: name in old(dir.states) ==>
        name in dir.states && dir.states[name] == old(dir.states)[name]
    {
      ghost var before := dir.states;
      var request := requests[i];
      var r := dir.EnsureInstanceState(request.name, request.env);
      if r.Ok? {
        OneMoreState(before, request.name, r.value);
        if request.name in before {
          assert dir.states == before;
        } else {
          AddedKeepsDistinct(before, request.name, r.value);
        }
      }
    }
    DistinctMeansDisjoint(dir.states);
  }

  lemma {:induction false} OneMoreStart(states: States)
    ensures Healthy(states) ==> AtMostOneInvalid(states)
  {
    hide ValidState;
  }

  lemma {:induction false} OutsideIsAllocated(states: States, name: string, p: Pool, n: nat)
    requires Healthy(states) && name !in states && p.start <= p.end < TWO_TO_32 && !IsPrivate(n)
    requires IsLowestFree(p, UsedSubnets(states), n)
    ensures !Exhausted(p, UsedSubnets(states)) && !Healthy(states[name := StateFor(Format(n))])
    ensures forall st :: Allocates(p, UsedSubnets(states), st) ==> st == StateFor(Format(n))
  {
    hide Format; hide StateFor; hide Healthy; hide BlockOf; hide UsedSubnets;
    AllocationKeepsHealthyIff(states, name, p, n);
    assert Allocates(p, UsedSubnets(states), StateFor(Format(n)));
    forall st | Allocates(p, UsedSubnets(states), st) ensures st == StateFor(Format(n)) {
      AllocationIsDetermined(p, UsedSubnets(states), st, StateFor(Format(n)));
    }
  }

  /** Once the lowest free network of an accepted pool is not private, it is handed out all the same, and
      no call whatever succeeds after that. */
  method CreateOutside(dir: InstanceDirectory, name: string, env: Env, ghost n: nat, later: Request)
    returns (r: Result<InstanceState, Error>, again: Result<InstanceState, Error>)
    requires Healthy(dir.states) && name !in dir.states && StateFromEnv(env) == Ok(None) && PoolFromEnv(env).Ok?
    requires IsLowestFree(PoolFromEnv(env).value, UsedSubnets(dir.states), n) && !IsPrivate(n)
    modifies dir
    ensures r == Ok(StateFor(Format(n))) && again.Err?
    ensures dir.states == old(dir.states)[name := StateFor(Format(n))]
  {
    hide Healthy; hide PoolFromEnv; hide StateFromEnv; hide Format; hide StateFor; hide IsLowestFree; hide UsedSubnets;
    hide IsPrivate; hide Allocates; hide Exhausted;
    OutsideIsAllocated(dir.states, name, PoolFromEnv(env).value, n);
    r := dir.EnsureInstanceState(name, env);
    again := dir.EnsureInstanceState(later.name, later.env);
  }

  /** 10.255.255.0 to 172.16.0.0, with the first network taken. */
  const WIDE_POOL: Env := Env(None, None, None, Some("10.255.255.0"), Some("172.16.0.0"))
  const FIRST_TAKEN: States := map["one" := StateFor("10.255.255.0")]

  lemma {:induction false} FormatIs(a: nat, b: nat, c: nat, d: nat)
    requires a <= 255 && b <= 255 && c <= 255 && d <= 255
    ensures Format(Pack(a, b, c, d)) == Decimal(a) + "." + Decimal(b) + "." + Decimal(c) + ("." + Decimal(d))
  {
    Digits(a, b, c, d);
    FourParts(Decimal(a), Decimal(b), Decimal(c), Decimal(d));
    hide Decimal; hide Join;
  }

  lemma {:induction false} FewDecimals()
    ensures Decimal(0) == "0" && Decimal(10) == "10" && Decimal(11) == "11" && Decimal(16) == "16"
    ensures Decimal(172) == "172" && Decimal(255) == "255"
  {
    assert Decimal(17) == "17" && Decimal(25) == "25";
  }

  lemma {:induction false} StartText()
    ensures Format(0x0AFF_FF00) == "10.255.255.0"
  {
    hide *;
    FewDecimals();
    FormatIs(10, 255, 255, 0);
    PackIs();
  }

  lemma {:induction false} EndText()
    ensures Format(0xAC10_0000) == "172.16.0.0"
  {
    hide *;
    FewDecimals();
    FormatIs(172, 16, 0, 0);
    PackIs();
  }

  lemma {:induction false} OutsideText()
    ensures Format(0x0B00_0000) == "11.0.0.0"
  {
    hide *;
    FewDecimals();
    FormatIs(11, 0, 0, 0);
    PackIs();
  }

  lemma {:induction false} PackIs()
    ensures Pack(10, 255, 255, 0) == 0x0AFF_FF00 && Pack(172, 16, 0, 0) == 0xAC10_0000
    ensures Pack(11, 0, 0, 0) == 0x0B00_0000
  {}

  /** The next network of that pool is 11.0.0.0. */
  lemma {:induction false} WidePoolLeavesPrivateSpace()
    ensures Healthy(FIRST_TAKEN) && StateFromEnv(WIDE_POOL) == Ok(None)
    ensures PoolFromEnv(WIDE_POOL) == Ok(Pool(0x0AFF_FF00, 0xAC10_0000))
    ensures Format(0x0B00_0000) == "11.0.0.0" && !IsPrivate(0x0B00_0000)
    ensures IsLowestFree(PoolFromEnv(WIDE_POOL).value, UsedSubnets(FIRST_TAKEN), 0x0B00_0000)
  {
    hide Format; hide Parse; hide StateFor; hide ValidState; hide BlockOf;
    StartText();
    EndText();
    OutsideText();
    ParseFormat(0x0AFF_FF00);
    ParseFormat(0xAC10_0000);
    ParseFormat(0x0B00_0000);
    Bounds(0x0AFF_FF00);
    Bounds(0xAC10_0000);
    Bounds(0x0B00_0000);
    AllocatedValidIffPrivate(0x0AFF_FF00);
    StateForFormat(0x0AFF_FF00);
    assert FIRST_TAKEN["one"].subnet == "10.255.255.0";
    assert UsedSubnets(FIRST_TAKEN) == {Format(0x0AFF_FF00)};
    var p := Pool(0x0AFF_FF00, 0xAC10_0000);
    forall m: nat | InPool(p, m) && m < 0x0B00_0000 ensures m == 0x0AFF_FF00 {}
    assert InPool(p, 0x0B00_0000);
    assert Format(0x0B00_0000) != Format(0x0AFF_FF00);
    assert IsLowestFree(p, UsedSubnets(FIRST_TAKEN), 0x0B00_0000);
  }

  /** It is recorded, and then nothing works any more. */
  method StrandedByWidePool(dir: InstanceDirectory, later: Request)
    returns (r: Result<InstanceState, Error>, again: Result<InstanceState, Error>)
    requires dir.states == FIRST_TAKEN
    modifies dir
    ensures r.Ok? && r.value.subnet == "11.0.0.0" && dir.states == FIRST_TAKEN["two" := r.value]
    ensures again.Err?
  {
    hide Healthy; hide PoolFromEnv; hide StateFromEnv; hide Format; hide StateFor; hide IsLowestFree; hide UsedSubnets;
    hide IsPrivate;
    WidePoolLeavesPrivateSpace();
    StateForFormat(0x0B00_0000);
    assert "two"[0] != "one"[0];
    r, again := CreateOutside(dir, "two", WIDE_POOL, 0x0B00_0000, later);
  }

  // ----- the collision check itself -----

  datatype StateEntry = StateEntry(name: string, state: InstanceState)

  /** The names recorded for one subnet. */
  function NamesOn(entries: seq<StateEntry>, subnet: string): seq<string> {
    if entries == [] then []
    else
      var n := |entries| - 1;
      NamesOn(entries[..n], subnet) + (if entries[n].state.subnet == subnet then [entries[n].name] else [])
  }

  ghost predicate Twice(entries: seq<StateEntry>, subnet: string) {
    exists i, j :: 0 <= i < j < |entries| && entries[i].state.subnet == subnet && entries[j].state.subnet == subnet
  }

  lemma {:induction false} NamesCount(entries: seq<StateEntry>, subnet: string)
    ensures NamesOn(entries, subnet) != [] <==> exists i :: 0 <= i < |entries| && entries[i].state.subnet == subnet
    ensures |NamesOn(entries, subnet)| > 1 <==> Twice(entries, subnet)
  {
    if entries != [] {
      NamesCount(entries[..|entries| - 1], subnet);
    }
  }

  lemma {:induction false} NoNames()
    ensures forall s :: NamesOn([], s) == []
  {}

  lemma {:induction false} OneMoreName(entries: seq<StateEntry>, i: nat)
    requires i < |entries|
    ensures forall s ::
      NamesOn(entries[..i + 1], s)
        == NamesOn(entries[..i], s) + (if entries[i].state.subnet == s then [entries[i].name] else [])
  {
    assert entries[..i + 1][..i] == entries[..i];
  }

  lemma {:induction false} NoneTwice(entries: seq<StateEntry>)
    ensures (forall s :: !Twice(entries, s)) <==>
      forall i, j :: 0 <= i < j < |entries| ==> entries[i].state.subnet != entries[j].state.subnet
  {
    forall i, j | 0 <= i < j < |entries| && entries[i].state.subnet == entries[j].state.subnet
      ensures Twice(entries, entries[i].state.subnet)
    {}
  }

  /** The two loops of `assertNoSubnetCollisions`. */
  method AssertNoSubnetCollisions(entries: seq<StateEntry>) returns (ok: bool)
    ensures ok <==> forall i, j :: 0 <= i < j < |entries| ==> entries[i].state.subnet != entries[j].state.subnet
  {
    hide NamesOn; hide Twice;
    var bySubnet: map<string, seq<string>> := map[];
    NoNames();
    for i := 0 to |entries|
      invariant forall s :: s in bySubnet <==> NamesOn(entries[..i], s) != []
      invariant forall s :: s in bySubnet ==> bySubnet[s] == NamesOn(entries[..i], s)
    {
      var s := entries[i].state.subnet;
      OneMoreName(entries, i);
      var names := if s in bySubnet then bySubnet[s] else [];
      bySubnet := bySubnet[s := names + [entries[i].name]];
    }
    assert entries[..|entries|] == entries;
    forall s ensures |NamesOn(entries, s)| > 1 <==> Twice(entries, s) { NamesCount(entries, s); }
    var left := bySubnet.Keys;
    while left != {}
      invariant left <= bySubnet.Keys
      invariant forall s :: s in bySubnet && s !in left ==> |bySubnet[s]| <= 1
      decreases |left|
    {
      var s :| s in left;
      left := left - {s};
      if |bySubnet[s]| > 1 {
        NoneTwice(entries);
        return false;
      }
    }
    NoneTwice(entries);
    return true;
  }

  // ----- what is accepted -----

  /** The private blocks of RFC 1918, section 3. */
  predicate InPrivateSpace(n: nat) {
    || 0x0A00_0000 <= n < 0x0B00_0000
    || 0xAC10_0000 <= n < 0xAC20_0000
    || 0xC0A8_0000 <= n < 0xC0A9_0000
  }

  /** The state of network `n`: its text, and its hosts 10 and 11. */
  predicate IsStateOf(st: InstanceState, n: nat) {
    && n % 0x100 == 0 && InPrivateSpace(n)
    && st.subnet == Format(n) && st.firewallIp == Format(n + 10) && st.agentIp == Format(n + 11)
  }

  /** A state is valid exactly when it is the state of some private /24 network. */
  lemma {:induction false} ValidIff(st: InstanceState)
    ensures ValidState(st) <==> exists n: nat :: IsStateOf(st, n)
  {
    hide Parse; hide Format; hide BlockOf;
    if ValidState(st) {
      var n := Parse(st.subnet).value;
      Bounds(n);
      FormatParse(st.subnet);
      FormatParse(st.firewallIp);
      FormatParse(st.agentIp);
      assert IsStateOf(st, n);
    }
    if n: nat :| IsStateOf(st, n) {
      Bounds(n);
      SameNetwork(n, 10);
      SameNetwork(n, 11);
      ParseFormat(n);
      ParseFormat(n + 10);
      ParseFormat(n + 11);
    }
  }

  /** The hosts asked for give a state exactly when they are the hosts 10 and 11 of a private /24 network
      and no other prefix is asked for; without hosts nothing is requested. */
  lemma {:induction false} RequestedIff(env: Env, st: InstanceState)
    ensures StateFromEnv(env) == Ok(Some(st)) <==>
      && env.firewallIp == Some(st.firewallIp) && env.agentIp == Some(st.agentIp)
      && (env.prefix.None? || env.prefix == Some("24")) && exists n: nat :: IsStateOf(st, n)
    ensures StateFromEnv(env) == Ok(None) <==> env.firewallIp.None? && env.agentIp.None?
  {
    ValidIff(st);
    hide Parse; hide Format; hide IsStateOf; hide InPrivateSpace;
    if env.firewallIp.Some? && env.agentIp.Some? && ValidState(st) {
      FormatParse(st.subnet);
    }
    hide IsPrivate; hide BlockOf;
  }

  /** The pool of an environment, 192.168.100.0 to 192.168.254.0 by default: two private networks in order. */
  lemma {:induction false} PoolIff(env: Env, p: Pool)
    ensures PoolFromEnv(env) == Ok(p) <==>
      && p.start <= p.end && p.start % 0x100 == 0 && p.end % 0x100 == 0
      && InPrivateSpace(p.start) && InPrivateSpace(p.end)
      && Format(p.start) == (if env.poolStart.Some? then env.poolStart.value else "192.168.100.0")
      && Format(p.end) == (if env.poolEnd.Some? then env.poolEnd.value else "192.168.254.0")
  {
    hide Parse; hide Format; hide BlockOf; hide IsPrivate;
    if PoolFromEnv(env).Ok? {
      PoolEnds(env, PoolFromEnv(env).value);
    }
    if InPrivateSpace(p.start) && InPrivateSpace(p.end) {
      Bounds(p.start);
      Bounds(p.end);
      ParseFormat(p.start);
      ParseFormat(p.end);
    }
  }

  lemma {:induction false} PoolEnds(env: Env, p: Pool)
    requires PoolFromEnv(env) == Ok(p)
    ensures InPrivateSpace(p.start) && InPrivateSpace(p.end)
    ensures Format(p.start) == (if env.poolStart.Some? then env.poolStart.value else "192.168.100.0")
    ensures Format(p.end) == (if env.poolEnd.Some? then env.poolEnd.value else "192.168.254.0")
  {
    hide Parse; hide Format; hide BlockOf; hide IsPrivate;
    Bounds(p.start);
    Bounds(p.end);
    FormatParse(if env.poolStart.Some? then env.poolStart.value else DEFAULT_POOL_START);
    FormatParse(if env.poolEnd.Some? then env.poolEnd.value else DEFAULT_POOL_END);
  }
}
